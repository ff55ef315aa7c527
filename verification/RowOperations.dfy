/**
 What each operation on a line item does, stated on the row's own fields: when it acts, what it
 posts, what it leaves, and what the row counts as afterwards.
 */
module RowOperations {
  import opened Core
  import opened Rounding
  import opened AgingMap
  import opened Allocation
  import opened Evaluator
  import opened RuleAnswers
  import opened ManualMapping
  import opened LineItem
  import opened Lifecycle

  // ---- posting ------------------------------------------------------------------------------

  /** The receipt is there, or is created now. */
  predicate ReceiptStands(row: Row, oracle: Oracle) { row.receipt == Some(Success) || oracle.receiptOk }

  /** Each reference carries an invoice's number and its stated amount, or what it owes if that is missing or zero. */
  predicate ReferTo(posted: seq<Reference>, ms: seq<Matched>) {
    && |posted| == |ms|
    && forall i :: 0 <= i < |ms| ==>
         && posted[i].number == ms[i].number
         && (ms[i].stated.None? || ms[i].stated == Some(0) ==> posted[i].amount == ms[i].outstanding)
         && (ms[i].stated.Some? && ms[i].stated != Some(0) ==> ms[i].stated == Some(posted[i].amount))
  }

  lemma MatchedReferencesRefer(ms: seq<Matched>)
    ensures ReferTo(MatchedReferences(ms), ms)
  {
  }

  /** After a mapping attempt: the outcome is success exactly if the receipt stands and no posted reference was refused. */
  predicate Mapped(before: Row, after: Row, posted: seq<Reference>, breakup: seq<Reference>, oracle: Oracle) {
    && after.receipt == Some(if ReceiptStands(before, oracle) then Success else Failed)
    && after.reference.Some?
    && (after.reference == Some(Success) <==> ReceiptStands(before, oracle) && forall i: nat :: i < |posted| ==> i !in oracle.refused)
    && (after.state == Processed <==> after.reference == Some(Success))
    && (after.state == PostFailed <==> after.reference == Some(Failed))
    && (!ReceiptStands(before, oracle) ==> posted == [])
    && (ReceiptStands(before, oracle) && breakup != [] ==> posted == breakup)
    && (ReceiptStands(before, oracle) && breakup == [] ==> ReferTo(posted, before.matched))
  }

  lemma MappingMeaning(row: Row, breakup: seq<Reference>, oracle: Oracle)
    ensures var (mapped, posted) := MapInvoices(row, breakup, oracle);
            && mapped == row.(receipt := mapped.receipt, reference := mapped.reference)
            && Mapped(row, mapped.(state := AfterMapping(mapped)), posted, breakup, oracle)
  {
    MatchedReferencesRefer(row.matched);
    hide MatchedReferences, ReferTo;
  }

  /**
   An approval acts exactly on an unposted, unrejected row of rule R9a or R9b whose version its
   author saw, if one is named; then it records itself, maps the invoices and counts the version up.
   */
  lemma ApproveMeaning(rnd: Rounding, row: Row, breakup: seq<Reference>, expected: Option<nat>, oracle: Oracle)
    ensures var effect := Step(rnd, row, ApproveEvent(breakup, expected, oracle));
            && (effect.gated <==>
                  && (expected.Some? ==> expected.value == row.version)
                  && row.reference.None? && row.hitl != Some(Rejected) && row.rule in {Some(R9a), Some(R9b)})
            && (effect.gated ==>
                  && effect.row == row.(hitl := Some(Approved), receipt := effect.row.receipt, reference := effect.row.reference,
                                        state := effect.row.state, version := row.version + 1)
                  && Mapped(row, effect.row, effect.posted, breakup, oracle))
            && (!effect.gated ==> effect.row == row && effect.posted == [])
  {
    GateMeaning(row);
    MappingMeaning(row.(hitl := Some(Approved)), breakup, oracle);
    hide MapInvoices, CategoryOf, ReferTo;
  }

  /** A retry acts exactly on a failed mapping, maps the row's own invoices again, and touches neither decision nor version. */
  lemma RetryMeaning(rnd: Rounding, row: Row, oracle: Oracle)
    ensures var effect := Step(rnd, row, RetryEvent(oracle));
            && !effect.gated
            && (row.reference == Some(Failed) ==>
                  && effect.row == row.(receipt := effect.row.receipt, reference := effect.row.reference, state := effect.row.state)
                  && Mapped(row, effect.row, effect.posted, [], oracle))
            && (row.reference != Some(Failed) ==> effect.row == row && effect.posted == [])
  {
    var breakup := MatchedReferences(row.matched);
    MatchedReferencesRefer(row.matched);
    MappingMeaning(row, breakup, oracle);
    MappingMeaning(row, [], oracle);
    hide MapInvoices, ReferTo, MatchedReferences;
  }

  /** Creating the receipt records its outcome and nothing else. */
  lemma ReceiptMeaning(rnd: Rounding, row: Row, ok: bool)
    ensures Step(rnd, row, ReceiptEvent(ok)) == Effect(row.(receipt := if ok then Some(Success) else Some(Failed)), [], false)
  {
  }

  /** A rejection acts exactly on the expected version, and changes decision, state and version only. */
  lemma RejectMeaning(rnd: Rounding, row: Row, expected: Option<nat>)
    ensures var effect := Step(rnd, row, RejectEvent(expected));
            && effect.posted == [] && !effect.gated
            && effect.row == (if expected.Some? && expected.value != row.version then row
                              else row.(hitl := Some(Rejected), state := RejectedRow, version := row.version + 1))
  {
  }

  // ---- classification -----------------------------------------------------------------------

  /** Which of the seven groups a row is shown in. */
  lemma CategoryMeaning(row: Row)
    ensures var g, open := CategoryOf(row), row.reference.None? && row.hitl != Some(Rejected);
            && (g == GroupProcessed <==> row.reference == Some(Success))
            && (g == GroupRejected <==> row.hitl == Some(Rejected) && row.reference != Some(Success))
            && (g == GroupPostFailed <==> row.reference == Some(Failed) && row.hitl != Some(Rejected))
            && (g == GroupReadyForOracle <==> open && row.rule in {Some(R9a), Some(R9b)})
            && (g == GroupNeedsRemittance <==> open && row.rule == Some(R7))
            && (g == GroupUnidentified <==> open && row.rule == Some(R8))
  {
    if row.reference.Some? {
      assert row.reference.value == Success || row.reference.value == Failed;
    }
  }

  /** A classified row carries the result's rule and invoices, and is unidentified exactly under R8. */
  predicate Classified(before: Row, after: Row, result: RuleResult) {
    && after == before.(rule := Some(result.rule), matched := result.matched, state := after.state)
    && after.state == (if result.rule == R8 then UnidentifiedRow else ReviewApprove)
  }

  lemma TransitionMeaning(rnd: Rounding, aging: seq<AgingInvoice>, input: RuleInput, tolerance: real, fuzzyMin: real, row: Row)
    ensures var e := EvaluateRow(rnd, aging, input, tolerance, fuzzyMin);
            e.Evaluated? ==> Classified(row, ApplyTransition(row, e.result), e.result)
  {
    hide EvaluateRow;
    EvaluateWellFormed(rnd, aging, input, tolerance, fuzzyMin);
  }

  /** The input asks what a recheck of the row would ask: the row's own fields, nothing ambiguous or processed. */
  predicate AsksFor(input: RuleInput, row: Row, remittance: Remittance, ouMismatch: bool) {
    && input.credit == row.credit && input.ou == row.ou && input.extracted == row.extracted
    && input.customerPct == row.customerPct && input.currency == row.currency
    && input.remittance == remittance && input.ouMismatch == ouMismatch
    && !input.duplicateInvoice && !input.duplicateAmbiguous && !input.alreadyProcessed
  }

  /** The quality of the text match decides nothing: it only enters R2, which R1 shadows. */
  lemma MatchQualityDecidesNothing(rnd: Rounding, aging: seq<AgingInvoice>, input: RuleInput, pct: real, text: bool,
                                   tolerance: real, fuzzyMin: real)
    ensures EvaluateRow(rnd, aging, input.(invoicePct := pct, customerTextMatch := text), tolerance, fuzzyMin)
         == EvaluateRow(rnd, aging, input, tolerance, fuzzyMin)
  {
    hide NothingResolves, SplitSpec, MatchAll, Sum, Outstandings, Shortfall, BandRule;
  }

  /**
   A recheck acts exactly on a row of R7 that nobody mapped or decided, once one unambiguous
   remittance is found; and it then classifies the row as a run would have with that remittance,
   at the default settings of 12 and 35 percent.
   */
  lemma RecheckIsEvaluation(rnd: Rounding, row: Row, aging: seq<AgingInvoice>, remittance: Remittance, ouMismatch: bool, input: RuleInput)
    requires AsksFor(input, row, remittance, ouMismatch)
    ensures var r := RecheckRow(rnd, row, aging, remittance, ouMismatch);
            var acts := row.rule == Some(R7) && !row.manuallyMapped && row.hitl.None? && remittance.found && !remittance.ambiguous;
            var e := EvaluateRow(rnd, aging, input, 12.0, 35.0);
            && (r.Unchanged? <==> !acts)
            && (r.RecheckRaised? <==> acts && e.Raised?)
            && (r.Changed? ==> e.Evaluated? && Classified(row, r.row, e.result))
            && Step(rnd, row, RecheckEvent(aging, remittance, ouMismatch)) == Effect(if r.Changed? then r.row else row, [], false)
  {
    var asked := RecheckInput(row, remittance, ouMismatch);
    assert asked == input.(invoicePct := asked.invoicePct, customerTextMatch := asked.customerTextMatch);
    MatchQualityDecidesNothing(rnd, aging, input, asked.invoicePct, asked.customerTextMatch, 12.0, 35.0);
    TransitionMeaning(rnd, aging, input, 12.0, 35.0, row);
    hide EvaluateRow, ApplyTransition, Classified;
    if Waiting(row) && remittance.found && !remittance.ambiguous {
      RecheckNeverAnswersR7(rnd, row, aging, remittance, ouMismatch);
    }
  }

  // ---- mapping by hand ------------------------------------------------------------------------

  /** Two rows name different customers. */
  predicate Disagree(v: AgingInvoice, w: AgingInvoice) {
    v.customerName != "" && w.customerName != "" && v.customerName != w.customerName
  }

  /** These are the aging rows of the numbers, in order. */
  predicate AreRowsOf(aging: seq<AgingInvoice>, numbers: seq<string>, ou: string, selected: seq<AgingInvoice>) {
    |selected| == |numbers| && forall i :: 0 <= i < |numbers| ==> Lookup(aging, numbers[i], ou) == Some(selected[i])
  }

  /** h is the percentage of the total that is missing, rounded to hundredths. */
  predicate HundredthsShort(h: int, total: int, received: int) {
    if total == 0 then h == 0
    else -0.5 <= h as real - (total - received) as real / total as real * 10_000.0 <= 0.5
  }

  lemma RoundedShortfallMeaning(rnd: Rounding, total: int, received: int)
    ensures HundredthsShort(RoundedShortfall(rnd, total, received), total, received)
  {
    if total == 0 {
      RoundWhole(rnd, 0);
    } else {
      var x := Shortfall(total, received) * 100.0;
      assert -0.5 <= rnd(x) as real - x <= 0.5;
    }
  }

  /** On a positive total, more than the total is never called short, nor less an overpayment. */
  lemma SideOfTotal(h: int, total: int, received: int)
    requires HundredthsShort(h, total, received) && total > 0
    ensures h < 0 ==> received > total
    ensures h > 0 ==> received < total
    ensures received == total ==> h == 0
  {
    var d, t := (total - received) as real, total as real;
    if received >= total {
      assert d / t <= 0.0;
    }
    if received <= total {
      assert d / t >= 0.0;
    }
  }

  function Owed(vs: seq<AgingInvoice>): seq<int> {
    seq(|vs|, i requires 0 <= i < |vs| => vs[i].outstanding)
  }

  lemma {:induction false} TotalIsSum(vs: seq<AgingInvoice>)
    ensures TotalOutstanding(vs) == Sum(Owed(vs))
  {
    if vs != [] {
      TotalIsSum(vs[..|vs| - 1]);
      SumSnoc(Owed(vs[..|vs| - 1]), vs[|vs| - 1].outstanding);
      assert Owed(vs) == Owed(vs[..|vs| - 1]) + [vs[|vs| - 1].outstanding];
    }
  }

  /** A selection of whole invoices: the rows, their total, and its comparison with the receipt. */
  predicate Compares(p: Preview, received: int) {
    && p.Preview? && p.target == Sum(Owed(p.selected)) && HundredthsShort(p.shortfallHundredths, p.target, received)
    && (p.rule == R11 <==> p.shortfallHundredths < 0)
    && (p.rule == R9a <==> p.shortfallHundredths == 0)
    && (p.rule == R9b <==> 0 < p.shortfallHundredths <= 1200)
    && (p.rule == R9c <==> p.shortfallHundredths > 1200)
    && (p.target > 0 && received > p.target ==> p.rule in {R9a, R11})
    && (p.target > 0 && received < p.target ==> p.rule in {R9a, R9b, R9c})
    && (p.target > 0 && received == p.target ==> p.rule == R9a)
  }

  /**
   A preview fails exactly for an empty selection, a number that does not resolve or rows of two
   customers; otherwise its rule compares the total of the selected rows with the receipt.
   */
  lemma PreviewMeaning(rnd: Rounding, aging: seq<AgingInvoice>, ou: string, received: int, numbers: seq<string>)
    ensures var p := PreviewMapping(rnd, aging, ou, received, numbers);
            && (p.Preview? ==>
                  AreRowsOf(aging, numbers, ou, p.selected) && Compares(p, received)
                  && forall v, w :: v in p.selected && w in p.selected ==> !Disagree(v, w))
            && (p.PreviewError? ==>
                  || numbers == []
                  || (exists i :: 0 <= i < |numbers| && Lookup(aging, numbers[i], ou).None?)
                  || exists i, j :: 0 <= i < |numbers| && 0 <= j < |numbers| && DisagreeAt(aging, numbers, ou, i, j))
  {
    hide Lookup, Shortfall, TotalOutstanding, SelectInvoices, RoundedShortfall;
    SelectInvoicesMeaning(aging, numbers, ou);
    var p := PreviewMapping(rnd, aging, ou, received, numbers);
    if p.Preview? {
      RoundedShortfallMeaning(rnd, p.target, received);
      TotalIsSum(p.selected);
      hide HundredthsShort, OneCustomer;
      if p.target > 0 {
        SideOfTotal(p.shortfallHundredths, p.target, received);
      }
      HundredthsBands(p.shortfallHundredths);
    } else if numbers != [] && SelectInvoices(aging, numbers, ou).Some? {
      SelectionDisagrees(aging, numbers, ou, SelectInvoices(aging, numbers, ou).value);
    }
  }

  predicate DisagreeAt(aging: seq<AgingInvoice>, numbers: seq<string>, ou: string, i: int, j: int)
    requires 0 <= i < |numbers| && 0 <= j < |numbers|
  {
    var v, w := Lookup(aging, numbers[i], ou), Lookup(aging, numbers[j], ou);
    v.Some? && w.Some? && Disagree(v.value, w.value)
  }

  lemma SelectionDisagrees(aging: seq<AgingInvoice>, numbers: seq<string>, ou: string, selected: seq<AgingInvoice>)
    requires AreRowsOf(aging, numbers, ou, selected) && !OneCustomer(selected)
    ensures exists i, j :: 0 <= i < |numbers| && 0 <= j < |numbers| && DisagreeAt(aging, numbers, ou, i, j)
  {
    hide Lookup;
    var v, w :| v in selected && w in selected && v.customerName != "" && w.customerName != "" && v.customerName != w.customerName;
    var i :| 0 <= i < |selected| && selected[i] == v;
    var j :| 0 <= j < |selected| && selected[j] == w;
    assert DisagreeAt(aging, numbers, ou, i, j);
  }

  lemma HundredthsBands(h: int)
    ensures var rule := BandOf(h as real / 100.0, 12.0);
            && (rule == R11 <==> h < 0) && (rule == R9a <==> h == 0)
            && (rule == R9b <==> 0 < h <= 1200) && (rule == R9c <==> h > 1200)
  {
  }

  /** These are the invoices of the selection, each to be settled in full. */
  predicate SettlesInFull(ms: seq<Matched>, selected: seq<AgingInvoice>) {
    && |ms| == |selected|
    && forall i :: 0 <= i < |ms| ==>
         && ms[i].number == selected[i].number && ms[i].outstanding == selected[i].outstanding
         && ms[i].stated == Some(selected[i].outstanding) && ms[i].deduction.None?
         && ms[i].customerName == selected[i].customerName && ms[i].customerNumber == selected[i].customerNumber
         && ms[i].ou == selected[i].ou && ms[i].currency == selected[i].currency
  }

  /** Mapping by hand rewrites rule and invoices exactly for a selection that is exact or short within 12 percent. */
  lemma ConfirmMeaning(rnd: Rounding, row: Row, aging: seq<AgingInvoice>, numbers: seq<string>)
    ensures var p := PreviewMapping(rnd, aging, row.ou, Received(rnd, row.credit, row.currency), numbers);
            var after := Step(rnd, row, ConfirmEvent(aging, numbers)).row;
            if p.Preview? && p.rule in {R9a, R9b}
            then && after == row.(rule := Some(p.rule), matched := after.matched, state := ReviewApprove, manuallyMapped := true)
                 && SettlesInFull(after.matched, p.selected)
            else after == row
  {
    hide PreviewMapping, Received;
  }
}
