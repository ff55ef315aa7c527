/**
 What each rule of the cascade means, over every input and in terms of the input alone: the
 exact condition of every rule id, and the money a result carries.
 */
module RuleAnswers {
  import opened Core
  import opened Rounding
  import opened AgingMap
  import opened Allocation
  import opened Evaluator

  // ---- money in invoice currency ------------------------------------------------------------

  /** Within half a cent of the credit times a usable rate; without one, the credit itself. */
  ghost predicate InInvoiceCurrency(amount: int, credit: int, c: Currency) {
    if c.isCross && c.rate.Some? && c.rate.value != 0.0
    then -0.5 <= amount as real - credit as real * c.rate.value <= 0.5
    else amount == credit
  }

  lemma ReceivedMeaning(rnd: Rounding, credit: int, c: Currency)
    ensures InInvoiceCurrency(Received(rnd, credit, c), credit, c)
  {
    if c.rate.Some? {
      var x := credit as real * c.rate.value;
      assert -0.5 <= rnd(x) as real - x <= 0.5;
    }
  }

  /**
   The money on a result: the target is what the invoices owe, the receipt is the credit in
   invoice currency, and the shortfall is the percentage of the target that did not come in.
   */
  lemma ResultMoney(rnd: Rounding, aging: seq<AgingInvoice>, input: RuleInput, tolerance: real, fuzzyMin: real)
    ensures var e := EvaluateRow(rnd, aging, input, tolerance, fuzzyMin);
            e.Evaluated? ==>
              && (e.result.amounts.Some? <==> e.result.matched != [])
              && (e.result.amounts.Some? ==>
                    var a := e.result.amounts.value;
                    && a.target == Sum(Outstandings(e.result.matched))
                    && InInvoiceCurrency(a.received, input.credit, input.currency)
                    && a.shortfall * a.target as real == (if a.target == 0 then 0.0 else (a.target - a.received) as real * 100.0)
                    && (a.target == 0 ==> a.shortfall == 0.0))
  {
    hide GateRule, Resolve, Received, Sum, Outstandings, InInvoiceCurrency;
    GateForm(aging, input, fuzzyMin);
    GateHasNoAmounts(aging, input, fuzzyMin);
    ReceivedMeaning(rnd, input.credit, input.currency);
    var r := Resolve(rnd, aging, input);
    if r.Split? && r.invoices != [] {
      ShortfallScales(Sum(Outstandings(r.invoices)), Received(rnd, input.credit, input.currency));
      AmountRuleCarries(rnd, r.invoices, input, tolerance);
      hide AmountRule, Shortfall;
    }
  }

  lemma GateHasNoAmounts(aging: seq<AgingInvoice>, input: RuleInput, fuzzyMin: real)
    ensures var g := GateRule(aging, input, fuzzyMin); g.Some? ==> g.value.amounts.None?
  {
    hide NothingResolves, Candidates;
  }

  lemma AmountRuleCarries(rnd: Rounding, matched: seq<Matched>, input: RuleInput, tolerance: real)
    ensures var r := AmountRule(rnd, matched, input, tolerance);
            var target, received := Sum(Outstandings(matched)), Received(rnd, input.credit, input.currency);
            r.matched == matched && r.amounts == Some(Amounts(target, received, Shortfall(target, received)))
  {
    hide Sum, Outstandings, Received, Shortfall, BandRule;
  }

  lemma ShortfallScales(target: int, received: int)
    ensures Shortfall(target, received) * target as real == if target == 0 then 0.0 else (target - received) as real * 100.0
  {
    if target != 0 {
      var t, d := target as real, (target - received) as real;
      assert d / t * t == d;
      assert d / t * 100.0 * t == d / t * t * 100.0;
    }
  }

  /** The amounts on the invoices add up to the credit in invoice currency, unless all were stated. */
  lemma SplitMoney(rnd: Rounding, aging: seq<AgingInvoice>, input: RuleInput)
    ensures var ms := MatchedOf(aging, input);
            var r := Resolve(rnd, aging, input);
            r.Split? && ms != [] && (|ms| == 1 || exists m :: m in ms && m.stated.None?) ==>
              InInvoiceCurrency(Sum(StatedAmounts(r.invoices)), input.credit, input.currency)
  {
    hide MatchedOf, Received, SplitSpec, Sum, StatedAmounts, InInvoiceCurrency;
    var ms, received := MatchedOf(aging, input), Received(rnd, input.credit, input.currency);
    ReceivedMeaning(rnd, input.credit, input.currency);
    if SplitSpec(rnd, received, ms).Split? && ms != [] && (|ms| == 1 || exists m :: m in ms && m.stated.None?) {
      SplitSumsExactly(rnd, received, ms);
    }
  }

  // ---- the exact condition of each rule --------------------------------------------------------

  /** Some invoice number is known: a found remittance decides alone, the extraction otherwise. */
  predicate HasNumbers(input: RuleInput) {
    if input.remittance.found then input.remittance.lines != [] else input.extracted != []
  }

  /** Neither the text nor the remittance, found or not, carries a number. */
  predicate Numberless(input: RuleInput) { input.extracted == [] && input.remittance.lines == [] }

  predicate NoneOpen(aging: seq<AgingInvoice>, input: RuleInput) {
    if input.remittance.found
    then forall i :: 0 <= i < |input.remittance.lines| ==> Lookup(aging, input.remittance.lines[i].number, input.ou).None?
    else forall i :: 0 <= i < |input.extracted| ==> Lookup(aging, input.extracted[i], input.ou).None?
  }

  /** The invoice number is held by several customers and nothing tells them apart. */
  predicate Duplicate(input: RuleInput) { input.duplicateInvoice && input.duplicateAmbiguous }

  predicate CustomerConflict(input: RuleInput) { input.remittance.found && input.remittance.customerConflicts }

  predicate ManyCustomers(input: RuleInput) { input.remittance.found && input.remittance.multipleCustomers }

  /** None of the conflicts that are looked for before anything is matched. */
  predicate Undisputed(aging: seq<AgingInvoice>, input: RuleInput) {
    && !Duplicate(input) && !CustomerConflict(input) && !input.remittance.ambiguous
    && !(HasNumbers(input) && NoneOpen(aging, input))
    && !input.alreadyProcessed && !ManyCustomers(input)
  }

  predicate RateMissing(c: Currency) { c.isCross && (c.rate.None? || c.rate.value == 0.0) }

  lemma CandidatesMeaning(aging: seq<AgingInvoice>, input: RuleInput)
    ensures Candidates(input) != [] <==> HasNumbers(input)
    ensures NothingResolves(aging, Candidates(input), input.ou) <==> NoneOpen(aging, input)
    ensures MatchedOf(aging, input) == [] <==> NoneOpen(aging, input)
    ensures !HasNumbers(input) ==> NoneOpen(aging, input)
  {
    hide Lookup, MatchAll;
    var c := Candidates(input);
    MatchAllEmpty(aging, c, CandidateLines(input), input.ou);
    assert forall i :: 0 <= i < |c| ==> c[i] in c;
    assert input.remittance.found ==> forall i :: 0 <= i < |c| ==> c[i] == input.remittance.lines[i].number;
    if NoneOpen(aging, input) {
      forall n | n in c ensures Lookup(aging, n, input.ou).None? {
        var i :| 0 <= i < |c| && c[i] == n;
      }
    }
  }

  /** The conditions under which the rules before any matching answer. */
  predicate EarlyExactly(aging: seq<AgingInvoice>, input: RuleInput, known: bool, rule: RuleId) {
    var unmatched := HasNumbers(input) && NoneOpen(aging, input);
    && (rule == R0 <==> Duplicate(input))
    && (rule == R1 <==> !Duplicate(input) && CustomerConflict(input))
    && (rule == R3 <==> !Duplicate(input) && !CustomerConflict(input) && input.remittance.ambiguous)
    && (rule == R4 <==> !Duplicate(input) && !CustomerConflict(input) && !input.remittance.ambiguous && unmatched)
    && (rule == R5 <==> !Duplicate(input) && !CustomerConflict(input) && !input.remittance.ambiguous && !unmatched
                        && input.alreadyProcessed)
    && (rule == R6 <==> !Duplicate(input) && !CustomerConflict(input) && !input.remittance.ambiguous && !unmatched
                        && !input.alreadyProcessed && ManyCustomers(input))
    && (rule == R7 <==> Undisputed(aging, input) && known && Numberless(input) && !input.ouMismatch && !input.remittance.found)
  }

  lemma GateExactly(aging: seq<AgingInvoice>, input: RuleInput, fuzzyMin: real)
    ensures var g := GateRule(aging, input, fuzzyMin);
            var known, undisputed := input.customerPct >= fuzzyMin, Undisputed(aging, input);
            && (g.Some? <==>
                  !undisputed || (Numberless(input) && ((known && input.ouMismatch) || !input.remittance.found)))
            && (g.Some? ==>
                  && EarlyExactly(aging, input, known, g.value.rule)
                  && (g.value.rule == R14 <==> undisputed && known && Numberless(input) && input.ouMismatch)
                  && (g.value.rule == R8 <==> undisputed && !known && Numberless(input) && !input.remittance.found)
                  && g.value.rule !in {R2, R13, R9a, R9b, R9c, R11}
                  && g.value.reason == Reason(g.value.rule, false))
            && (g.None? ==> forall rule :: rule in {R8, R13, R14, R9a, R9b, R9c, R11} ==> EarlyExactly(aging, input, known, rule))
  {
    CandidatesMeaning(aging, input);
    hide NothingResolves, Candidates, NoneOpen, MatchedOf;
  }

  /** The reason code of a rule; R14 has two, with and without matched invoices. */
  function Reason(rule: RuleId, matched: bool): string {
    match rule
    case R0 => "DUPLICATE_INVOICE_NO"
    case R1 => "CUSTOMER_CONFLICT"
    case R2 => "INVOICE_CUSTOMER_MISMATCH"
    case R3 => "AMBIGUOUS_REMITTANCE"
    case R4 => "INVOICE_NOT_IN_AGING"
    case R5 => "POSSIBLE_DUPLICATE_PAYMENT"
    case R6 => "CROSS_CUSTOMER_SPLIT"
    case R7 => "CUSTOMER_ONLY_NO_REMIT"
    case R8 => "NO_SIGNAL"
    case R9a => "EXACT_MATCH"
    case R9b => "ACCEPTABLE_SHORT_PAYMENT"
    case R9c => "UNEXPLAINED_SHORTAGE"
    case R11 => "OVERPAYMENT_UNEXPLAINED"
    case R13 => "FX_RATE_MISSING"
    case R14 => if matched then "WRONG_OU_SPLIT_REQUIRED" else "WRONG_OU_PAYMENT"
  }

  lemma AmountRuleExactly(rnd: Rounding, matched: seq<Matched>, input: RuleInput, tolerance: real)
    ensures var r := AmountRule(rnd, matched, input, tolerance);
            var missing := RateMissing(input.currency);
            && (r.rule == R13 <==> missing)
            && (r.rule == R14 <==> !missing && input.ouMismatch)
            && (!missing && !input.ouMismatch ==>
                  r.rule == BandRule(Sum(Outstandings(matched)), Received(rnd, input.credit, input.currency), tolerance))
            && r.rule in {R13, R14, R9a, R9b, R9c, R11} && r.reason == Reason(r.rule, true)
  {
    hide Shortfall, Sum, Outstandings, Received;
  }

  /**
   The whole cascade: for every row that evaluation answers, each rule id is given exactly under
   its condition, and the four amount rules exactly for undisputed rows with a number that
   resolves, a rate and no unit mismatch, where the comparison of money decides.
   */
  lemma RulesExactly(rnd: Rounding, aging: seq<AgingInvoice>, input: RuleInput, tolerance: real, fuzzyMin: real)
    ensures var e := EvaluateRow(rnd, aging, input, tolerance, fuzzyMin);
            var known, undisputed := input.customerPct >= fuzzyMin, Undisputed(aging, input);
            var priced := undisputed && HasNumbers(input) && !RateMissing(input.currency);
            e.Evaluated? ==>
              && EarlyExactly(aging, input, known, e.result.rule)
              && (e.result.rule == R8 <==>
                    undisputed && !HasNumbers(input)
                    && !(known && Numberless(input) && (input.ouMismatch || !input.remittance.found)))
              && (e.result.rule == R13 <==> undisputed && HasNumbers(input) && RateMissing(input.currency))
              && (e.result.rule == R14 <==> input.ouMismatch && (priced || (undisputed && known && Numberless(input))))
              && (e.result.rule in {R9a, R9b, R9c, R11} <==> priced && !input.ouMismatch)
              && (priced && !input.ouMismatch ==>
                    e.result.rule == BandRule(Sum(Outstandings(MatchedOf(aging, input))),
                                              Received(rnd, input.credit, input.currency), tolerance))
              && e.result.reason == Reason(e.result.rule, e.result.matched != [])
  {
    hide GateRule, AmountRule, SplitSpec, MatchedOf, BandRule, NoneOpen, Candidates, NothingResolves, Received, Sum, Outstandings, Reason;
    GateExactly(aging, input, fuzzyMin);
    GateForm(aging, input, fuzzyMin);
    CandidatesMeaning(aging, input);
    hide EarlyExactly;
    var received, ms := Received(rnd, input.credit, input.currency), MatchedOf(aging, input);
    if SplitSpec(rnd, received, ms).Split? {
      SplitKeepsOutstandings(rnd, received, ms);
      SplitKeepsInvoices(rnd, received, ms);
      AmountRuleExactly(rnd, SplitSpec(rnd, received, ms).invoices, input, tolerance);
      AmountRuleCarries(rnd, SplitSpec(rnd, received, ms).invoices, input, tolerance);
    }
    PlainReason();
  }

  lemma PlainReason()
    ensures Reason(R8, false) == "NO_SIGNAL"
  {
  }
}
