/**
 Money end to end: the references posted in step 2 against the Amount of the step 1
 receipt, through evaluator, transition and both payload builders.
 */
module Conservation {
  import opened Core
  import opened Rounding
  import opened AgingMap
  import opened Allocation
  import opened Evaluator
  import opened LineItem
  import opened PlainRows

  function Amounts(rs: seq<Reference>): seq<int> {
    seq(|rs|, i requires 0 <= i < |rs| => rs[i].amount)
  }

  /** What the zero-is-falsy fallback adds: the outstanding amounts of invoices whose share is zero. */
  function ZeroShareOutstanding(ms: seq<Matched>): int {
    if ms == [] then 0
    else (if StatedOrZero(ms[0]) == 0 then ms[0].outstanding else 0) + ZeroShareOutstanding(ms[1..])
  }

  lemma {:induction false} ReferencesSum(ms: seq<Matched>)
    ensures Sum(Amounts(MatchedReferences(ms))) == Sum(StatedAmounts(ms)) + ZeroShareOutstanding(ms)
  {
    if ms != [] {
      ReferencesSum(ms[1..]);
      assert Amounts(MatchedReferences(ms))[1..] == Amounts(MatchedReferences(ms[1..]));
      assert StatedAmounts(ms)[1..] == StatedAmounts(ms[1..]);
      assert Amounts(MatchedReferences(ms))[0] == ReferenceAmount(ms[0]);
    }
  }

  /** The row an analysis run leaves behind for one input, when evaluation does not raise. */
  function Processed(rnd: Rounding, aging: seq<AgingInvoice>, input: RuleInput, tolerance: real, fuzzyMin: real): Row
    requires EvaluateRow(rnd, aging, input, tolerance, fuzzyMin).Evaluated?
  {
    ApplyTransition(NewRow(input), EvaluateRow(rnd, aging, input, tolerance, fuzzyMin).result)
  }

  /** The remittance did not state every amount of a multi-invoice payment. */
  ghost predicate EngineSplits(aging: seq<AgingInvoice>, input: RuleInput) {
    var ms := MatchedOf(aging, input);
    |ms| == 1 || exists m :: m in ms && m.stated.None?
  }

  /** A row that carries amounts got its matched list from the split. */
  lemma MatchedComesFromSplit(rnd: Rounding, aging: seq<AgingInvoice>, input: RuleInput, tolerance: real, fuzzyMin: real)
    ensures var e := EvaluateRow(rnd, aging, input, tolerance, fuzzyMin);
            e.Evaluated? && e.result.matched != [] ==>
              Resolve(rnd, aging, input) == Split(e.result.matched)
  {
    hide GateRule, AmountRule, Resolve;
    GateForm(aging, input, fuzzyMin);
    ResolvedAllStated(rnd, aging, input);
    var resolution := Resolve(rnd, aging, input);
    if resolution.Split? && resolution.invoices != [] {
      AmountRuleForm(rnd, resolution.invoices, input, tolerance);
    }
  }

  /**
   For every automatically matched row whose split the engine computed, and no hand-entered
   breakup: the posted references add up to the receipt amount plus the outstanding of the
   zero shares.  So the two postings agree to the cent exactly when that surplus is zero.
   */
  lemma ReferencesAgainstReceipt(rnd: Rounding, aging: seq<AgingInvoice>, input: RuleInput,
                                 tolerance: real, fuzzyMin: real)
    ensures var e := EvaluateRow(rnd, aging, input, tolerance, fuzzyMin);
            e.Evaluated? && e.result.matched != [] && EngineSplits(aging, input) ==>
              var row := Processed(rnd, aging, input, tolerance, fuzzyMin);
              && row.matched != []
              && Sum(Amounts(References(row, []))) == ReceiptAmount(rnd, row) + ZeroShareOutstanding(row.matched)
  {
    hide EvaluateRow, SplitSpec, MatchedOf, Received, ZeroShareOutstanding, Sum, Amounts, MatchedReferences, StatedAmounts;
    var e := EvaluateRow(rnd, aging, input, tolerance, fuzzyMin);
    if e.Evaluated? && e.result.matched != [] && EngineSplits(aging, input) {
      MatchedComesFromSplit(rnd, aging, input, tolerance, fuzzyMin);
      var ms, received := MatchedOf(aging, input), Received(rnd, input.credit, input.currency);
      assert ms != [] by { SplitEmpty(rnd, received, ms); }
      SplitSumsExactly(rnd, received, ms);
      ReferencesSum(e.result.matched);
    }
  }

  lemma SplitEmpty(rnd: Rounding, received: int, ms: seq<Matched>)
    ensures SplitSpec(rnd, received, ms).Split? ==> (SplitSpec(rnd, received, ms).invoices == [] <==> ms == [])
  {
    hide Unstated, Divisible, Shares, StatedAmounts;
  }

  /** No zero share, no surplus; with positive outstandings, also the converse. */
  lemma {:induction false} NoZeroShareNoSurplus(ms: seq<Matched>)
    ensures (forall m | m in ms :: StatedOrZero(m) != 0) ==> ZeroShareOutstanding(ms) == 0
    ensures (forall m | m in ms :: m.outstanding > 0) ==>
              ZeroShareOutstanding(ms) >= 0
              && (ZeroShareOutstanding(ms) == 0 <==> forall m | m in ms :: StatedOrZero(m) != 0)
  {
    if ms != [] {
      NoZeroShareNoSurplus(ms[1..]);
      assert ms == [ms[0]] + ms[1..];
    }
  }

  /**
   The law itself, with its exact condition: on positive outstandings, the references of
   step 2 sum to the Amount of step 1 if and only if no invoice's share is zero.
   */
  lemma PostedReferencesEqualReceipt(rnd: Rounding, aging: seq<AgingInvoice>, input: RuleInput,
                                     tolerance: real, fuzzyMin: real)
    ensures var e := EvaluateRow(rnd, aging, input, tolerance, fuzzyMin);
            e.Evaluated? && e.result.matched != [] && EngineSplits(aging, input) ==>
              var row := Processed(rnd, aging, input, tolerance, fuzzyMin);
              && ((forall m | m in row.matched :: StatedOrZero(m) != 0) ==>
                    Sum(Amounts(References(row, []))) == ReceiptAmount(rnd, row))
              && ((forall m | m in row.matched :: m.outstanding > 0) ==>
                    (Sum(Amounts(References(row, []))) == ReceiptAmount(rnd, row)
                     <==> forall m | m in row.matched :: StatedOrZero(m) != 0))
  {
    hide EvaluateRow, ZeroShareOutstanding, Sum, Amounts, References, ReceiptAmount, EngineSplits;
    var e := EvaluateRow(rnd, aging, input, tolerance, fuzzyMin);
    if e.Evaluated? {
      ReferencesAgainstReceipt(rnd, aging, input, tolerance, fuzzyMin);
      NoZeroShareNoSurplus(Processed(rnd, aging, input, tolerance, fuzzyMin).matched);
    }
  }

  // ---- when a share can be zero --------------------------------------------------------------

  /** At least this part of the total came in. */
  predicate PartReceived(received: int, total: int, kept: real) { received as real >= kept * total as real }

  /** That part of what an invoice owes still exceeds n / 2 cents. */
  predicate OwesEnough(kept: real, o: int, n: nat) { kept * o as real > n as real / 2.0 }

  /** What is paid of one invoice, before rounding, is at least the part kept of the whole. */
  lemma PartPaid(received: int, o: int, total: int, kept: real)
    requires total > 0 && o > 0 && PartReceived(received, total, kept)
    ensures Exact(received, o, total) >= kept * o as real
  {
    var w := o as real / total as real;
    assert w > 0.0 && w * total as real == o as real;
    assert received as real * w >= kept * total as real * w;
    assert kept * total as real * w == kept * (w * total as real);
  }

  lemma MoreThanHalf(kept: real, o: int)
    requires kept > 0.5 && o >= 1
    ensures OwesEnough(kept, o, 1)
  {
    assert kept * o as real >= kept * 1.0;
  }

  predicate AllPositive(os: seq<int>) { forall i :: 0 <= i < |os| ==> os[i] > 0 }

  lemma {:induction false} PositiveSum(os: seq<int>)
    requires AllPositive(os) && os != []
    ensures Sum(os) > 0
  {
    if |os| > 1 { PositiveSum(os[1..]); }
  }

  /** A rounded share within n / 2 cents of its exact part is positive if that part exceeds n / 2 cents. */
  lemma SharePositive(share: int, received: int, o: int, total: int, kept: real, n: nat)
    requires total > 0 && o > 0 && PartReceived(received, total, kept) && OwesEnough(kept, o, n)
    requires share as real - Exact(received, o, total) >= -(n as real) / 2.0
    ensures share > 0
  {
    PartPaid(received, o, total, kept);
    hide Exact, PartReceived;
  }

  /** With more than half paid, no share but the last rounds to nothing, and the last only if it is small among many. */
  lemma SharesAreNotZero(rnd: Rounding, received: int, os: seq<int>, kept: real)
    requires |os| >= 2 && AllPositive(os) && Sum(os) > 0
    requires kept > 0.5 && PartReceived(received, Sum(os), kept)
    ensures var shares, n := Shares(rnd, received, os), |os| - 1;
            && (forall i :: 0 <= i < n ==> shares[i] > 0)
            && (OwesEnough(kept, os[n], n) ==> shares[n] > 0)
  {
    hide Shares, Exact, Sum, PartReceived, OwesEnough;
    var n := |os| - 1;
    SharesNearExact(rnd, received, os);
    LastShareNearExact(rnd, received, os);
    forall i | 0 <= i < n ensures Shares(rnd, received, os)[i] > 0 {
      MoreThanHalf(kept, os[i]);
      SharePositive(Shares(rnd, received, os)[i], received, os[i], Sum(os), kept, 1);
    }
    if OwesEnough(kept, os[n], n) {
      SharePositive(Shares(rnd, received, os)[n], received, os[n], Sum(os), kept, n);
    }
  }

  /** The last of at most two invoices, or a last one that owes enough. */
  predicate LastIsSafe(ms: seq<Matched>, kept: real) {
    ms != [] && (|ms| <= 2 || OwesEnough(kept, ms[|ms| - 1].outstanding, |ms| - 1))
  }

  /** No share is zero, except perhaps the last of three or more invoices that owes too little. */
  predicate NoZeroButLast(r: seq<Matched>, ms: seq<Matched>, kept: real) {
    && |r| == |ms| >= 1
    && (forall i :: 0 <= i < |ms| - 1 ==> StatedOrZero(r[i]) != 0)
    && (LastIsSafe(ms, kept) ==> StatedOrZero(r[|ms| - 1]) != 0)
  }

  lemma SplitLeavesNoZero(rnd: Rounding, received: int, ms: seq<Matched>, kept: real)
    requires ms != [] && forall m :: m in ms ==> m.stated.None? && m.outstanding > 0
    requires kept > 0.5 && PartReceived(received, Sum(Outstandings(ms)), kept)
    ensures SplitSpec(rnd, received, ms).Split?
    ensures NoZeroButLast(SplitSpec(rnd, received, ms).invoices, ms, kept)
  {
    var os := Outstandings(ms);
    hide *;
    PositiveOs(ms);
    PositiveSum(os);
    if |ms| == 1 {
      SplitOfOne(rnd, received, ms, kept);
    } else {
      ManyDivisible(os);
      SharesInOrder(rnd, received, ms);
      SharesAreNotZero(rnd, received, os, kept);
      NoZeroShares(SplitSpec(rnd, received, ms).invoices, ms, Shares(rnd, received, os), kept);
    }
  }

  lemma PositiveOs(ms: seq<Matched>)
    requires forall m :: m in ms ==> m.outstanding > 0
    ensures AllPositive(Outstandings(ms)) && |Outstandings(ms)| == |ms|
    ensures forall i :: 0 <= i < |ms| ==> Outstandings(ms)[i] == ms[i].outstanding
  {
    PositiveOutstandings(ms);
  }

  lemma SplitOfOne(rnd: Rounding, received: int, ms: seq<Matched>, kept: real)
    requires |ms| == 1 && ms[0].outstanding > 0 && kept > 0.5 && PartReceived(received, Sum(Outstandings(ms)), kept)
    ensures var r := SplitSpec(rnd, received, ms); r.Split? && NoZeroButLast(r.invoices, ms, kept)
  {
    var o := ms[0].outstanding;
    assert Outstandings(ms) == [o] && [o][1..] == [];
    assert Sum([o]) == o;
    assert received as real >= kept * o as real;
    MoreThanHalf(kept, o);
    hide Sum, Outstandings;
  }

  lemma NoZeroShares(r: seq<Matched>, ms: seq<Matched>, shares: seq<int>, kept: real)
    requires |r| == |ms| == |shares| >= 2 && forall i :: 0 <= i < |ms| ==> r[i].stated == Some(shares[i])
    requires forall i :: 0 <= i < |ms| - 1 ==> shares[i] > 0
    requires OwesEnough(kept, ms[|ms| - 1].outstanding, |ms| - 1) ==> shares[|ms| - 1] > 0
    requires kept > 0.5 && ms[|ms| - 1].outstanding > 0
    ensures NoZeroButLast(r, ms, kept)
  {
    MoreThanHalf(kept, ms[|ms| - 1].outstanding);
    hide OwesEnough;
  }

  /** The part of a target that must come in. */
  function Tolerated(tolerance: real): real { 1.0 - tolerance / 100.0 }

  lemma AcceptableMeansMoreThanHalf(target: int, received: int, tolerance: real)
    requires Acceptable(target, received, tolerance) && target > 0 && 0.0 <= tolerance < 50.0
    ensures Tolerated(tolerance) > 0.5 && PartReceived(received, target, Tolerated(tolerance))
  {
    var t := target as real;
    assert tolerance / 100.0 * t >= 0.0;
    assert (1.0 - tolerance / 100.0) * t == t - tolerance / 100.0 * t;
  }

  /** What the engine's side of the law asks: a postable row, nothing stated, every invoice still owed. */
  ghost predicate PlainlyPostable(rnd: Rounding, aging: seq<AgingInvoice>, input: RuleInput, tolerance: real, fuzzyMin: real) {
    var e := EvaluateRow(rnd, aging, input, tolerance, fuzzyMin);
    && 0.0 <= tolerance < 50.0 && Received(rnd, input.credit, input.currency) >= 0
    && e.Evaluated? && Postable(e.result.rule)
    && forall m :: m in MatchedOf(aging, input) ==> m.stated.None? && m.outstanding > 0
  }

  /**
   On such a row, with a tolerance below one half, only the last invoice can end up with a zero
   share, and not even that one if there are at most two, or if the part of what it owes that
   must come in exceeds (n - 1) / 2 cents.
   */
  lemma OnlySmallLastShareIsZero(rnd: Rounding, aging: seq<AgingInvoice>, input: RuleInput, tolerance: real, fuzzyMin: real)
    ensures PlainlyPostable(rnd, aging, input, tolerance, fuzzyMin) ==>
              NoZeroButLast(Processed(rnd, aging, input, tolerance, fuzzyMin).matched, MatchedOf(aging, input), Tolerated(tolerance))
  {
    hide EvaluateRow, SplitSpec, MatchedOf, Received, Sum, Outstandings, Acceptable, NoZeroButLast, Tolerated;
    if PlainlyPostable(rnd, aging, input, tolerance, fuzzyMin) {
      var ms, received := MatchedOf(aging, input), Received(rnd, input.credit, input.currency);
      PostableMeaning(rnd, aging, input, tolerance, fuzzyMin);
      EvaluateWellFormed(rnd, aging, input, tolerance, fuzzyMin);
      PostableHasInvoices(EvaluateRow(rnd, aging, input, tolerance, fuzzyMin).result);
      MatchedComesFromSplit(rnd, aging, input, tolerance, fuzzyMin);
      PositiveOs(ms);
      PositiveSum(Outstandings(ms));
      AcceptableMeansMoreThanHalf(Sum(Outstandings(ms)), received, tolerance);
      SplitLeavesNoZero(rnd, received, ms, Tolerated(tolerance));
    }
  }

  /**
   The law from the input side: a postable row with nothing stated and every invoice still owed
   posts references that sum exactly to its receipt, always for one or two invoices, and for
   more unless the last one owes next to nothing.
   */
  lemma PlainRowsConserve(rnd: Rounding, aging: seq<AgingInvoice>, input: RuleInput, tolerance: real, fuzzyMin: real)
    ensures PlainlyPostable(rnd, aging, input, tolerance, fuzzyMin) && LastIsSafe(MatchedOf(aging, input), Tolerated(tolerance)) ==>
              var row := Processed(rnd, aging, input, tolerance, fuzzyMin);
              Sum(Amounts(References(row, []))) == ReceiptAmount(rnd, row)
  {
    hide EvaluateRow, MatchedOf, Received, Sum, Amounts, References, ReceiptAmount, StatedOrZero, LastIsSafe, Tolerated;
    if PlainlyPostable(rnd, aging, input, tolerance, fuzzyMin) && LastIsSafe(MatchedOf(aging, input), Tolerated(tolerance)) {
      var ms, row := MatchedOf(aging, input), Processed(rnd, aging, input, tolerance, fuzzyMin);
      OnlySmallLastShareIsZero(rnd, aging, input, tolerance, fuzzyMin);
      assert ms[0] in ms;
      forall m | m in row.matched ensures StatedOrZero(m) != 0 {
        var i :| 0 <= i < |row.matched| && row.matched[i] == m;
      }
      PostedReferencesEqualReceipt(rnd, aging, input, tolerance, fuzzyMin);
    }
  }

  /** 6, 6 and 1 cents owed, 12 paid: the last share is zero under every rounding. */
  lemma TwelveOverThirteen(rnd: Rounding)
    ensures Sum([6, 6, 1]) == 13 && Shares(rnd, 12, [6, 6, 1]) == [6, 6, 0]
  {
    var os := [6, 6, 1];
    assert os[1..] == [6, 1] && [6, 1][1..] == [1] && [1][1..] == [];
    assert Sum([1]) == 1 && Sum([6, 1]) == 7 && Sum(os) == 13;
    ShareError(rnd, 12, 6, 13);
    var share := Share(rnd, 12, 6, 13);
    assert 13.0 * Exact(12, 6, 13) == 72.0 by {
      assert 6.0 / 13.0 * 13.0 == 6.0;
    }
    assert share == 6;
    hide Share;
    assert os[..2] == [6, 6];
    assert RoundedShares(rnd, 12, [6, 6], 13) == [6, 6];
    assert [6, 6][1..] == [6] && [6][1..] == [];
    assert Sum([6]) == 6 && Sum([6, 6]) == 12;
  }

  function ThirteenCents(): seq<AgingInvoice> {
    [OpenInvoice("1", 6), OpenInvoice("2", 6), OpenInvoice("3", 1)]
  }

  lemma ThirteenCentsNumbers()
    ensures PlainNumbers(ThirteenCents()) && NumbersOf(ThirteenCents()) == ["1", "2", "3"]
  {
    DigitNumbers(ThirteenCents());
    hide NumbersOf, PlainNumbers;
  }

  lemma ThirteenCentsMatch()
    ensures PlainNumbers(ThirteenCents()) && NumbersOf(ThirteenCents()) == ["1", "2", "3"]
    ensures var ms := PlainMatches(ThirteenCents()); Outstandings(ms) == [6, 6, 1] && forall m :: m in ms ==> m.stated.None?
  {
    var aging := ThirteenCents();
    ThirteenCentsNumbers();
    hide PlainMatches, PlainNumbers, NumbersOf;
    PlainMatchedAt(aging, 0);
    PlainMatchedAt(aging, 1);
    PlainMatchedAt(aging, 2);
  }

  predicate SixSixNothing(r: seq<Matched>) {
    && |r| == 3 && r[0].stated == Some(6) && r[1].stated == Some(6)
    && r[2].stated == Some(0) && r[2].outstanding == 1
  }

  lemma ThirteenCentsSplit(rnd: Rounding)
    ensures var r := SplitSpec(rnd, 12, PlainMatches(ThirteenCents())); r.Split? && SixSixNothing(r.invoices)
  {
    var ms := PlainMatches(ThirteenCents());
    ThirteenCentsMatch();
    TwelveOverThirteen(rnd);
    hide SplitSpec, PlainMatches, Shares;
    assert Outstandings(ms)[2] == ms[2].outstanding;
    SharesInOrder(rnd, 12, ms);
    SplitKeepsInvoices(rnd, 12, ms);
  }

  /**
   The failing case is real: three invoices owing 6, 6 and 1 cents, paid with 12.  The row is an
   acceptable short payment, its receipt is for 12 cents, and its references add up to 13.
   */
  lemma ZeroShareOverstatesReferences(rnd: Rounding, ou: string, fuzzyMin: real)
    ensures var input := PlainInput(12, ou, ["1", "2", "3"]);
            var e := EvaluateRow(rnd, ThirteenCents(), input, DEFAULT_TOLERANCE, fuzzyMin);
            && e.Evaluated? && e.result.rule == R9b
            && var row := Processed(rnd, ThirteenCents(), input, DEFAULT_TOLERANCE, fuzzyMin);
               ReceiptAmount(rnd, row) == 12 && Sum(Amounts(References(row, []))) == 13
  {
    hide *;
    ThirteenCentsMatch();
    ThirteenCentsSplit(rnd);
    TwelveOverThirteen(rnd);
    PlainRowEvaluates(rnd, ThirteenCents(), 12, ou, DEFAULT_TOLERANCE, fuzzyMin);
    TwelveIsAcceptable();
    ProcessedCarries(rnd, ThirteenCents(), PlainInput(12, ou, ["1", "2", "3"]), DEFAULT_TOLERANCE, fuzzyMin);
    SixSixOne(rnd, ou, EvaluateRow(rnd, ThirteenCents(), PlainInput(12, ou, ["1", "2", "3"]), DEFAULT_TOLERANCE, fuzzyMin).result);
  }

  lemma TwelveIsAcceptable()
    ensures BandRule(13, 12, DEFAULT_TOLERANCE) == R9b
  {
    BandMeaning(13, 12, DEFAULT_TOLERANCE);
  }

  lemma ProcessedCarries(rnd: Rounding, aging: seq<AgingInvoice>, input: RuleInput, tolerance: real, fuzzyMin: real)
    ensures var e := EvaluateRow(rnd, aging, input, tolerance, fuzzyMin);
            e.Evaluated? ==> Processed(rnd, aging, input, tolerance, fuzzyMin) == ApplyTransition(NewRow(input), e.result)
  {
    hide EvaluateRow;
  }

  lemma SixSixOne(rnd: Rounding, ou: string, result: RuleResult)
    requires SixSixNothing(result.matched)
    ensures var row := ApplyTransition(NewRow(PlainInput(12, ou, ["1", "2", "3"])), result);
            ReceiptAmount(rnd, row) == 12 && Sum(Amounts(References(row, []))) == 13
  {
    var row := ApplyTransition(NewRow(PlainInput(12, ou, ["1", "2", "3"])), result);
    assert Amounts(References(row, [])) == [6, 6, 1];
    TwelveOverThirteen(rnd);
  }

  /** A retry posts the very references the approval would have posted without a breakup. */
  lemma RetryRepostsTheSameReferences(row: Row)
    ensures References(row, MatchedReferences(row.matched)) == References(row, [])
  {
    if row.matched == [] {
      assert MatchedReferences(row.matched) == [];
    }
  }

  /** Approving a freshly classified row posts either nothing or its own references, and only if postable. */
  lemma ApproveFresh(input: RuleInput, result: RuleResult, receiptOk: bool, oracle: Oracle)
    ensures var row := ApplyTransition(NewRow(input), result);
            var effect := Approve(CreateReceipt(row, receiptOk), [], None, oracle);
            && (effect.gated <==> Postable(result.rule))
            && (effect.posted == [] || effect.posted == References(row, []))
  {
    hide MatchedReferences, AllAccepted;
  }

  /**
   The whole path on one object: persisted, currencies filled in, classified, receipt
   created, approved.  Money in equals money referenced.
   */
  method ReconcileAndApprove(rnd: Rounding, aging: seq<AgingInvoice>, input: RuleInput, tolerance: real,
                             fuzzyMin: real, receiptOk: bool, oracle: Oracle)
    returns (evaluation: Evaluation, receipt: int, posted: seq<Reference>, approved: bool)
    ensures evaluation == EvaluateRow(rnd, aging, input, tolerance, fuzzyMin)
    ensures approved <==> evaluation.Evaluated? && Postable(evaluation.result.rule)
    ensures approved && posted != [] && EngineSplits(aging, input) ==>
              Sum(Amounts(posted)) == receipt + ZeroShareOutstanding(evaluation.result.matched)
  {
    var item := new LineItem(input.credit, input.ou, input.extracted, input.customerPct, input.customerTextMatch);
    item.UpdateFx(input.currency);
    assert item.Value() == NewRow(input);
    receipt, posted, approved := 0, [], false;
    evaluation := EvaluateRow(rnd, aging, input, tolerance, fuzzyMin);
    hide EvaluateRow, Approve, CreateReceipt, References, Sum, Amounts, ZeroShareOutstanding, EngineSplits, WellFormed, Received;
    if evaluation.Evaluated? {
      item.ApplyRuleResult(evaluation.result);
      EvaluateWellFormed(rnd, aging, input, tolerance, fuzzyMin);
      if Postable(evaluation.result.rule) && EngineSplits(aging, input) {
        PostableHasInvoices(evaluation.result);
        ReferencesAgainstReceipt(rnd, aging, input, tolerance, fuzzyMin);
      }
      ApproveFresh(input, evaluation.result, receiptOk, oracle);
      receipt := item.PostReceipt(rnd, receiptOk);
      posted, approved := item.ApproveRow(rnd, [], None, oracle);
    }
  }

  lemma PostableHasInvoices(r: RuleResult)
    requires WellFormed(r) && Postable(r.rule)
    ensures r.matched != []
  {
  }
}
