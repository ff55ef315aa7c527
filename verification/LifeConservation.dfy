/**
 Money over whole lives: whatever happens to a row, every posting made of the engine's own
 split, rechecks and retries included, accounts for the receipt.
 */
module LifeConservation {
  import opened Core
  import opened Rounding
  import opened AgingMap
  import opened Allocation
  import opened Evaluator
  import opened LineItem
  import opened Conservation
  import opened Lifecycle

  /** The remittance did not state every amount of a multi-invoice match. */
  ghost predicate SplitOrNothing(aging: seq<AgingInvoice>, input: RuleInput) {
    MatchedOf(aging, input) == [] || EngineSplits(aging, input)
  }

  /** A row's invoices, unless chosen by hand, carry amounts that sum to its receipt. */
  ghost predicate Accounted(rnd: Rounding, row: Row) {
    row.matched != [] && !row.manuallyMapped ==> Sum(StatedAmounts(row.matched)) == ReceiptAmount(rnd, row)
  }

  /** The fields no operation of the lifecycle changes. */
  predicate SameCredit(row: Row, start: Row) {
    && row.credit == start.credit && row.currency == start.currency && row.ou == start.ou
    && row.extracted == start.extracted && row.customerPct == start.customerPct && row.hasCustomer == start.hasCustomer
  }

  lemma EvaluatedIsAccounted(rnd: Rounding, aging: seq<AgingInvoice>, input: RuleInput, tolerance: real, fuzzyMin: real, row: Row)
    requires row.credit == input.credit && row.currency == input.currency && SplitOrNothing(aging, input)
    ensures var e := EvaluateRow(rnd, aging, input, tolerance, fuzzyMin);
            e.Evaluated? ==> Accounted(rnd, ApplyTransition(row, e.result))
  {
    hide EvaluateRow, SplitSpec, MatchedOf, Received, Sum, StatedAmounts;
    var e := EvaluateRow(rnd, aging, input, tolerance, fuzzyMin);
    if e.Evaluated? && e.result.matched != [] {
      MatchedComesFromSplit(rnd, aging, input, tolerance, fuzzyMin);
      var ms, received := MatchedOf(aging, input), Received(rnd, input.credit, input.currency);
      SplitEmpty(rnd, received, ms);
      SplitSumsExactly(rnd, received, ms);
    }
  }

  /** Rechecks re-evaluate the row's unchanging fields against a new remittance. */
  ghost predicate EventSplits(start: Row, e: Event) {
    e.RecheckEvent? ==> SplitOrNothing(e.recheckAging, RecheckInput(start, e.remittance, e.ouMismatch))
  }

  lemma RecheckIsAccounted(rnd: Rounding, row: Row, start: Row, aging: seq<AgingInvoice>, remittance: Remittance, ouMismatch: bool)
    requires Accounted(rnd, row) && SameCredit(row, start)
    requires SplitOrNothing(aging, RecheckInput(start, remittance, ouMismatch))
    ensures Accounted(rnd, RecheckedRow(rnd, row, aging, remittance, ouMismatch))
  {
    hide EvaluateRow, Accounted, SplitOrNothing;
    assert RecheckInput(row, remittance, ouMismatch) == RecheckInput(start, remittance, ouMismatch);
    EvaluatedIsAccounted(rnd, aging, RecheckInput(row, remittance, ouMismatch), DEFAULT_TOLERANCE, DEFAULT_FUZZY_MIN, row);
  }

  lemma StepStaysAccounted(rnd: Rounding, row: Row, start: Row, e: Event)
    requires Accounted(rnd, row) && SameCredit(row, start) && EventSplits(start, e)
    ensures var after := Step(rnd, row, e).row; Accounted(rnd, after) && SameCredit(after, start)
  {
    hide MapInvoices, RecheckedRow, Confirm, Sum, StatedAmounts, SplitOrNothing, Received;
    match e
    case RecheckEvent(aging, remittance, ouMismatch) =>
      RecheckKeeps(rnd, row, aging, remittance, ouMismatch);
      RecheckIsAccounted(rnd, row, start, aging, remittance, ouMismatch);
    case ConfirmEvent(aging, numbers) => ConfirmKeeps(rnd, row, aging, numbers);
    case ApproveEvent(breakup, expected, oracle) => MapInvoicesSets(row.(hitl := Some(Approved)), breakup, oracle);
    case RetryEvent(oracle) => MapInvoicesSets(row, MatchedReferences(row.matched), oracle);
    case _ =>
  }

  lemma {:induction false} LifeStaysAccounted(rnd: Rounding, start: Row, events: seq<Event>)
    requires Accounted(rnd, start) && forall e :: e in events ==> EventSplits(start, e)
    ensures var row := Live(rnd, start, events).row; Accounted(rnd, row) && SameCredit(row, start)
  {
    hide Step, Accounted, SameCredit, EventSplits;
    if events == [] {
      SameAsItself(start);
    } else {
      var init, e := events[..|events| - 1], events[|events| - 1];
      assert e in events && forall x :: x in init ==> x in events;
      LifeStaysAccounted(rnd, start, init);
      StepStaysAccounted(rnd, Live(rnd, start, init).row, start, e);
    }
  }

  lemma SameAsItself(row: Row)
    ensures SameCredit(row, row)
  {
  }

  /** Not an approval with a hand-entered breakup. */
  predicate BreakupFree(e: Event) { e.ApproveEvent? ==> e.breakup == [] }

  lemma PostingAccounts(rnd: Rounding, row: Row, e: Event)
    requires Accounted(rnd, row) && !row.manuallyMapped && BreakupFree(e) && Step(rnd, row, e).posted != []
    ensures Sum(Conservation.Amounts(Step(rnd, row, e).posted)) == ReceiptAmount(rnd, row) + ZeroShareOutstanding(row.matched)
  {
    hide MapInvoices, RecheckedRow, Confirm, Sum, Conservation.Amounts, StatedAmounts, Received, ZeroShareOutstanding, MatchedReferences;
    PostingNeedsApproval(rnd, row, e);
    ReferencesSum(row.matched);
    if e.ApproveEvent? {
      MapInvoicesSets(row.(hitl := Some(Approved)), e.breakup, e.approveOracle);
    } else {
      MapInvoicesSets(row, MatchedReferences(row.matched), e.retryOracle);
      RetryRepostsTheSameReferences(row);
    }
  }

  /** A row that holds what the engine answered, whatever else was stored with it. */
  predicate Holds(start: Row, input: RuleInput, result: RuleResult) {
    start.credit == input.credit && start.currency == input.currency && start.rule == Some(result.rule) && start.matched == result.matched
  }

  /**
   For every life of a row the engine classified and split, with any mix of receipts, rechecks,
   approvals, rejections and retries: as long as the row is not mapped by hand, every posting
   without a hand-entered breakup sums to the receipt plus the outstanding of zero shares.
   */
  lemma LivesConserve(rnd: Rounding, aging: seq<AgingInvoice>, input: RuleInput, tolerance: real, fuzzyMin: real,
                      start: Row, events: seq<Event>, e: Event)
    ensures var evaluation := EvaluateRow(rnd, aging, input, tolerance, fuzzyMin);
            evaluation.Evaluated? && SplitOrNothing(aging, input) && Holds(start, input, evaluation.result) ==>
              var row := Live(rnd, start, events).row;
              (forall x :: x in events ==> EventSplits(start, x)) && !row.manuallyMapped && BreakupFree(e)
              && Step(rnd, row, e).posted != [] ==>
                Sum(Conservation.Amounts(Step(rnd, row, e).posted)) == ReceiptAmount(rnd, start) + ZeroShareOutstanding(row.matched)
  {
    hide EvaluateRow, Step, Live, Sum, Conservation.Amounts, ZeroShareOutstanding, Accounted, SplitOrNothing, EventSplits, Received, BreakupFree;
    var evaluation := EvaluateRow(rnd, aging, input, tolerance, fuzzyMin);
    if evaluation.Evaluated? && SplitOrNothing(aging, input) && Holds(start, input, evaluation.result) {
      var row := Live(rnd, start, events).row;
      if (forall x :: x in events ==> EventSplits(start, x)) && !row.manuallyMapped && BreakupFree(e)
         && Step(rnd, row, e).posted != [] {
        EvaluatedIsAccounted(rnd, aging, input, tolerance, fuzzyMin, start);
        HoldsIsAccounted(rnd, input, evaluation.result, start);
        LifeStaysAccounted(rnd, start, events);
        PostingAccounts(rnd, row, e);
      }
    }
  }

  lemma HoldsIsAccounted(rnd: Rounding, input: RuleInput, result: RuleResult, start: Row)
    requires Holds(start, input, result)
    ensures Accounted(rnd, start) <==> Accounted(rnd, ApplyTransition(start, result))
  {
    hide Sum, StatedAmounts, Received;
  }
}
