/**
 Whole lives of line items: any sequence of committed operations on one row, and any
 sequence of operations and recheck sweeps on all of them.
 */
module Lifecycle {
  import opened Core
  import opened Rounding
  import opened AgingMap
  import opened Allocation
  import opened Evaluator
  import opened ManualMapping
  import opened LineItem
  import opened PlainRows

  /** One committed operation on a row, with everything its outcome depends on. */
  datatype Event =
    | ReceiptEvent(ok: bool)
    | RecheckEvent(recheckAging: seq<AgingInvoice>, remittance: Remittance, ouMismatch: bool)
    | ConfirmEvent(confirmAging: seq<AgingInvoice>, numbers: seq<string>)
    | ApproveEvent(breakup: seq<Reference>, approveExpected: Option<nat>, approveOracle: Oracle)
    | RejectEvent(rejectExpected: Option<nat>)
    | RetryEvent(retryOracle: Oracle)

  function Step(rnd: Rounding, row: Row, e: Event): Effect {
    match e
    case ReceiptEvent(ok) => Effect(CreateReceipt(row, ok), [], false)
    case RecheckEvent(aging, remittance, ouMismatch) =>
      Effect(RecheckedRow(rnd, row, aging, remittance, ouMismatch), [], false)
    case ConfirmEvent(aging, numbers) => Effect(Confirm(rnd, row, aging, numbers), [], false)
    case ApproveEvent(breakup, expected, oracle) => Approve(row, breakup, expected, oracle)
    case RejectEvent(expected) => Effect(Reject(row, expected), [], false)
    case RetryEvent(oracle) => Retry(row, oracle)
  }

  /** The row after a whole run of events, the number of passed approval gates, and everything posted. */
  datatype Life = Life(row: Row, gates: nat, posts: seq<Reference>)

  function Live(rnd: Rounding, start: Row, events: seq<Event>): Life {
    if events == [] then Life(start, 0, [])
    else
      var before := Live(rnd, start, events[..|events| - 1]);
      var effect := Step(rnd, before.row, events[|events| - 1]);
      Life(effect.row, before.gates + (if effect.gated then 1 else 0), before.posts + effect.posted)
  }

  /** A row as an analysis run commits it. */
  predicate Fresh(row: Row) {
    && row.hitl.None? && !row.manuallyMapped && row.reference.None? && row.version == 0
    && (RowPostable(row) ==> row.matched != [])
  }

  predicate RowPostable(row: Row) {
    row.rule.Some? && Postable(row.rule.value)
  }

  /** Just persisted: nothing decided, mapped or posted, whatever was stored about its customer. */
  predicate Unhandled(row: Row) {
    row.hitl.None? && !row.manuallyMapped && row.reference.None? && row.version == 0 && row.rule.None? && row.matched == []
  }

  /**
   Every row a run may commit is fresh: classified by the engine whatever else was stored, set to
   R8 as an unknown payment, or flushed and committed by the error path before its evaluation finished.
   */
  lemma EngineRowsAreFresh(rnd: Rounding, aging: seq<AgingInvoice>, input: RuleInput, tolerance: real, fuzzyMin: real, persisted: Row)
    requires Unhandled(persisted)
    ensures var e := EvaluateRow(rnd, aging, input, tolerance, fuzzyMin);
            e.Evaluated? ==> Fresh(ApplyTransition(persisted, e.result))
    ensures var unknown := ApplyTransition(persisted, Plain(R8, "NO_SIGNAL", Unidentified));
            Fresh(unknown) && CategoryOf(unknown) == GroupUnidentified
    ensures Fresh(persisted) && CategoryOf(persisted) == GroupConflict
    ensures Unhandled(NewRow(input))
  {
    hide EvaluateRow;
    EvaluateWellFormed(rnd, aging, input, tolerance, fuzzyMin);
  }

  // ---- safety of one row ------------------------------------------------------------------

  /** Relates a row to the number of approval gates it has passed. */
  predicate Safe(row: Row, gates: nat) {
    && gates <= 1
    && (gates == 1 <==> row.reference.Some?)
    && (row.reference.Some? ==> RowPostable(row))
    && (RowPostable(row) ==> row.matched != [])
  }

  lemma MapInvoicesSets(row: Row, breakup: seq<Reference>, oracle: Oracle)
    ensures var (mapped, posted) := MapInvoices(row, breakup, oracle);
            && mapped.reference.Some?
            && mapped == row.(receipt := mapped.receipt, reference := mapped.reference)
            && (posted == [] || posted == References(row, breakup))
            && (mapped.reference == Some(Success) ==> posted == References(row, breakup))
  {
    hide MatchedReferences, AllAccepted;
  }

  lemma RecheckKeeps(rnd: Rounding, row: Row, aging: seq<AgingInvoice>, remittance: Remittance, ouMismatch: bool)
    ensures var after := RecheckedRow(rnd, row, aging, remittance, ouMismatch);
            && after == row.(rule := after.rule, matched := after.matched, state := after.state)
            && (after != row ==> row.rule == Some(R7) && row.hitl.None? && !row.manuallyMapped && after.rule != Some(R7))
            && (after != row && RowPostable(after) ==> after.matched != [])
            && (after.rule == Some(R7) ==> row.rule == Some(R7))
  {
    hide EvaluateRow;
    EvaluateWellFormed(rnd, aging, RecheckInput(row, remittance, ouMismatch), DEFAULT_TOLERANCE, DEFAULT_FUZZY_MIN);
  }

  lemma ConfirmKeeps(rnd: Rounding, row: Row, aging: seq<AgingInvoice>, numbers: seq<string>)
    ensures var after := Confirm(rnd, row, aging, numbers);
            && after == row.(rule := after.rule, matched := after.matched, state := after.state,
                             manuallyMapped := after.manuallyMapped)
            && (after != row ==> RowPostable(after) && after.matched != [] && after.manuallyMapped)
  {
    SelectInvoicesMeaning(aging, numbers, row.ou);
    hide SelectInvoices, ManualBand, OneCustomer, TotalOutstanding, RoundedShortfall, Received;
  }

  /** The gate admits only postable rows without a mapping outcome. */
  lemma GateMeaning(row: Row)
    ensures CategoryOf(row) == GroupReadyForOracle
            <==> row.reference.None? && row.hitl != Some(Rejected) && RowPostable(row)
  {
    if row.reference.Some? {
      assert row.reference.value == Success || row.reference.value == Failed;
    }
    if row.rule.Some? {
      match row.rule.value case R9a => case R9b => case _ =>
    }
  }

  lemma StepSafe(rnd: Rounding, row: Row, e: Event, gates: nat)
    requires Safe(row, gates)
    ensures var effect := Step(rnd, row, e);
            Safe(effect.row, gates + if effect.gated then 1 else 0)
  {
    hide MapInvoices, RecheckedRow, Confirm;
    match e
    case RecheckEvent(aging, remittance, ouMismatch) => RecheckKeeps(rnd, row, aging, remittance, ouMismatch);
    case ConfirmEvent(aging, numbers) => ConfirmKeeps(rnd, row, aging, numbers);
    case ApproveEvent(breakup, expected, oracle) =>
      GateMeaning(row);
      MapInvoicesSets(row.(hitl := Some(Approved)), breakup, oracle);
    case RetryEvent(oracle) => MapInvoicesSets(row, MatchedReferences(row.matched), oracle);
    case _ =>
  }

  /**
   After every run of events from a fresh row: the approval gate was passed at most once;
   an invoice-mapping outcome exists exactly when it was passed; and such a row carries
   rule R9a or R9b and at least one matched invoice.
   */
  lemma {:induction false} LifeSafe(rnd: Rounding, start: Row, events: seq<Event>)
    requires Fresh(start)
    ensures var life := Live(rnd, start, events); Safe(life.row, life.gates)
  {
    if events != [] {
      var init := events[..|events| - 1];
      LifeSafe(rnd, start, init);
      StepSafe(rnd, Live(rnd, start, init).row, events[|events| - 1], Live(rnd, start, init).gates);
    }
  }

  /** An operation posts references only through an open gate, or as the retry of a failed mapping. */
  lemma PostingNeedsApproval(rnd: Rounding, row: Row, e: Event)
    requires Step(rnd, row, e).posted != []
    ensures (e.ApproveEvent? && CategoryOf(row) == GroupReadyForOracle)
         || (e.RetryEvent? && row.reference == Some(Failed))
  {
    hide MapInvoices, RecheckedRow, Confirm;
  }

  /** No reference is ever posted in a life that never passed the approval gate. */
  lemma {:induction false} PostsOnlyAfterGate(rnd: Rounding, start: Row, events: seq<Event>)
    requires Fresh(start)
    ensures Live(rnd, start, events).posts != [] ==> Live(rnd, start, events).gates == 1
  {
    if events != [] {
      var init, e := events[..|events| - 1], events[|events| - 1];
      PostsOnlyAfterGate(rnd, start, init);
      LifeSafe(rnd, start, init);
      LifeSafe(rnd, start, events);
      if Step(rnd, Live(rnd, start, init).row, e).posted != [] {
        hide MapInvoices, RecheckedRow, Confirm, Live;
        PostingNeedsApproval(rnd, Live(rnd, start, init).row, e);
        StepKeepsOutcome(rnd, Live(rnd, start, init).row, e);
      }
    }
  }

  /** An existing mapping outcome never disappears, success is never undone, and a posting step leaves an outcome. */
  lemma StepKeepsOutcome(rnd: Rounding, row: Row, e: Event)
    ensures var effect := Step(rnd, row, e);
            && (row.reference.Some? ==> effect.row.reference.Some?)
            && (row.reference == Some(Success) ==> effect.row.reference == Some(Success) && effect.posted == [] && !effect.gated)
            && (effect.posted != [] ==> effect.row.reference.Some? && (effect.gated || row.reference.Some?))
  {
    hide MapInvoices, RecheckedRow, Confirm;
    match e
    case RecheckEvent(aging, remittance, ouMismatch) => RecheckKeeps(rnd, row, aging, remittance, ouMismatch);
    case ConfirmEvent(aging, numbers) => ConfirmKeeps(rnd, row, aging, numbers);
    case ApproveEvent(breakup, expected, oracle) => MapInvoicesSets(row.(hitl := Some(Approved)), breakup, oracle);
    case RetryEvent(oracle) => MapInvoicesSets(row, MatchedReferences(row.matched), oracle);
    case _ =>
  }

  /** Once invoice mapping has succeeded, nothing that can happen posts again or leaves the category Processed. */
  lemma {:induction false} SuccessIsFinal(rnd: Rounding, row: Row, events: seq<Event>)
    requires row.reference == Some(Success)
    ensures var life := Live(rnd, row, events);
            life.row.reference == Some(Success) && CategoryOf(life.row) == GroupProcessed
            && life.posts == [] && life.gates == 0
  {
    if events != [] {
      var init := events[..|events| - 1];
      SuccessIsFinal(rnd, row, init);
      StepKeepsOutcome(rnd, Live(rnd, row, init).row, events[|events| - 1]);
    }
  }

  // ---- optimistic locking -------------------------------------------------------------------

  predicate Decides(rnd: Rounding, row: Row, e: Event) {
    (e.ApproveEvent? && Step(rnd, row, e).gated) || (e.RejectEvent? && VersionAccepted(row, e.rejectExpected))
  }

  /** Approvals and rejections that took effect during a run. */
  function Decisions(rnd: Rounding, start: Row, events: seq<Event>): nat {
    if events == [] then 0
    else
      var init, e := events[..|events| - 1], events[|events| - 1];
      Decisions(rnd, start, init) + if Decides(rnd, Live(rnd, start, init).row, e) then 1 else 0
  }

  lemma StepVersion(rnd: Rounding, row: Row, e: Event)
    ensures Step(rnd, row, e).row.version == row.version + if Decides(rnd, row, e) then 1 else 0
  {
    hide MapInvoices, RecheckedRow, Confirm;
    match e
    case RecheckEvent(aging, remittance, ouMismatch) => RecheckKeeps(rnd, row, aging, remittance, ouMismatch);
    case ConfirmEvent(aging, numbers) => ConfirmKeeps(rnd, row, aging, numbers);
    case ApproveEvent(breakup, expected, oracle) => MapInvoicesSets(row.(hitl := Some(Approved)), breakup, oracle);
    case RetryEvent(oracle) => MapInvoicesSets(row, MatchedReferences(row.matched), oracle);
    case _ =>
  }

  /** The version counts committed decisions and nothing else. */
  lemma {:induction false} VersionCountsDecisions(rnd: Rounding, start: Row, events: seq<Event>)
    ensures Live(rnd, start, events).row.version == start.version + Decisions(rnd, start, events)
  {
    if events != [] {
      var init := events[..|events| - 1];
      VersionCountsDecisions(rnd, start, init);
      StepVersion(rnd, Live(rnd, start, init).row, events[|events| - 1]);
      hide Step, Decides;
    }
  }

  /**
   A decision carrying the version its author saw is turned away exactly when some
   approval or rejection was committed in between.  Manual mappings, rechecks and retries
   in between are not noticed.
   */
  lemma StaleDecisionDetectedExactly(rnd: Rounding, seen: Row, events: seq<Event>)
    ensures VersionAccepted(Live(rnd, seen, events).row, Some(seen.version)) <==> Decisions(rnd, seen, events) == 0
  {
    VersionCountsDecisions(rnd, seen, events);
  }

  /**
   What goes unnoticed: a row ready for approval is mapped by hand to another selection after its
   approver looked at it.  The approval, carrying the version seen, passes the gate and posts
   references to that other selection.
   */
  lemma StaleApprovalPostsTheNewMapping(rnd: Rounding, seen: Row, aging: seq<AgingInvoice>, numbers: seq<string>, oracle: Oracle)
    ensures var p := PreviewMapping(rnd, aging, seen.ou, Received(rnd, seen.credit, seen.currency), numbers);
            var life := Live(rnd, seen, [ConfirmEvent(aging, numbers), ApproveEvent([], Some(seen.version), oracle)]);
            CategoryOf(seen) == GroupReadyForOracle && (seen.receipt == Some(Success) || oracle.receiptOk)
            && p.Preview? && Postable(p.rule) ==>
              life.gates == 1 && life.posts == MatchedReferences(ManualMatches(p.selected)) && life.row.hitl == Some(Approved)
  {
    hide *;
    var p := PreviewMapping(rnd, aging, seen.ou, Received(rnd, seen.credit, seen.currency), numbers);
    if CategoryOf(seen) == GroupReadyForOracle && (seen.receipt == Some(Success) || oracle.receiptOk)
       && p.Preview? && Postable(p.rule) {
      var confirm, approve := ConfirmEvent(aging, numbers), ApproveEvent([], Some(seen.version), oracle);
      LiveTwo(rnd, seen, confirm, approve);
      ConfirmRewrites(rnd, seen, aging, numbers);
      ApprovePosts(rnd, Step(rnd, seen, confirm).row, seen.version, oracle);
    }
  }

  lemma ConfirmRewrites(rnd: Rounding, seen: Row, aging: seq<AgingInvoice>, numbers: seq<string>)
    requires CategoryOf(seen) == GroupReadyForOracle
    requires var p := PreviewMapping(rnd, aging, seen.ou, Received(rnd, seen.credit, seen.currency), numbers);
             p.Preview? && Postable(p.rule)
    ensures var p := PreviewMapping(rnd, aging, seen.ou, Received(rnd, seen.credit, seen.currency), numbers);
            var effect := Step(rnd, seen, ConfirmEvent(aging, numbers));
            && effect.posted == [] && !effect.gated
            && CategoryOf(effect.row) == GroupReadyForOracle && effect.row.matched == ManualMatches(p.selected)
            && effect.row.version == seen.version && effect.row.receipt == seen.receipt
  {
    hide PreviewMapping, Received, ManualMatches, CategoryOf;
    GateMeaning(seen);
    GateMeaning(Confirm(rnd, seen, aging, numbers));
  }

  lemma ApprovePosts(rnd: Rounding, row: Row, version: nat, oracle: Oracle)
    requires CategoryOf(row) == GroupReadyForOracle && row.version == version
    requires row.receipt == Some(Success) || oracle.receiptOk
    ensures var effect := Step(rnd, row, ApproveEvent([], Some(version), oracle));
            effect.gated && effect.posted == MatchedReferences(row.matched) && effect.row.hitl == Some(Approved)
  {
    hide CategoryOf, MatchedReferences, AllAccepted;
  }

  lemma LiveTwo(rnd: Rounding, start: Row, first: Event, second: Event)
    ensures var one := Step(rnd, start, first);
            var two := Step(rnd, one.row, second);
            Live(rnd, start, [first, second])
            == Life(two.row, (if one.gated then 1 else 0) + (if two.gated then 1 else 0), one.posted + two.posted)
  {
    hide Step;
    assert [first, second][..1] == [first] && [first][..0] == [];
    assert Live(rnd, start, []) == Life(start, 0, []);
    assert Live(rnd, start, [first]) == Life(Step(rnd, start, first).row, if Step(rnd, start, first).gated then 1 else 0, Step(rnd, start, first).posted);
  }

  /**
   Such a life from the start: the engine matches a credit exactly to invoice 1, an approver sees
   that, the row is mapped to invoice 2 of the same amount, and the approval posts to invoice 2.
   */
  lemma ApproverNeverSawInvoiceTwo(rnd: Rounding, amount: int, ou: string, tolerance: real, fuzzyMin: real, refused: set<nat>)
    requires amount > 0 && 0.0 <= tolerance < 100.0
    ensures var input := PlainInput(amount, ou, ["1"]);
            var e := EvaluateRow(rnd, [OpenInvoice("1", amount)], input, tolerance, fuzzyMin);
            && e.Evaluated? && e.result.rule == R9a
            && var seen := ApplyTransition(NewRow(input), e.result);
               var life := Live(rnd, seen, [ConfirmEvent([OpenInvoice("2", amount)], ["2"]),
                                            ApproveEvent([], Some(seen.version), Oracle(true, refused))]);
               && References(seen, []) == [Reference("1", amount)]
               && life.gates == 1 && life.posts == [Reference("2", amount)]
  {
    hide *;
    OneInvoiceRow(rnd, amount, ou, tolerance, fuzzyMin);
    var input := PlainInput(amount, ou, ["1"]);
    var e := EvaluateRow(rnd, [OpenInvoice("1", amount)], input, tolerance, fuzzyMin);
    var seen := ApplyTransition(NewRow(input), e.result);
    SeenRow(rnd, input, e.result);
    OneInvoicePreview(rnd, amount, ou);
    PlainCredit(rnd, amount, ou);
    StaleApprovalPostsTheNewMapping(rnd, seen, [OpenInvoice("2", amount)], ["2"], Oracle(true, refused));
  }

  lemma PlainCredit(rnd: Rounding, amount: int, ou: string)
    ensures var input := PlainInput(amount, ou, ["1"]);
            input.ou == ou && input.extracted == ["1"] && Received(rnd, input.credit, input.currency) == amount
  {
  }

  lemma SeenRow(rnd: Rounding, input: RuleInput, result: RuleResult)
    ensures var seen := ApplyTransition(NewRow(input), result);
            && seen.ou == input.ou && seen.credit == input.credit && seen.currency == input.currency && seen.version == 0
            && (result.rule == R9a ==> CategoryOf(seen) == GroupReadyForOracle)
            && References(seen, []) == MatchedReferences(result.matched)
  {
    hide MatchedReferences;
  }

  lemma OneInvoiceRow(rnd: Rounding, amount: int, ou: string, tolerance: real, fuzzyMin: real)
    requires amount > 0 && 0.0 <= tolerance < 100.0
    ensures var e := EvaluateRow(rnd, [OpenInvoice("1", amount)], PlainInput(amount, ou, ["1"]), tolerance, fuzzyMin);
            && e.Evaluated? && e.result.rule == R9a && MatchedReferences(e.result.matched) == [Reference("1", amount)]
  {
    hide *;
    var rows := [OpenInvoice("1", amount)];
    OneNumber("1", amount);
    OneMatch(rnd, "1", amount);
    PaidInFull(amount, tolerance);
    PlainRowEvaluates(rnd, rows, amount, ou, tolerance, fuzzyMin);
  }

  lemma OneNumber(number: string, amount: int)
    requires number == "1" || number == "2"
    ensures PlainNumbers([OpenInvoice(number, amount)]) && NumbersOf([OpenInvoice(number, amount)]) == [number]
  {
    DigitNumbers([OpenInvoice(number, amount)]);
    hide PlainNumbers;
  }

  lemma OneMatch(rnd: Rounding, number: string, amount: int)
    ensures var ms := PlainMatches([OpenInvoice(number, amount)]);
            var r := SplitSpec(rnd, amount, ms);
            && Sum(Outstandings(ms)) == amount && r.Split? && MatchedReferences(r.invoices) == [Reference(number, amount)]
  {
    var rows := [OpenInvoice(number, amount)];
    PlainMatchedAt(rows, 0);
    var ms := PlainMatches(rows);
    assert Outstandings(ms) == [amount] && [amount][1..] == [];
    assert ms[0].number == number;
    assert SplitSpec(rnd, amount, ms).invoices == [ms[0].(stated := Some(amount))];
    hide PlainMatches, SplitSpec;
  }

  lemma PaidInFull(amount: int, tolerance: real)
    requires amount > 0 && 0.0 <= tolerance < 100.0
    ensures BandRule(amount, amount, tolerance) == R9a
  {
    BandMeaning(amount, amount, tolerance);
  }

  lemma OneInvoicePreview(rnd: Rounding, amount: int, ou: string)
    requires amount > 0
    ensures var p := PreviewMapping(rnd, [OpenInvoice("2", amount)], ou, amount, ["2"]);
            p.Preview? && Postable(p.rule) && MatchedReferences(ManualMatches(p.selected)) == [Reference("2", amount)]
  {
    hide *;
    var rows := [OpenInvoice("2", amount)];
    OneNumber("2", amount);
    FoundAlone(rows, "2", amount, ou);
    SelectOne(rows, "2", ou);
    PreviewInFull(rnd, rows, ou, "2", amount);
  }

  lemma FoundAlone(rows: seq<AgingInvoice>, number: string, amount: int, ou: string)
    requires rows == [OpenInvoice(number, amount)] && PlainNumbers(rows)
    ensures Lookup(rows, number, ou) == Some(OpenInvoice(number, amount))
  {
    hide Lookup, PlainNumbers;
    PlainLookup(rows, 0, ou);
  }

  lemma PreviewInFull(rnd: Rounding, aging: seq<AgingInvoice>, ou: string, number: string, amount: int)
    requires SelectInvoices(aging, [number], ou) == Some([OpenInvoice(number, amount)]) && amount > 0
    ensures var p := PreviewMapping(rnd, aging, ou, amount, [number]);
            p.Preview? && Postable(p.rule) && MatchedReferences(ManualMatches(p.selected)) == [Reference(number, amount)]
  {
    hide SelectInvoices;
    var selected := [OpenInvoice(number, amount)];
    assert selected[..0] == [] && TotalOutstanding(selected) == amount;
    assert Shortfall(amount, amount) == 0.0;
    RoundWhole(rnd, 0);
    hide TotalOutstanding, Shortfall;
  }

  lemma SelectOne(aging: seq<AgingInvoice>, number: string, ou: string)
    requires Lookup(aging, number, ou).Some?
    ensures SelectInvoices(aging, [number], ou) == Some([Lookup(aging, number, ou).value])
  {
    hide Lookup;
    assert [number][..0] == [] && SelectInvoices(aging, [], ou) == Some([]);
    assert [] + [Lookup(aging, number, ou).value] == [Lookup(aging, number, ou).value];
  }

  // ---- recheck progress ----------------------------------------------------------------------

  predicate RecheckChanges(rnd: Rounding, row: Row, e: Event) {
    e.RecheckEvent? && RecheckRow(rnd, row, e.recheckAging, e.remittance, e.ouMismatch).Changed?
  }

  /** A recheck changes only a waiting row and moves it out of R7; no operation moves a row into R7. */
  lemma StepLeavesR7(rnd: Rounding, row: Row, e: Event)
    ensures RecheckChanges(rnd, row, e) ==>
              row.rule == Some(R7) && row.hitl.None? && !row.manuallyMapped && Step(rnd, row, e).row.rule != Some(R7)
    ensures Step(rnd, row, e).row.rule == Some(R7) ==> row.rule == Some(R7)
  {
    hide MapInvoices, EvaluateRow, Confirm;
    match e
    case ConfirmEvent(aging, numbers) => ConfirmKeeps(rnd, row, aging, numbers);
    case ApproveEvent(breakup, expected, oracle) => MapInvoicesSets(row.(hitl := Some(Approved)), breakup, oracle);
    case RetryEvent(oracle) => MapInvoicesSets(row, MatchedReferences(row.matched), oracle);
    case _ =>
  }

  function ChangesIn(rnd: Rounding, start: Row, events: seq<Event>): nat {
    if events == [] then 0
    else
      var before := Live(rnd, start, events[..|events| - 1]).row;
      ChangesIn(rnd, start, events[..|events| - 1]) + (if RecheckChanges(rnd, before, events[|events| - 1]) then 1 else 0)
  }

  /** Over any life, a row is changed by recheck at most once, and only if it started in R7. */
  lemma {:induction false} RecheckedAtMostOnce(rnd: Rounding, start: Row, events: seq<Event>)
    ensures ChangesIn(rnd, start, events) <= 1
    ensures Live(rnd, start, events).row.rule == Some(R7) ==> ChangesIn(rnd, start, events) == 0
    ensures start.rule != Some(R7) ==> ChangesIn(rnd, start, events) == 0 && Live(rnd, start, events).row.rule != Some(R7)
  {
    if events != [] {
      var init := events[..|events| - 1];
      RecheckedAtMostOnce(rnd, start, init);
      StepLeavesR7(rnd, Live(rnd, start, init).row, events[|events| - 1]);
      hide Step, RecheckChanges;
    }
  }

  /**
   A remittance that matched but names no invoice does not leave a waiting row alone, as the
   recheck's own comments intend: the row always changes, and it becomes unidentified (R8)
   exactly when no conflict rule and no unit mismatch takes it first.
   */
  lemma EmptyRemittanceMovesTheRow(rnd: Rounding, row: Row, aging: seq<AgingInvoice>, remittance: Remittance, ouMismatch: bool)
    requires Waiting(row) && row.extracted == []
    requires remittance.found && !remittance.ambiguous && remittance.lines == []
    ensures RecheckRow(rnd, row, aging, remittance, ouMismatch).Changed?
    ensures RecheckedRow(rnd, row, aging, remittance, ouMismatch).rule == Some(R8)
            <==> !remittance.customerConflicts && !remittance.multipleCustomers
                 && !(ouMismatch && row.customerPct >= DEFAULT_FUZZY_MIN)
  {
    var input := RecheckInput(row, remittance, ouMismatch);
    assert Candidates(input) == [];
  }

  /** The recheck's "still R7" exit is never taken: with a remittance found, the evaluator cannot answer R7. */
  lemma RecheckNeverAnswersR7(rnd: Rounding, row: Row, aging: seq<AgingInvoice>, remittance: Remittance, ouMismatch: bool)
    requires Waiting(row) && remittance.found && !remittance.ambiguous
    ensures !RecheckRow(rnd, row, aging, remittance, ouMismatch).Unchanged?
  {
    RuleReachability(rnd, aging, RecheckInput(row, remittance, ouMismatch), DEFAULT_TOLERANCE, DEFAULT_FUZZY_MIN);
    hide EvaluateRow;
  }

  // ---- sweeps over the whole table ---------------------------------------------------------------

  /** What a sweep finds for each row it looks at. */
  datatype View = View(remittance: Remittance, ouMismatch: bool)

  datatype TableEvent =
    | Persist(row: Row)
    | Operate(id: nat, event: Event)
    | Sweep(aging: seq<AgingInvoice>, views: seq<View>)

  function SweepRow(rnd: Rounding, row: Row, aging: seq<AgingInvoice>, view: View): Recheck {
    RecheckRow(rnd, row, aging, view.remittance, view.ouMismatch)
  }

  /** One commit for the whole sweep: if any row's evaluation raises, nothing is changed. */
  predicate SweepRaises(rnd: Rounding, rows: seq<Row>, aging: seq<AgingInvoice>, views: seq<View>) {
    exists i :: 0 <= i < |rows| && i < |views| && SweepRow(rnd, rows[i], aging, views[i]).RecheckRaised?
  }

  function SweepRows(rnd: Rounding, rows: seq<Row>, aging: seq<AgingInvoice>, views: seq<View>): seq<Row> {
    if rows == [] || views == [] then rows
    else
      var r := SweepRow(rnd, rows[0], aging, views[0]);
      [if r.Changed? then r.row else rows[0]] + SweepRows(rnd, rows[1..], aging, views[1..])
  }

  function SweepChanges(rnd: Rounding, rows: seq<Row>, aging: seq<AgingInvoice>, views: seq<View>): nat {
    if rows == [] || views == [] then 0
    else (if SweepRow(rnd, rows[0], aging, views[0]).Changed? then 1 else 0) + SweepChanges(rnd, rows[1..], aging, views[1..])
  }

  function TableStep(rnd: Rounding, rows: seq<Row>, e: TableEvent): seq<Row> {
    match e
    case Persist(row) => rows + [row]
    case Operate(id, event) => if id < |rows| then rows[id := Step(rnd, rows[id], event).row] else rows
    case Sweep(aging, views) => if SweepRaises(rnd, rows, aging, views) then rows else SweepRows(rnd, rows, aging, views)
  }

  /** The "changed" count an event reports; a single-row recheck is an operation. */
  function ReportedChanges(rnd: Rounding, rows: seq<Row>, e: TableEvent): nat {
    match e
    case Persist(_) => 0
    case Operate(id, event) => if id < |rows| && RecheckChanges(rnd, rows[id], event) then 1 else 0
    case Sweep(aging, views) =>
      if SweepRaises(rnd, rows, aging, views) then 0 else SweepChanges(rnd, rows, aging, views)
  }

  function InR7(rows: seq<Row>): nat {
    if rows == [] then 0 else (if rows[0].rule == Some(R7) then 1 else 0) + InR7(rows[1..])
  }

  lemma InR7Concat(xs: seq<Row>, ys: seq<Row>)
    ensures InR7(xs + ys) == InR7(xs) + InR7(ys)
  {
    if xs == [] {
      assert xs + ys == ys;
    } else {
      assert (xs + ys)[1..] == xs[1..] + ys;
    }
  }

  lemma InR7Update(rows: seq<Row>, i: nat, row: Row)
    requires i < |rows|
    ensures InR7(rows[i := row]) + InR7([rows[i]]) == InR7(rows) + InR7([row])
  {
    assert rows == rows[..i] + [rows[i]] + rows[i + 1..];
    assert rows[i := row] == rows[..i] + [row] + rows[i + 1..];
    InR7Concat(rows[..i] + [rows[i]], rows[i + 1..]);
    InR7Concat(rows[..i], [rows[i]]);
    InR7Concat(rows[..i] + [row], rows[i + 1..]);
    InR7Concat(rows[..i], [row]);
  }

  lemma {:induction false} SweepDrains(rnd: Rounding, rows: seq<Row>, aging: seq<AgingInvoice>, views: seq<View>)
    ensures SweepChanges(rnd, rows, aging, views) + InR7(SweepRows(rnd, rows, aging, views)) <= InR7(rows)
  {
    if rows != [] && views != [] {
      SweepDrains(rnd, rows[1..], aging, views[1..]);
      StepLeavesR7(rnd, rows[0], RecheckEvent(aging, views[0].remittance, views[0].ouMismatch));
      hide RecheckRow;
    }
  }

  /** Every event pays for its reported changes with rows leaving R7. */
  lemma TableStepDrains(rnd: Rounding, rows: seq<Row>, e: TableEvent)
    ensures ReportedChanges(rnd, rows, e) + InR7(TableStep(rnd, rows, e))
            <= InR7(rows) + (if e.Persist? && e.row.rule == Some(R7) then 1 else 0)
  {
    match e
    case Persist(row) => InR7Concat(rows, [row]);
    case Operate(id, event) =>
      if id < |rows| {
        InR7Update(rows, id, Step(rnd, rows[id], event).row);
        StepLeavesR7(rnd, rows[id], event);
        hide Step, RecheckChanges;
      }
    case Sweep(aging, views) => SweepDrains(rnd, rows, aging, views);
  }

  function Table(rnd: Rounding, rows: seq<Row>, events: seq<TableEvent>): seq<Row> {
    if events == [] then rows
    else TableStep(rnd, Table(rnd, rows, events[..|events| - 1]), events[|events| - 1])
  }

  function TotalChanges(rnd: Rounding, rows: seq<Row>, events: seq<TableEvent>): nat {
    if events == [] then 0
    else
      TotalChanges(rnd, rows, events[..|events| - 1])
        + ReportedChanges(rnd, Table(rnd, rows, events[..|events| - 1]), events[|events| - 1])
  }

  /** Rows that ever entered R7: those there at the start and those persisted into it. */
  function EverInR7(rows: seq<Row>, events: seq<TableEvent>): nat {
    if events == [] then InR7(rows)
    else
      var e := events[|events| - 1];
      EverInR7(rows, events[..|events| - 1]) + (if e.Persist? && e.row.rule == Some(R7) then 1 else 0)
  }

  /** An upper bound: over any run, all sweeps together report at most as many changes as rows that ever waited. */
  lemma {:induction false} SweepsAreBounded(rnd: Rounding, rows: seq<Row>, events: seq<TableEvent>)
    ensures TotalChanges(rnd, rows, events) + InR7(Table(rnd, rows, events)) <= EverInR7(rows, events)
  {
    if events != [] {
      var init := events[..|events| - 1];
      SweepsAreBounded(rnd, rows, init);
      TableStepDrains(rnd, Table(rnd, rows, init), events[|events| - 1]);
      hide TableStep, ReportedChanges, InR7;
    }
  }

  // ---- what a sweep does move, and what stops it ---------------------------------------------------

  /** A waiting row for which exactly one remittance is found. */
  predicate Answerable(row: Row, view: View) {
    Waiting(row) && view.remittance.found && !view.remittance.ambiguous
  }

  /** Answerable rows either change or raise; others are left alone. */
  lemma SweepRowMeaning(rnd: Rounding, row: Row, aging: seq<AgingInvoice>, view: View)
    ensures var input := RecheckInput(row, view.remittance, view.ouMismatch);
            var r := SweepRow(rnd, row, aging, view);
            && (r.Unchanged? <==> !Answerable(row, view))
            && (r.RecheckRaised? <==> Answerable(row, view) && Breaks(aging, input))
            && (r.Changed? ==> r.row.rule.Some? && r.row.rule != Some(R7))
  {
    hide EvaluateRow, GateRule, CancelsOut, MatchedOf;
    var input := RecheckInput(row, view.remittance, view.ouMismatch);
    RaisesExactly(rnd, aging, input, DEFAULT_TOLERANCE, DEFAULT_FUZZY_MIN);
    if Answerable(row, view) {
      RecheckNeverAnswersR7(rnd, row, aging, view.remittance, view.ouMismatch);
    }
  }

  /** No early rule takes the row, and the invoices its remittance leaves unstated cancel out. */
  predicate Breaks(aging: seq<AgingInvoice>, input: RuleInput) {
    GateRule(aging, input, DEFAULT_FUZZY_MIN).None? && CancelsOut(MatchedOf(aging, input))
  }

  lemma {:induction false} SweepRowsAt(rnd: Rounding, rows: seq<Row>, aging: seq<AgingInvoice>, views: seq<View>, i: nat)
    requires i < |rows|
    ensures |SweepRows(rnd, rows, aging, views)| == |rows|
    ensures SweepRows(rnd, rows, aging, views)[i]
         == if i < |views| && SweepRow(rnd, rows[i], aging, views[i]).Changed? then SweepRow(rnd, rows[i], aging, views[i]).row
            else rows[i]
  {
    hide SweepRow;
    if views != [] {
      if i > 0 {
        SweepRowsAt(rnd, rows[1..], aging, views[1..], i - 1);
      } else {
        SweepRowsLength(rnd, rows[1..], aging, views[1..]);
      }
    }
  }

  lemma {:induction false} SweepRowsLength(rnd: Rounding, rows: seq<Row>, aging: seq<AgingInvoice>, views: seq<View>)
    ensures |SweepRows(rnd, rows, aging, views)| == |rows|
  {
    hide SweepRow;
    if rows != [] && views != [] { SweepRowsLength(rnd, rows[1..], aging, views[1..]); }
  }

  /**
   Real progress: a sweep that does not raise moves every waiting row with exactly one remittance
   out of R7, and touches no other row.
   */
  lemma SweepMovesAnswerableRows(rnd: Rounding, rows: seq<Row>, aging: seq<AgingInvoice>, views: seq<View>, i: nat)
    requires i < |rows|
    ensures !SweepRaises(rnd, rows, aging, views) ==>
              var after := TableStep(rnd, rows, Sweep(aging, views));
              && |after| == |rows|
              && (i < |views| && Answerable(rows[i], views[i]) ==> after[i].rule.Some? && after[i].rule != Some(R7))
              && (i >= |views| || !Answerable(rows[i], views[i]) ==> after[i] == rows[i])
  {
    hide SweepRow, SweepRows, Answerable;
    SweepRowsAt(rnd, rows, aging, views, i);
    if i < |views| {
      SweepRowMeaning(rnd, rows[i], aging, views[i]);
    }
  }

  /** A row that makes a sweep raise. */
  predicate Blocks(rows: seq<Row>, aging: seq<AgingInvoice>, views: seq<View>, i: nat) {
    && i < |rows| && i < |views| && Answerable(rows[i], views[i])
    && Breaks(aging, RecheckInput(rows[i], views[i].remittance, views[i].ouMismatch))
  }

  /** A sweep raises, and changes nothing at all, exactly if one of its rows breaks evaluation. */
  lemma SweepRaisesExactly(rnd: Rounding, rows: seq<Row>, aging: seq<AgingInvoice>, views: seq<View>)
    ensures SweepRaises(rnd, rows, aging, views) <==> exists i: nat :: Blocks(rows, aging, views, i)
    ensures SweepRaises(rnd, rows, aging, views) ==>
              TableStep(rnd, rows, Sweep(aging, views)) == rows && ReportedChanges(rnd, rows, Sweep(aging, views)) == 0
  {
    hide SweepRow, Answerable, Breaks, SweepRows, SweepChanges;
    forall i: nat | i < |rows| && i < |views|
      ensures SweepRow(rnd, rows[i], aging, views[i]).RecheckRaised? <==> Blocks(rows, aging, views, i)
    {
      SweepRowMeaning(rnd, rows[i], aging, views[i]);
    }
    if i :| 0 <= i < |rows| && i < |views| && SweepRow(rnd, rows[i], aging, views[i]).RecheckRaised? {
      assert Blocks(rows, aging, views, i);
    }
  }

  /** And as long as that row's remittance stays as it is, no number of sweeps moves any row. */
  lemma {:induction false} OneRowBlocksEverySweep(rnd: Rounding, rows: seq<Row>, events: seq<TableEvent>, i: nat)
    requires forall e :: e in events ==> e.Sweep? && Blocks(rows, e.aging, e.views, i)
    ensures Table(rnd, rows, events) == rows && TotalChanges(rnd, rows, events) == 0
  {
    hide TableStep, ReportedChanges, Blocks;
    if events != [] {
      var init, e := events[..|events| - 1], events[|events| - 1];
      assert e in events && forall x :: x in init ==> x in events;
      OneRowBlocksEverySweep(rnd, rows, init, i);
      SweepRaisesExactly(rnd, rows, e.aging, e.views);
    }
  }

  // ---- one row in the table -----------------------------------------------------------------------

  /** The sweep rechecks row i with this view of it. */
  predicate Rechecks(sweep: TableEvent, i: nat, e: Event) {
    && sweep.Sweep? && i < |sweep.views|
    && e == RecheckEvent(sweep.aging, sweep.views[i].remittance, sweep.views[i].ouMismatch)
  }

  /** The event happened to row i: by itself, or as row i's part of a sweep. */
  predicate Befell(events: seq<TableEvent>, i: nat, e: Event) {
    Operate(i, e) in events || exists sweep :: sweep in events && Rechecks(sweep, i, e)
  }

  lemma BefellStill(events: seq<TableEvent>, last: TableEvent, i: nat, e: Event)
    requires Befell(events, i, e)
    ensures Befell(events + [last], i, e)
  {
    hide Rechecks;
    assert forall x :: x in events ==> x in events + [last];
  }

  /** What one event of the table does to one row of it. */
  lemma TableStepAt(rnd: Rounding, rows: seq<Row>, e: TableEvent, i: nat)
    requires i < |rows|
    ensures var after := TableStep(rnd, rows, e);
            && |after| == |rows| + (if e.Persist? then 1 else 0)
            && (e.Persist? ==> after[|rows|] == e.row)
            && after[i] == match e
                           case Persist(_) => rows[i]
                           case Operate(id, event) => if id == i then Step(rnd, rows[i], event).row else rows[i]
                           case Sweep(aging, views) =>
                             if SweepRaises(rnd, rows, aging, views) || i >= |views| then rows[i]
                             else Step(rnd, rows[i], RecheckEvent(aging, views[i].remittance, views[i].ouMismatch)).row
  {
    hide RecheckRow, SweepRows, SweepRaises;
    if e.Sweep? {
      SweepRowsAt(rnd, rows, e.aging, e.views, i);
    }
  }

  /** Appending an event to a life takes one more step. */
  lemma LiveMore(rnd: Rounding, start: Row, events: seq<Event>, e: Event)
    ensures Live(rnd, start, events + [e]).row == Step(rnd, Live(rnd, start, events).row, e).row
  {
    hide Step;
    assert (events + [e])[..|events|] == events;
  }

  /**
   In the table every row lives its own life: whatever happens to the table, row i ends as the
   life of just the events that befell it, so all results about lives hold of it.
   */
  lemma {:induction false} RowsLiveApart(rnd: Rounding, rows: seq<Row>, events: seq<TableEvent>, i: nat) returns (own: seq<Event>)
    requires i < |rows|
    ensures |rows| <= |Table(rnd, rows, events)| && Table(rnd, rows, events)[i] == Live(rnd, rows[i], own).row
    ensures forall e :: e in own ==> Befell(events, i, e)
  {
    if events == [] {
      own := [];
    } else {
      var init, last := events[..|events| - 1], events[|events| - 1];
      own := RowsLiveApart(rnd, rows, init, i);
      var before := Table(rnd, rows, init);
      TableStepAt(rnd, before, last, i);
      hide TableStep, Step, Live, SweepRaises, Befell;
      assert events == init + [last];
      forall e | e in own ensures Befell(events, i, e) {
        BefellStill(init, last, i, e);
      }
      if last.Operate? && last.id == i {
        LiveMore(rnd, rows[i], own, last.event);
        own := own + [last.event];
        assert Befell(events, i, last.event) by { BefellNow(init, last, i, last.event); }
      } else if last.Sweep? && !SweepRaises(rnd, before, last.aging, last.views) && i < |last.views| {
        var e := RecheckEvent(last.aging, last.views[i].remittance, last.views[i].ouMismatch);
        LiveMore(rnd, rows[i], own, e);
        own := own + [e];
        assert Befell(events, i, e) by { BefellNow(init, last, i, e); }
      }
    }
  }

  lemma BefellNow(events: seq<TableEvent>, last: TableEvent, i: nat, e: Event)
    requires last == Operate(i, e) || Rechecks(last, i, e)
    ensures Befell(events + [last], i, e)
  {
    hide Rechecks;
    assert (events + [last])[|events|] == last;
  }

  // ---- settings the recheck does not know -----------------------------------------------------------

  /** A waiting row of 89.00, as a run with any settings may have left it. */
  function WaitingRow(ou: string): Row {
    Row(8_900, ou, [], 100.0, true, Currency(false, None), Some(R7), [], ReviewApprove, None, false, None, None, 0)
  }

  function OneLine(): Remittance { Remittance(true, [RemittanceLine("1", None, None)], false, false, false) }

  lemma SingleMatch(aging: seq<AgingInvoice>, line: RemittanceLine, ou: string)
    requires Lookup(aging, line.number, ou).Some?
    ensures MatchAll(aging, [line.number], [line], ou) == [MatchOne(Lookup(aging, line.number, ou).value, line.number, [line])]
  {
    hide Lookup, MatchOne;
    assert [line.number][..0] == [];
    assert MatchAll(aging, [], [line], ou) == [];
  }

  lemma OneLinePassesGate(aging: seq<AgingInvoice>, ou: string, fuzzyMin: real)
    requires Lookup(aging, "1", ou).Some?
    ensures GateRule(aging, RecheckInput(WaitingRow(ou), OneLine(), false), fuzzyMin).None?
  {
    hide Lookup;
    var input := RecheckInput(WaitingRow(ou), OneLine(), false);
    assert Candidates(input)[0] == "1" && input.ou == ou;
  }

  lemma OneLineMatches(ou: string)
    ensures var input := RecheckInput(WaitingRow(ou), OneLine(), false);
            var ms := MatchedOf([OpenInvoice("1", 10_000)], input);
            && |ms| == 1 && Outstandings(ms) == [10_000]
            && forall fuzzyMin :: GateRule([OpenInvoice("1", 10_000)], input, fuzzyMin).None?
  {
    var aging := [OpenInvoice("1", 10_000)];
    hide Lookup, PlainNumbers, MatchAll, GateRule, NumbersOf;
    OneNumber("1", 10_000);
    FoundAlone(aging, "1", 10_000, ou);
    forall fuzzyMin ensures GateRule(aging, RecheckInput(WaitingRow(ou), OneLine(), false), fuzzyMin).None? {
      OneLinePassesGate(aging, ou, fuzzyMin);
    }
    SingleMatch(aging, OneLine().lines[0], ou);
    assert LineNumbers(OneLine().lines) == ["1"];
  }

  /**
   The recheck is documented to run the same evaluation as a run, but it does so with the default
   tolerance of 12: with the setting at 10, a run calls this row an unexplained shortage, and the
   recheck makes it ready for approval.
   */
  lemma RecheckIgnoresTheSetting(rnd: Rounding, ou: string, fuzzyMin: real)
    ensures var aging := [OpenInvoice("1", 10_000)];
            var e := EvaluateRow(rnd, aging, RecheckInput(WaitingRow(ou), OneLine(), false), 10.0, fuzzyMin);
            && e.Evaluated? && e.result.rule == R9c
            && RecheckedRow(rnd, WaitingRow(ou), aging, OneLine(), false).rule == Some(R9b)
            && CategoryOf(RecheckedRow(rnd, WaitingRow(ou), aging, OneLine(), false)) == GroupReadyForOracle
  {
    var aging := [OpenInvoice("1", 10_000)];
    var input := RecheckInput(WaitingRow(ou), OneLine(), false);
    OneLineMatches(ou);
    OneInvoiceBands();
    hide GateRule, MatchedOf, BandRule, Shortfall, Sum;
    SplitKeepsOutstandings(rnd, 8_900, MatchedOf(aging, input));
    assert Resolve(rnd, aging, input).Split?;
    hide SplitSpec;
  }

  lemma OneInvoiceBands()
    ensures Sum([10_000]) == 10_000
    ensures BandRule(10_000, 8_900, 10.0) == R9c && BandRule(10_000, 8_900, DEFAULT_TOLERANCE) == R9b
  {
    assert [10_000][1..] == [];
    BandMeaning(10_000, 8_900, 10.0);
    BandMeaning(10_000, 8_900, DEFAULT_TOLERANCE);
  }
}
