/**
 One line item and everything that may happen to it: rule-engine transition, remittance
 recheck, manual mapping, approve, reject, retry and the two Oracle postings.  Each
 operation is a function on the row's value; the class updates its fields in place and
 is proved to compute that function.  Oracle's answers are parameters.
 */
module LineItem {
  import opened Core
  import opened Rounding
  import opened AgingMap
  import opened Allocation
  import opened Evaluator
  import opened RuleAnswers
  import opened ManualMapping

  datatype RowState = UnidentifiedRow | ReviewApprove | Processed | PostFailed | RejectedRow

  datatype Decision = Approved | Rejected

  datatype PostStatus = Success | Failed

  /** The seven display groups; approval is gated on ReadyForOracle. */
  datatype Group =
    | GroupUnidentified | GroupNeedsRemittance | GroupReadyForOracle | GroupConflict
    | GroupProcessed | GroupRejected | GroupPostFailed

  /** A remittance reference attached to an Oracle receipt; also the shape of a hand-entered split. */
  datatype Reference = Reference(number: string, amount: int)

  /** Oracle's answers to one mapping attempt: the receipt, and which references it refuses. */
  datatype Oracle = Oracle(receiptOk: bool, refused: set<nat>)

  datatype Row = Row(
    credit: int, ou: string, extracted: seq<string>, customerPct: real, hasCustomer: bool,
    currency: Currency,
    rule: Option<RuleId>, matched: seq<Matched>, state: RowState,
    hitl: Option<Decision>, manuallyMapped: bool,
    receipt: Option<PostStatus>, reference: Option<PostStatus>, version: nat)

  /** A row as first persisted, before any rule has run. */
  function NewRow(input: RuleInput): Row {
    Row(input.credit, input.ou, input.extracted, input.customerPct, input.customerTextMatch, input.currency,
        None, [], UnidentifiedRow, None, false, None, None, 0)
  }

  function RuleGroup(rule: Option<RuleId>): Group {
    match rule
    case Some(R8) => GroupUnidentified
    case Some(R7) => GroupNeedsRemittance
    case Some(R9a) => GroupReadyForOracle
    case Some(R9b) => GroupReadyForOracle
    case _ => GroupConflict
  }

  /** Terminal outcomes come first: success, then rejection, then failure, then the rule. */
  function CategoryOf(row: Row): Group {
    if row.reference == Some(Success) then GroupProcessed
    else if row.hitl == Some(Rejected) then GroupRejected
    else if row.reference == Some(Failed) then GroupPostFailed
    else RuleGroup(row.rule)
  }

  function ApplyTransition(row: Row, result: RuleResult): Row {
    row.(rule := Some(result.rule), matched := result.matched,
         state := if result.category == Unidentified then UnidentifiedRow else ReviewApprove)
  }

  // ---- the two payload builders ---------------------------------------------------------

  /** The Amount of the bare receipt. */
  function ReceiptAmount(rnd: Rounding, row: Row): int {
    Received(rnd, row.credit, row.currency)
  }

  /** stated or outstanding: a stated amount of zero is falsy and falls back. */
  function ReferenceAmount(m: Matched): int {
    if m.stated.Some? && m.stated.value != 0 then m.stated.value else m.outstanding
  }

  function MatchedReferences(ms: seq<Matched>): (r: seq<Reference>)
    ensures |r| == |ms|
  {
    seq(|ms|, i requires 0 <= i < |ms| => Reference(ms[i].number, ReferenceAmount(ms[i])))
  }

  /** A non-empty hand-entered split overrides the matched invoices. */
  function References(row: Row, breakup: seq<Reference>): seq<Reference> {
    if breakup != [] then breakup else MatchedReferences(row.matched)
  }

  // ---- operations -------------------------------------------------------------------------

  /** What one operation did: the new row, the references posted, and whether the approval gate was passed. */
  datatype Effect = Effect(row: Row, posted: seq<Reference>, gated: bool)

  function CreateReceipt(row: Row, ok: bool): Row {
    row.(receipt := Some(if ok then Success else Failed))
  }

  predicate AllAccepted(references: seq<Reference>, refused: set<nat>) {
    forall i: nat | i < |references| :: i !in refused
  }

  /** Step 2 of the posting flow, with its recovery path for a missing receipt. */
  function MapInvoices(row: Row, breakup: seq<Reference>, oracle: Oracle): (Row, seq<Reference>) {
    var ready := if row.receipt == Some(Success) then row else CreateReceipt(row, oracle.receiptOk);
    if ready.receipt != Some(Success) then (ready.(reference := Some(Failed)), [])
    else
      var references := References(ready, breakup);
      (ready.(reference := Some(if AllAccepted(references, oracle.refused) then Success else Failed)), references)
  }

  lemma MapKeepsVersion(row: Row, breakup: seq<Reference>, oracle: Oracle)
    ensures MapInvoices(row, breakup, oracle).0.version == row.version
  {
    hide MatchedReferences, AllAccepted;
  }

  function AfterMapping(row: Row): RowState {
    if row.reference == Some(Success) then Processed else PostFailed
  }

  predicate VersionAccepted(row: Row, expected: Option<nat>) {
    expected.None? || row.version == expected.value
  }

  predicate GateOpen(row: Row, expected: Option<nat>) {
    VersionAccepted(row, expected) && CategoryOf(row) == GroupReadyForOracle
  }

  function Approve(row: Row, breakup: seq<Reference>, expected: Option<nat>, oracle: Oracle): Effect {
    if !GateOpen(row, expected) then Effect(row, [], false)
    else
      var (mapped, posted) := MapInvoices(row.(hitl := Some(Approved)), breakup, oracle);
      Effect(mapped.(state := AfterMapping(mapped), version := row.version + 1), posted, true)
  }

  function Reject(row: Row, expected: Option<nat>): Row {
    if !VersionAccepted(row, expected) then row
    else row.(hitl := Some(Rejected), state := RejectedRow, version := row.version + 1)
  }

  function Retry(row: Row, oracle: Oracle): Effect {
    if row.reference != Some(Failed) then Effect(row, [], false)
    else
      var (mapped, posted) := MapInvoices(row, MatchedReferences(row.matched), oracle);
      Effect(mapped.(state := AfterMapping(mapped)), posted, false)
  }

  function Confirm(rnd: Rounding, row: Row, aging: seq<AgingInvoice>, numbers: seq<string>): Row {
    var preview := PreviewMapping(rnd, aging, row.ou, Received(rnd, row.credit, row.currency), numbers);
    if preview.PreviewError? || !Postable(preview.rule) then row
    else
      row.(rule := Some(preview.rule), matched := ManualMatches(preview.selected),
           state := ReviewApprove, manuallyMapped := true)
  }

  /** Rows a recheck may look at. */
  predicate Waiting(row: Row) {
    row.rule == Some(R7) && !row.manuallyMapped && row.hitl.None?
  }

  /** The rule input of a recheck: the row's own persisted fields and a fresh remittance view. */
  function RecheckInput(row: Row, remittance: Remittance, ouMismatch: bool): RuleInput {
    RuleInput(row.credit, row.ou, row.extracted, row.customerPct,
              if row.extracted != [] then 100.0 else 0.0, row.hasCustomer,
              remittance, row.currency, ouMismatch, false, false, false)
  }

  datatype Recheck = Unchanged | Changed(row: Row) | RecheckRaised

  /** One row of a recheck sweep; the defaults of the evaluator are used for tolerance and threshold. */
  function RecheckRow(rnd: Rounding, row: Row, aging: seq<AgingInvoice>, remittance: Remittance, ouMismatch: bool): Recheck {
    if !Waiting(row) || !remittance.found || remittance.ambiguous then Unchanged
    else
      match EvaluateRow(rnd, aging, RecheckInput(row, remittance, ouMismatch), DEFAULT_TOLERANCE, DEFAULT_FUZZY_MIN)
      case Raised => RecheckRaised
      case Evaluated(result) => if result.rule == R7 then Unchanged else Changed(ApplyTransition(row, result))
  }

  function RecheckedRow(rnd: Rounding, row: Row, aging: seq<AgingInvoice>, remittance: Remittance, ouMismatch: bool): Row {
    var r := RecheckRow(rnd, row, aging, remittance, ouMismatch);
    if r.Changed? then r.row else row
  }

  // ---- the object that is updated in place --------------------------------------------------

  class LineItem {
    const credit: int
    const ou: string
    const extracted: seq<string>
    const customerPct: real
    const hasCustomer: bool
    var currency: Currency
    var rule: Option<RuleId>
    var matched: seq<Matched>
    var state: RowState
    var hitl: Option<Decision>
    var manuallyMapped: bool
    var receipt: Option<PostStatus>
    var reference: Option<PostStatus>
    var version: nat

    function Value(): Row
      reads this
    {
      Row(credit, ou, extracted, customerPct, hasCustomer, currency, rule, matched, state,
          hitl, manuallyMapped, receipt, reference, version)
    }

    /** Persisted before the currencies are known; they are back-filled by UpdateFx. */
    constructor (credit: int, ou: string, extracted: seq<string>, customerPct: real, hasCustomer: bool)
      ensures Value() == Row(credit, ou, extracted, customerPct, hasCustomer, Currency(false, None),
                             None, [], UnidentifiedRow, None, false, None, None, 0)
    {
      this.credit, this.ou, this.extracted := credit, ou, extracted;
      this.customerPct, this.hasCustomer := customerPct, hasCustomer;
      currency, rule, matched, state := Currency(false, None), None, [], UnidentifiedRow;
      hitl, manuallyMapped, receipt, reference, version := None, false, None, None, 0;
    }

    method UpdateFx(currency: Currency)
      modifies this
      ensures Value() == old(Value()).(currency := currency)
    {
      this.currency := currency;
    }

    method ApplyRuleResult(result: RuleResult)
      modifies this
      ensures Value() == ApplyTransition(old(Value()), result)
    {
      state := if result.category == Unidentified then UnidentifiedRow else ReviewApprove;
      rule := Some(result.rule);
      matched := result.matched;
    }

    /** Step 1 of the posting flow; returns the Amount sent. */
    method PostReceipt(rnd: Rounding, ok: bool) returns (amount: int)
      modifies this
      ensures amount == ReceiptAmount(rnd, old(Value()))
      ensures Value() == CreateReceipt(old(Value()), ok)
      ensures InInvoiceCurrency(amount, credit, old(currency)) && receipt == Some(if ok then Success else Failed)
    {
      ReceivedMeaning(rnd, credit, currency);
      amount := Received(rnd, credit, currency);
      receipt := if ok then Some(Success) else Some(Failed);
    }

    method MapInvoiceAndUpdate(rnd: Rounding, breakup: seq<Reference>, oracle: Oracle) returns (posted: seq<Reference>)
      modifies this
      ensures (Value(), posted) == MapInvoices(old(Value()), breakup, oracle)
    {
      if receipt != Some(Success) {
        var _ := PostReceipt(rnd, oracle.receiptOk);
        if receipt != Some(Success) {
          reference := Some(Failed);
          return [];
        }
      }
      posted := References(Value(), breakup);
      var allSucceeded := true;
      for i := 0 to |posted|
        invariant allSucceeded <==> forall k: nat | k < i :: k !in oracle.refused
      {
        allSucceeded := allSucceeded && i !in oracle.refused;
      }
      reference := if allSucceeded then Some(Success) else Some(Failed);
    }

    method ApproveRow(rnd: Rounding, breakup: seq<Reference>, expected: Option<nat>, oracle: Oracle)
      returns (posted: seq<Reference>, approvable: bool)
      modifies this
      ensures Effect(Value(), posted, approvable) == Approve(old(Value()), breakup, expected, oracle)
    {
      hide MapInvoices, CategoryOf;
      posted, approvable := [], false;
      if expected.Some? && version != expected.value {
        return;
      }
      if CategoryOf(Value()) != GroupReadyForOracle {
        return;
      }
      approvable := true;
      hitl := Some(Approved);
      MapKeepsVersion(Value(), breakup, oracle);
      posted := MapInvoiceAndUpdate(rnd, breakup, oracle);
      state := if reference == Some(Success) then Processed else PostFailed;
      version := version + 1;
    }

    method RejectRow(expected: Option<nat>)
      modifies this
      ensures Value() == Reject(old(Value()), expected)
    {
      if expected.Some? && version != expected.value {
        return;
      }
      hitl := Some(Rejected);
      state := RejectedRow;
      version := version + 1;
    }

    method RetryOraclePost(rnd: Rounding, oracle: Oracle) returns (posted: seq<Reference>)
      modifies this
      ensures Effect(Value(), posted, false) == Retry(old(Value()), oracle)
    {
      hide MapInvoices, MatchedReferences;
      if reference != Some(Failed) {
        return [];
      }
      posted := MapInvoiceAndUpdate(rnd, MatchedReferences(matched), oracle);
      state := if reference == Some(Success) then Processed else PostFailed;
    }

    method ConfirmManualMapping(rnd: Rounding, aging: seq<AgingInvoice>, numbers: seq<string>)
      modifies this
      ensures Value() == Confirm(rnd, old(Value()), aging, numbers)
    {
      hide PreviewMapping, ManualMatches, Received, Postable;
      var preview := PreviewMapping(rnd, aging, ou, Received(rnd, credit, currency), numbers);
      if preview.PreviewError? || !Postable(preview.rule) {
        return;
      }
      matched := ManualMatches(preview.selected);
      rule := Some(preview.rule);
      state := ReviewApprove;
      manuallyMapped := true;
    }

    method RecheckOne(rnd: Rounding, aging: seq<AgingInvoice>, remittance: Remittance, ouMismatch: bool)
      returns (outcome: Recheck)
      modifies this
      ensures outcome == RecheckRow(rnd, old(Value()), aging, remittance, ouMismatch)
      ensures Value() == RecheckedRow(rnd, old(Value()), aging, remittance, ouMismatch)
    {
      if !Waiting(Value()) || !remittance.found || remittance.ambiguous {
        return Unchanged;
      }
      var input := RecheckInput(Value(), remittance, ouMismatch);
      var evaluation := EvaluateRow(rnd, aging, input, DEFAULT_TOLERANCE, DEFAULT_FUZZY_MIN);
      if evaluation.Raised? {
        return RecheckRaised;
      }
      if evaluation.result.rule == R7 {
        return Unchanged;
      }
      ApplyRuleResult(evaluation.result);
      return Changed(Value());
    }
  }
}
