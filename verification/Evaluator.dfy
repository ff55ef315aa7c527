/** The rule cascade: one bank credit row in, one rule id out. */
module Evaluator {
  import opened Core
  import opened Rounding
  import opened AgingMap
  import opened Allocation

  datatype RuleId = R0 | R1 | R2 | R3 | R4 | R5 | R6 | R7 | R8 | R9a | R9b | R9c | R11 | R13 | R14

  datatype Category = Unidentified | NeedsRemittance | ConflictException | AcceptableShortPayment | ReadyToPost

  /** Totals in invoice currency; the shortfall is a percentage of the target. */
  datatype Amounts = Amounts(target: int, received: int, shortfall: real)

  datatype RuleResult = RuleResult(
    rule: RuleId, reason: string, category: Category,
    matched: seq<Matched>, amounts: Option<Amounts>, crossOu: bool)

  datatype Remittance = Remittance(
    found: bool, lines: seq<RemittanceLine>, ambiguous: bool,
    customerConflicts: bool, multipleCustomers: bool)

  /** Leg 1 only: the rate from the credited currency to the invoice currency. */
  datatype Currency = Currency(isCross: bool, rate: Option<real>)

  datatype RuleInput = RuleInput(
    credit: int, ou: string,
    extracted: seq<string>, customerPct: real, invoicePct: real, customerTextMatch: bool,
    remittance: Remittance, currency: Currency, ouMismatch: bool,
    duplicateInvoice: bool, duplicateAmbiguous: bool, alreadyProcessed: bool)

  /** A rule, or the ZeroDivisionError of the split escaping to the caller. */
  datatype Evaluation = Evaluated(result: RuleResult) | Raised

  const DEFAULT_TOLERANCE := 12.0
  const DEFAULT_FUZZY_MIN := 35.0

  /** A rate of zero is falsy in the source, so it counts as missing. */
  predicate RateUsable(c: Currency) { c.rate.Some? && c.rate.value != 0.0 }

  /** The credited amount in invoice currency. */
  function Received(rnd: Rounding, credit: int, c: Currency): int {
    if c.isCross && RateUsable(c) then rnd(credit as real * c.rate.value) else credit
  }

  function LineNumbers(lines: seq<RemittanceLine>): seq<string> {
    seq(|lines|, i requires 0 <= i < |lines| => lines[i].number)
  }

  /** A remittance's own invoice list overrides the extraction's. */
  function Candidates(input: RuleInput): seq<string> {
    if input.remittance.found then LineNumbers(input.remittance.lines) else input.extracted
  }

  function CandidateLines(input: RuleInput): seq<RemittanceLine> {
    if input.remittance.found then input.remittance.lines else []
  }

  function MatchedOf(aging: seq<AgingInvoice>, input: RuleInput): seq<Matched> {
    MatchAll(aging, Candidates(input), CandidateLines(input), input.ou)
  }

  function Resolve(rnd: Rounding, aging: seq<AgingInvoice>, input: RuleInput): Resolution {
    SplitSpec(rnd, Received(rnd, input.credit, input.currency), MatchedOf(aging, input))
  }

  /** The two loops of the source, run one after the other. */
  method ResolveMatchedInvoices(rnd: Rounding, aging: seq<AgingInvoice>, input: RuleInput) returns (r: Resolution)
    ensures r == Resolve(rnd, aging, input)
  {
    var resolved := ResolveInvoices(aging, Candidates(input), CandidateLines(input), input.ou);
    r := SplitAmounts(rnd, Received(rnd, input.credit, input.currency), resolved);
  }

  predicate NothingResolves(aging: seq<AgingInvoice>, numbers: seq<string>, ou: string) {
    forall n | n in numbers :: Lookup(aging, n, ou).None?
  }

  function Plain(rule: RuleId, reason: string, category: Category): RuleResult {
    RuleResult(rule, reason, category, [], None, false)
  }

  /** Rules R0 to R8, before any amount is looked at; None means none of them fires. */
  function GateRule(aging: seq<AgingInvoice>, input: RuleInput, fuzzyMin: real): Option<RuleResult> {
    var customerFound := input.customerPct >= fuzzyMin;
    var remittance := input.remittance;
    var invoiceFound := input.extracted != [] || remittance.lines != [];
    if input.duplicateInvoice && input.duplicateAmbiguous then
      Some(Plain(R0, "DUPLICATE_INVOICE_NO", ConflictException))
    else if remittance.found && remittance.customerConflicts then
      Some(Plain(R1, "CUSTOMER_CONFLICT", ConflictException))
    else if input.invoicePct == 100.0 && !input.customerTextMatch && remittance.found && remittance.customerConflicts then
      Some(Plain(R2, "INVOICE_CUSTOMER_MISMATCH", ConflictException))
    else if remittance.ambiguous then
      Some(Plain(R3, "AMBIGUOUS_REMITTANCE", ConflictException))
    else if Candidates(input) != [] && NothingResolves(aging, Candidates(input), input.ou) then
      Some(Plain(R4, "INVOICE_NOT_IN_AGING", ConflictException))
    else if input.alreadyProcessed then
      Some(Plain(R5, "POSSIBLE_DUPLICATE_PAYMENT", ConflictException))
    else if remittance.found && remittance.multipleCustomers then
      Some(Plain(R6, "CROSS_CUSTOMER_SPLIT", ConflictException))
    else if customerFound && !invoiceFound && input.ouMismatch then
      Some(Plain(R14, "WRONG_OU_PAYMENT", ConflictException))
    else if customerFound && !invoiceFound && !remittance.found then
      Some(Plain(R7, "CUSTOMER_ONLY_NO_REMIT", NeedsRemittance))
    else if !customerFound && !invoiceFound && !remittance.found then
      Some(Plain(R8, "NO_SIGNAL", Unidentified))
    else None
  }

  function Shortfall(target: int, received: int): real {
    if target == 0 then 0.0 else (target - received) as real / target as real * 100.0
  }

  /** The R9 family and R11, from a shortfall percentage. */
  function BandOf(pct: real, tolerance: real): RuleId {
    if pct < 0.0 then R11 else if pct == 0.0 then R9a else if pct <= tolerance then R9b else R9c
  }

  function BandRule(target: int, received: int, tolerance: real): RuleId {
    BandOf(Shortfall(target, received), tolerance)
  }

  function BandResult(rule: RuleId, matched: seq<Matched>, amounts: Amounts, ouMismatch: bool): RuleResult {
    match rule
    case R9a => RuleResult(R9a, "EXACT_MATCH", ReadyToPost, matched, Some(amounts), ouMismatch)
    case R9b => RuleResult(R9b, "ACCEPTABLE_SHORT_PAYMENT", AcceptableShortPayment, matched, Some(amounts), ouMismatch)
    case R11 => RuleResult(R11, "OVERPAYMENT_UNEXPLAINED", ConflictException, matched, Some(amounts), false)
    case _ => RuleResult(R9c, "UNEXPLAINED_SHORTAGE", ConflictException, matched, Some(amounts), false)
  }

  /** R13, R14 and the bands, once invoices are matched. */
  function AmountRule(rnd: Rounding, matched: seq<Matched>, input: RuleInput, tolerance: real): RuleResult {
    var target := Sum(Outstandings(matched));
    var received := Received(rnd, input.credit, input.currency);
    var amounts := Amounts(target, received, Shortfall(target, received));
    if input.currency.isCross && !RateUsable(input.currency) then
      RuleResult(R13, "FX_RATE_MISSING", ConflictException, matched, Some(amounts), false)
    else if input.ouMismatch then
      RuleResult(R14, "WRONG_OU_SPLIT_REQUIRED", ConflictException, matched, Some(amounts), false)
    else
      BandResult(BandRule(target, received, tolerance), matched, amounts, input.ouMismatch)
  }

  function EvaluateRow(rnd: Rounding, aging: seq<AgingInvoice>, input: RuleInput,
                       tolerance: real, fuzzyMin: real): Evaluation
  {
    var gate := GateRule(aging, input, fuzzyMin);
    if gate.Some? then Evaluated(gate.value)
    else
      match Resolve(rnd, aging, input)
      case ZeroDivision => Raised
      case Split(matched) =>
        if matched == [] then Evaluated(Plain(R8, "NO_SIGNAL", Unidentified))
        else Evaluated(AmountRule(rnd, matched, input, tolerance))
  }

  // ---- the bands in plain money -----------------------------------------------------

  /**
   For a non-negative receipt and a tolerance below 100 percent, each band is a plain
   comparison of money, for every target including zero and negative ones.
   */
  lemma BandMeaning(target: int, received: int, tolerance: real)
    requires received >= 0 && 0.0 <= tolerance < 100.0
    ensures var t, r, floor := target as real, received as real, (1.0 - tolerance / 100.0) * target as real;
            && (BandRule(target, received, tolerance) == R9a <==> target == received || target == 0)
            && (BandRule(target, received, tolerance) == R9b <==> target > 0 && floor <= r < t)
            && (BandRule(target, received, tolerance) == R11 <==> target > 0 && r > t)
            && (BandRule(target, received, tolerance) == R9c <==> target < 0 || (target > 0 && r < floor))
  {
    var t, r, pct := target as real, received as real, Shortfall(target, received);
    if target > 0 {
      PercentOrder(t, r, 0.0);
      PercentOrder(t, r, tolerance);
      hide Shortfall;
    } else if target < 0 {
      NegativeTarget(t, r);
      hide Shortfall;
    }
  }

  /** The shortfall is at most k percent exactly when at least 1 - k/100 of the target came in. */
  lemma PercentOrder(t: real, r: real, k: real)
    requires t > 0.0
    ensures var pct := (t - r) / t * 100.0;
            && (pct <= k <==> r >= (1.0 - k / 100.0) * t)
            && (pct == k <==> r == (1.0 - k / 100.0) * t)
  {
    var q := (t - r) / t;
    assert q * t == t - r;
    assert (1.0 - k / 100.0) * t == t - k / 100.0 * t;
    ScaleOrder(q, k / 100.0, t);
    ScaleOrder(k / 100.0, q, t);
  }

  lemma NegativeTarget(t: real, r: real)
    requires t < 0.0 && r >= 0.0
    ensures (t - r) / t * 100.0 >= 100.0
  {
    var q := (t - r) / t;
    assert (q - 1.0) * -t == r by { assert q * t == t - r; }
    ScaleOrder(0.0, q - 1.0, -t);
  }

  lemma ScaleOrder(x: real, y: real, t: real)
    requires t > 0.0
    ensures x <= y <==> x * t <= y * t
  {
    var d := y - x;
    assert y * t - x * t == d * t;
    assert d >= 0.0 ==> d * t >= 0.0;
    assert d < 0.0 ==> d * t < 0.0;
  }

  predicate Postable(rule: RuleId) { rule == R9a || rule == R9b }

  /** Everything that keeps a row from posting, whatever its amounts; the order of the rules does not appear. */
  predicate Blocked(input: RuleInput) {
    || (input.duplicateInvoice && input.duplicateAmbiguous)
    || (input.remittance.found && (input.remittance.customerConflicts || input.remittance.multipleCustomers))
    || input.remittance.ambiguous
    || input.alreadyProcessed
    || input.ouMismatch
    || (input.currency.isCross && !RateUsable(input.currency))
  }

  /** Any gate that fires while nothing is blocked leaves no invoice to match. */
  lemma GateMeansBlockedOrEmpty(aging: seq<AgingInvoice>, input: RuleInput, fuzzyMin: real)
    requires GateRule(aging, input, fuzzyMin).Some?
    ensures Blocked(input) || MatchedOf(aging, input) == []
    ensures !Postable(GateRule(aging, input, fuzzyMin).value.rule)
    ensures GateRule(aging, input, fuzzyMin).value.matched == []
  {
    MatchAllEmpty(aging, Candidates(input), CandidateLines(input), input.ou);
  }

  lemma SplitKeepsOutstandings(rnd: Rounding, received: int, ms: seq<Matched>)
    requires SplitSpec(rnd, received, ms).Split?
    ensures Outstandings(SplitSpec(rnd, received, ms).invoices) == Outstandings(ms)
    ensures Numbers(SplitSpec(rnd, received, ms).invoices) == Numbers(ms)
  {
    SplitKeepsInvoices(rnd, received, ms);
    hide SplitSpec;
  }

  ghost predicate Acceptable(target: int, received: int, tolerance: real) {
    || target == received
    || target == 0
    || (target > 0 && (1.0 - tolerance / 100.0) * target as real <= received as real < target as real)
  }

  /** The amount rules post exactly the unblocked rows with acceptable money. */
  lemma AmountRulePostable(rnd: Rounding, matched: seq<Matched>, input: RuleInput, tolerance: real)
    requires 0.0 <= tolerance < 100.0 && Received(rnd, input.credit, input.currency) >= 0
    ensures Postable(AmountRule(rnd, matched, input, tolerance).rule) <==>
              && !input.ouMismatch && !(input.currency.isCross && !RateUsable(input.currency))
              && Acceptable(Sum(Outstandings(matched)), Received(rnd, input.credit, input.currency), tolerance)
  {
    hide *;
    var target, received := Sum(Outstandings(matched)), Received(rnd, input.credit, input.currency);
    AmountRuleKeepsBand(rnd, matched, input, tolerance);
    BandAcceptable(target, received, tolerance);
  }

  /** The amount rules are postable exactly when nothing bars the row and its band is. */
  lemma AmountRuleKeepsBand(rnd: Rounding, matched: seq<Matched>, input: RuleInput, tolerance: real)
    ensures Postable(AmountRule(rnd, matched, input, tolerance).rule) <==>
              && !input.ouMismatch && !(input.currency.isCross && !RateUsable(input.currency))
              && Postable(BandRule(Sum(Outstandings(matched)), Received(rnd, input.credit, input.currency), tolerance))
  {
    hide BandRule, Shortfall, Sum, Outstandings, Received;
  }

  lemma BandAcceptable(target: int, received: int, tolerance: real)
    requires received >= 0 && 0.0 <= tolerance < 100.0
    ensures Postable(BandRule(target, received, tolerance)) <==> Acceptable(target, received, tolerance)
  {
    hide BandRule;
    BandMeaning(target, received, tolerance);
  }

  /**
   A row is postable exactly when nothing blocks it, at least one invoice matches, the
   split does not divide by zero, and the money is exact or short within tolerance.
   */
  lemma PostableMeaning(rnd: Rounding, aging: seq<AgingInvoice>, input: RuleInput, tolerance: real, fuzzyMin: real)
    requires 0.0 <= tolerance < 100.0 && Received(rnd, input.credit, input.currency) >= 0
    ensures var e := EvaluateRow(rnd, aging, input, tolerance, fuzzyMin);
            var ms := MatchedOf(aging, input);
            (e.Evaluated? && Postable(e.result.rule)) <==>
              && !Blocked(input) && ms != [] && Resolve(rnd, aging, input).Split?
              && Acceptable(Sum(Outstandings(ms)), Received(rnd, input.credit, input.currency), tolerance)
  {
    hide GateRule, AmountRule, SplitSpec, MatchAll, MatchedOf, Acceptable, Sum, Outstandings, Received;
    var gate := GateRule(aging, input, fuzzyMin);
    var received := Received(rnd, input.credit, input.currency);
    var ms := MatchedOf(aging, input);
    if gate.Some? {
      GateMeansBlockedOrEmpty(aging, input, fuzzyMin);
    } else {
      NoGateMeans(aging, input, fuzzyMin);
      if Resolve(rnd, aging, input).Split? {
        SplitKeepsOutstandings(rnd, received, ms);
        SplitKeepsInvoices(rnd, received, ms);
        AmountRulePostable(rnd, Resolve(rnd, aging, input).invoices, input, tolerance);
      }
    }
  }

  lemma NoGateMeans(aging: seq<AgingInvoice>, input: RuleInput, fuzzyMin: real)
    requires GateRule(aging, input, fuzzyMin).None?
    ensures Blocked(input) <==> input.ouMismatch || (input.currency.isCross && !RateUsable(input.currency))
  {
  }

  /** What a result carries: postable results always come with invoices, each with a stated amount. */
  ghost predicate WellFormed(r: RuleResult) {
    && (Postable(r.rule) ==> r.matched != [])
    && (r.category == ReadyToPost <==> r.rule == R9a)
    && (r.category == AcceptableShortPayment <==> r.rule == R9b)
    && (r.category == NeedsRemittance <==> r.rule == R7)
    && (r.category == Unidentified <==> r.rule == R8)
    && (forall m | m in r.matched :: m.stated.Some?)
    && (r.crossOu ==> Postable(r.rule))
  }

  lemma GateForm(aging: seq<AgingInvoice>, input: RuleInput, fuzzyMin: real)
    ensures var g := GateRule(aging, input, fuzzyMin);
            g.Some? ==>
              && WellFormed(g.value) && g.value.matched == [] && !g.value.crossOu && g.value.rule != R2
              && (g.value.rule == R7 ==> !input.remittance.found && input.extracted == [] && !input.ouMismatch)
              && (g.value.rule == R8 ==> input.extracted == [])
              && (g.value.rule == R4 ==> Candidates(input) != [] && NothingResolves(aging, Candidates(input), input.ou))
  {
    hide NothingResolves, Candidates, WellFormed;
    PlainForm(aging, input, fuzzyMin);
  }

  /** A result without amounts is well formed as long as its category fits its rule. */
  lemma PlainForm(aging: seq<AgingInvoice>, input: RuleInput, fuzzyMin: real)
    ensures var g := GateRule(aging, input, fuzzyMin); g.Some? ==> WellFormed(g.value)
  {
    hide NothingResolves, Candidates, WellFormed;
    forall rule, reason, category ensures PlainFits(rule, category) ==> WellFormed(Plain(rule, reason, category)) {
      PlainWellFormed(rule, reason, category);
    }
  }

  predicate PlainFits(rule: RuleId, category: Category) {
    || (rule == R7 && category == NeedsRemittance)
    || (rule == R8 && category == Unidentified)
    || (rule in {R0, R1, R2, R3, R4, R5, R6, R14} && category == ConflictException)
  }

  lemma PlainWellFormed(rule: RuleId, reason: string, category: Category)
    ensures PlainFits(rule, category) ==> WellFormed(Plain(rule, reason, category))
  {
  }

  lemma AmountRuleForm(rnd: Rounding, matched: seq<Matched>, input: RuleInput, tolerance: real)
    requires matched != [] && forall m | m in matched :: m.stated.Some?
    ensures var r := AmountRule(rnd, matched, input, tolerance);
            WellFormed(r) && r.matched == matched && !r.crossOu && r.rule !in {R2, R4, R7, R8}
  {
    hide BandRule, Shortfall, Sum, Outstandings, Received;
  }

  lemma EvaluateWellFormed(rnd: Rounding, aging: seq<AgingInvoice>, input: RuleInput, tolerance: real, fuzzyMin: real)
    ensures var e := EvaluateRow(rnd, aging, input, tolerance, fuzzyMin);
            e.Evaluated? ==> WellFormed(e.result)
  {
    hide GateRule, AmountRule, Resolve, MatchedOf;
    GateForm(aging, input, fuzzyMin);
    ResolvedAllStated(rnd, aging, input);
    var resolution := Resolve(rnd, aging, input);
    if resolution.Split? && resolution.invoices != [] {
      AmountRuleForm(rnd, resolution.invoices, input, tolerance);
    }
  }

  lemma ResolvedAllStated(rnd: Rounding, aging: seq<AgingInvoice>, input: RuleInput)
    ensures var r := Resolve(rnd, aging, input);
            r.Split? ==>
              && (forall m | m in r.invoices :: m.stated.Some?)
              && Numbers(r.invoices) == Numbers(MatchedOf(aging, input))
  {
    hide SplitSpec, MatchedOf, Received;
    var received, ms := Received(rnd, input.credit, input.currency), MatchedOf(aging, input);
    if SplitSpec(rnd, received, ms).Split? {
      SplitKeepsInvoices(rnd, received, ms);
      SplitKeepsOutstandings(rnd, received, ms);
    }
  }

  /** R7 needs the absence of a remittance, R2 is always taken by R1 first, and the cross-unit tag is never set. */
  lemma RuleReachability(rnd: Rounding, aging: seq<AgingInvoice>, input: RuleInput, tolerance: real, fuzzyMin: real)
    ensures var e := EvaluateRow(rnd, aging, input, tolerance, fuzzyMin);
            e.Evaluated? ==>
              && e.result.rule != R2
              && (e.result.rule == R7 ==> !input.remittance.found && input.extracted == [] && !input.ouMismatch)
              && !e.result.crossOu
  {
    hide GateRule, AmountRule, Resolve, MatchedOf;
    GateForm(aging, input, fuzzyMin);
    ResolvedAllStated(rnd, aging, input);
    var resolution := Resolve(rnd, aging, input);
    if resolution.Split? && resolution.invoices != [] {
      AmountRuleForm(rnd, resolution.invoices, input, tolerance);
    }
  }

  /**
   A row whose extracted numbers were all confirmed against the aging rows, and which has
   no remittance: R4 cannot fire, a row with a confirmed number is never called unidentified
   or waiting, and a non-empty matched list is the confirmed list.
   */
  lemma ConfirmedRowsMatchInOrder(rnd: Rounding, aging: seq<AgingInvoice>, input: RuleInput,
                                  tolerance: real, fuzzyMin: real)
    requires !input.remittance.found
    requires forall n | n in input.extracted :: Lookup(aging, n, input.ou).Some?
    ensures var e := EvaluateRow(rnd, aging, input, tolerance, fuzzyMin);
            e.Evaluated? ==>
              && e.result.rule != R4
              && (input.extracted != [] ==> e.result.rule !in {R7, R8})
              && (e.result.matched != [] ==> Numbers(e.result.matched) == input.extracted)
  {
    hide GateRule, AmountRule, Resolve, MatchAll, Lookup;
    GateForm(aging, input, fuzzyMin);
    ResolvedAllStated(rnd, aging, input);
    MatchAllComplete(aging, input.extracted, [], input.ou);
    if input.extracted != [] {
      assert input.extracted[0] in input.extracted;
    }
    var resolution := Resolve(rnd, aging, input);
    if resolution.Split? && resolution.invoices != [] {
      AmountRuleForm(rnd, resolution.invoices, input, tolerance);
    }
  }

  // ---- when evaluation raises ---------------------------------------------------------------

  /** Two or more invoices without an amount, whose outstandings cancel out. */
  predicate CancelsOut(ms: seq<Matched>) {
    |ms| >= 2 && |Unstated(ms)| >= 2 && Sum(OutstandingsAt(ms, Unstated(ms))) == 0
  }

  lemma SplitDividesByZero(rnd: Rounding, received: int, ms: seq<Matched>)
    ensures SplitSpec(rnd, received, ms).ZeroDivision? <==> CancelsOut(ms)
  {
    hide Unstated, OutstandingsAt, Fill, Shares, StatedAmounts, Sum;
    if |ms| >= 2 {
      SplitUnfold(rnd, received, ms);
    }
  }

  /**
   Evaluation raises exactly for a row that no early rule takes and whose unstated invoices
   cancel out, whatever was received; otherwise it always answers.
   */
  lemma RaisesExactly(rnd: Rounding, aging: seq<AgingInvoice>, input: RuleInput, tolerance: real, fuzzyMin: real)
    ensures EvaluateRow(rnd, aging, input, tolerance, fuzzyMin).Raised?
            <==> GateRule(aging, input, fuzzyMin).None? && CancelsOut(MatchedOf(aging, input))
  {
    hide GateRule, AmountRule, SplitSpec, MatchedOf, CancelsOut, Received;
    SplitDividesByZero(rnd, Received(rnd, input.credit, input.currency), MatchedOf(aging, input));
  }
}
