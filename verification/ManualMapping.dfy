/** The second classifier: a hand-picked selection judged in rounded percentages. */
module ManualMapping {
  import opened Core
  import opened Rounding
  import opened Text
  import opened AgingMap
  import opened Allocation
  import opened Evaluator

  /** The shortfall in hundredths of a percent, rounded before any comparison. */
  function RoundedShortfall(rnd: Rounding, target: int, received: int): int {
    rnd(Shortfall(target, received) * 100.0)
  }

  function ManualBand(rnd: Rounding, target: int, received: int): RuleId {
    BandOf(RoundedShortfall(rnd, target, received) as real / 100.0, DEFAULT_TOLERANCE)
  }

  /**
   Where the two sides must agree, whatever the rounding does at ties: clear of zero by half a
   hundredth of a percent, and on the same side of the engine's tolerance and of the manual
   one, which is 12 percent and again half a hundredth wide.
   */
  predicate ClearOfBorders(pct: real, tolerance: real) {
    || pct < -0.005
    || pct == 0.0
    || (0.005 < pct < 12.005 && pct <= tolerance)
    || (pct > 12.005 && pct > tolerance)
  }

  /** Where they must differ: inside half a hundredth of zero, or between the two tolerances. */
  predicate InsideGap(pct: real, tolerance: real) {
    || -0.005 < pct < 0.0
    || 0.0 < pct < 0.005
    || (0.0 < pct < 12.005 && pct > tolerance)
    || (pct > 12.005 && pct <= tolerance)
  }

  /** Where they agree with half-even rounding, ties included. */
  predicate AgreeAt(pct: real, tolerance: real) {
    pct < -0.005 || pct == 0.0 || (pct > 0.005 && (pct <= tolerance <==> pct <= 12.005))
  }

  /** Rounding a percentage to hundredths keeps its band clear of the borders, and loses it inside the gap. */
  lemma RoundedBand(rnd: Rounding, pct: real, tolerance: real)
    ensures var rounded := rnd(pct * 100.0) as real / 100.0;
            && (ClearOfBorders(pct, tolerance) ==> BandOf(rounded, 12.0) == BandOf(pct, tolerance))
            && (InsideGap(pct, tolerance) ==> BandOf(rounded, 12.0) != BandOf(pct, tolerance))
  {
    var h := rnd(pct * 100.0);
    assert -0.5 <= h as real - pct * 100.0 <= 0.5;
    if pct <= 12.0 {
      RoundMonotone(rnd, pct * 100.0, 1200.0);
      RoundWhole(rnd, 1200);
    }
    if pct == 0.0 {
      RoundWhole(rnd, 0);
    }
    HundredthsBand(h, pct, tolerance);
  }

  lemma HundredthsBand(h: int, pct: real, tolerance: real)
    requires -0.5 <= h as real - pct * 100.0 <= 0.5
    requires (pct <= 12.0 ==> h <= 1200) && (pct == 0.0 ==> h == 0)
    ensures ClearOfBorders(pct, tolerance) ==> BandOf(h as real / 100.0, 12.0) == BandOf(pct, tolerance)
    ensures InsideGap(pct, tolerance) ==> BandOf(h as real / 100.0, 12.0) != BandOf(pct, tolerance)
  {
    assert -0.005 <= h as real / 100.0 - pct <= 0.005;
    if h >= 1 { assert h as real / 100.0 >= 0.01; }
    if h <= -1 { assert h as real / 100.0 <= -0.01; }
    if h >= 1201 { assert h as real / 100.0 >= 12.01; }
  }

  /**
   The manual side always tolerates 12 percent, the engine whatever it is configured with.  For
   every such tolerance both give the same rule clear of the borders, and different rules inside
   the gaps; only the rounding rule's choice at the exact ties is left open.
   */
  lemma ClassifiersAgree(rnd: Rounding, target: int, received: int, tolerance: real)
    ensures ClearOfBorders(Shortfall(target, received), tolerance) ==>
              ManualBand(rnd, target, received) == BandRule(target, received, tolerance)
    ensures InsideGap(Shortfall(target, received), tolerance) ==>
              ManualBand(rnd, target, received) != BandRule(target, received, tolerance)
  {
    RoundedBand(rnd, Shortfall(target, received), tolerance);
  }

  /** With the rounding Python uses, the agreement condition is exact, for every configured tolerance. */
  lemma ClassifiersAgreeExactly(target: int, received: int, tolerance: real)
    ensures ManualBand(HalfEven, target, received) == BandRule(target, received, tolerance)
            <==> AgreeAt(Shortfall(target, received), tolerance)
  {
    ClassifiersAgree(HalfEven, target, received, tolerance);
    var pct := Shortfall(target, received);
    if pct == 0.005 {
      assert HalfEven(0.5) == 0;
    } else if pct == -0.005 {
      assert HalfEven(-0.5) == 0;
    } else if pct == 12.005 {
      assert HalfEven(1200.5) == 1200;
    }
  }

  /** At the default setting: exactly when the shortfall is half a hundredth clear of zero and of 12 percent. */
  lemma DefaultToleranceAgrees(target: int, received: int)
    ensures var pct := Shortfall(target, received);
            ManualBand(HalfEven, target, received) == BandRule(target, received, DEFAULT_TOLERANCE)
            <==> (pct == 0.0 || pct < -0.005 || pct > 0.005) && (pct <= 12.0 || pct > 12.005)
  {
    hide ManualBand, BandRule, Shortfall;
    ClassifiersAgreeExactly(target, received, DEFAULT_TOLERANCE);
  }

  /** A selection the engine refuses as a shortage, and the manual side accepts: 1,000,000.00 short by 120,001.00. */
  lemma ManualAcceptsWhatTheEngineRefuses(rnd: Rounding)
    ensures ManualBand(rnd, 100_000_000, 87_999_900) == R9b
    ensures BandRule(100_000_000, 87_999_900, DEFAULT_TOLERANCE) == R9c
  {
    assert Shortfall(100_000_000, 87_999_900) == 12.0001;
    ClassifiersAgree(rnd, 100_000_000, 87_999_900, DEFAULT_TOLERANCE);
    var h := RoundedShortfall(rnd, 100_000_000, 87_999_900);
    assert -0.5 <= h as real - 1200.01 <= 0.5;
  }

  /** With the engine set to 10 percent the manual side goes on accepting up to 12: 100.00 short by 11.00. */
  lemma ManualIgnoresTheSetting(rnd: Rounding)
    ensures ManualBand(rnd, 10_000, 8_900) == R9b && BandRule(10_000, 8_900, 10.0) == R9c
  {
    assert Shortfall(10_000, 8_900) == 11.0;
    RoundWhole(rnd, 1100);
  }

  // ---- preview and confirm ------------------------------------------------------------

  datatype Preview = PreviewError | Preview(rule: RuleId, target: int, shortfallHundredths: int, selected: seq<AgingInvoice>)

  function SelectInvoices(aging: seq<AgingInvoice>, numbers: seq<string>, ou: string): Option<seq<AgingInvoice>> {
    if numbers == [] then Some([])
    else
      var rest := SelectInvoices(aging, numbers[..|numbers| - 1], ou);
      var view := Lookup(aging, numbers[|numbers| - 1], ou);
      if rest.None? || view.None? then None else Some(rest.value + [view.value])
  }

  function TotalOutstanding(vs: seq<AgingInvoice>): int {
    if vs == [] then 0 else TotalOutstanding(vs[..|vs| - 1]) + vs[|vs| - 1].outstanding
  }

  predicate OneCustomer(vs: seq<AgingInvoice>) {
    forall v, w | v in vs && w in vs && v.customerName != "" && w.customerName != "" :: v.customerName == w.customerName
  }

  /** Read-only classification of a selection; received is already in invoice currency. */
  function PreviewMapping(rnd: Rounding, aging: seq<AgingInvoice>, ou: string, received: int, numbers: seq<string>): Preview {
    var selected := SelectInvoices(aging, numbers, ou);
    if numbers == [] || selected.None? || !OneCustomer(selected.value) then PreviewError
    else
      var target := TotalOutstanding(selected.value);
      Preview(ManualBand(rnd, target, received), target, RoundedShortfall(rnd, target, received), selected.value)
  }

  function ManualMatch(v: AgingInvoice): Matched {
    Matched(v.number, v.outstanding, v.customerName, v.ou, v.currency, v.customerNumber, Some(v.outstanding), None)
  }

  function ManualMatches(vs: seq<AgingInvoice>): (r: seq<Matched>)
    ensures |r| == |vs|
  {
    seq(|vs|, i requires 0 <= i < |vs| => ManualMatch(vs[i]))
  }

  /** A selection resolves exactly when each number does, and then it is the list of their rows, in order. */
  lemma {:induction false} SelectInvoicesMeaning(aging: seq<AgingInvoice>, numbers: seq<string>, ou: string)
    ensures SelectInvoices(aging, numbers, ou).Some? <==>
              forall i :: 0 <= i < |numbers| ==> Lookup(aging, numbers[i], ou).Some?
    ensures SelectInvoices(aging, numbers, ou).Some? ==>
              var selected := SelectInvoices(aging, numbers, ou).value;
              |selected| == |numbers|
              && forall i :: 0 <= i < |numbers| ==> Lookup(aging, numbers[i], ou) == Some(selected[i])
  {
    hide Lookup;
    if numbers != [] {
      SelectInvoicesMeaning(aging, numbers[..|numbers| - 1], ou);
    }
  }
}
