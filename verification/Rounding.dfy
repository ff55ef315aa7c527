/**
 Python's two-decimal round, seen on whole units (cents, or hundredths of a
 percent).  Every result below holds for any rounding whose error is at most half
 a unit; HalfEven, the rule Python documents, is one of them.
 */
module Rounding {

  ghost predicate IsRounding(f: real -> int) {
    forall x: real :: -0.5 <= f(x) as real - x <= 0.5
  }

  function HalfEven(x: real): (r: int)
    ensures -0.5 <= r as real - x <= 0.5
  {
    var below := x.Floor;
    var part := x - below as real;
    if part < 0.5 || (part == 0.5 && below % 2 == 0) then below else below + 1
  }

  type Rounding = f: real -> int | IsRounding(f) ghost witness HalfEven

  /** Half a unit of error already forces the rounding to fix every whole number. */
  lemma RoundWhole(rnd: Rounding, n: int)
    ensures rnd(n as real) == n
  {
    var r := rnd(n as real);
    assert -0.5 <= r as real - n as real <= 0.5;
    assert -1.0 < (r - n) as real < 1.0;
  }

  /** ... and forces it to be monotone. */
  lemma RoundMonotone(rnd: Rounding, x: real, y: real)
    requires x <= y
    ensures rnd(x) <= rnd(y)
  {
    assert rnd(x) as real <= x + 0.5 && rnd(y) as real >= y - 0.5;
    assert x == y || (rnd(x) - rnd(y)) as real < 1.0;
  }
}
