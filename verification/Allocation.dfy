/**
 Splitting a received amount over the matched invoices.  All amounts are whole cents.
 The split is proportional to the outstanding amounts, each share is rounded, and the
 last invoice takes what is left.
 */
module Allocation {
  import opened Core
  import opened Rounding
  import opened Text
  import opened AgingMap

  /** One line of a remittance advice. */
  datatype RemittanceLine = RemittanceLine(number: string, paid: Option<int>, withheld: Option<int>)

  datatype Matched = Matched(
    number: string, outstanding: int, customerName: string, ou: string,
    currency: string, customerNumber: string,
    stated: Option<int>, deduction: Option<int>)

  /** Either the invoices with their amounts, or the division by a zero total the source raises. */
  datatype Resolution = Split(invoices: seq<Matched>) | ZeroDivision

  // ---- which invoices ------------------------------------------------------------

  /** A dictionary built from the lines in order keeps the last line of each number. */
  function LastLine(lines: seq<RemittanceLine>, number: string): Option<RemittanceLine> {
    if lines == [] then None
    else if lines[|lines| - 1].number == number then Some(lines[|lines| - 1])
    else LastLine(lines[..|lines| - 1], number)
  }

  function MatchOne(row: AgingInvoice, number: string, lines: seq<RemittanceLine>): Matched {
    var line := LastLine(lines, number);
    Matched(number, row.outstanding, row.customerName, row.ou, Strip(Upper(row.currency)), row.customerNumber,
            if line.Some? then line.value.paid else None,
            if line.Some? then line.value.withheld else None)
  }

  /** The numbers that resolve against the aging rows, in order, unresolved ones dropped. */
  function MatchAll(aging: seq<AgingInvoice>, numbers: seq<string>, lines: seq<RemittanceLine>, ou: string): seq<Matched> {
    if numbers == [] then []
    else
      var row := Lookup(aging, numbers[|numbers| - 1], ou);
      MatchAll(aging, numbers[..|numbers| - 1], lines, ou)
        + (if row.Some? then [MatchOne(row.value, numbers[|numbers| - 1], lines)] else [])
  }

  function Numbers(ms: seq<Matched>): seq<string> {
    seq(|ms|, i requires 0 <= i < |ms| => ms[i].number)
  }

  /** When every number resolves, nothing is dropped or reordered. */
  lemma {:induction false} MatchAllComplete(aging: seq<AgingInvoice>, numbers: seq<string>,
                                            lines: seq<RemittanceLine>, ou: string)
    requires forall n | n in numbers :: Lookup(aging, n, ou).Some?
    ensures Numbers(MatchAll(aging, numbers, lines, ou)) == numbers
  {
    hide Lookup, MatchOne;
    if numbers != [] {
      var init, last := numbers[..|numbers| - 1], numbers[|numbers| - 1];
      assert numbers == init + [last];
      MatchAllComplete(aging, init, lines, ou);
      var row := Lookup(aging, last, ou);
      assert row.Some?;
      MatchOneNumber(row.value, last, lines);
      assert MatchAll(aging, numbers, lines, ou) == MatchAll(aging, init, lines, ou) + [MatchOne(row.value, last, lines)];
      hide MatchAll;
    }
  }

  lemma MatchOneNumber(row: AgingInvoice, number: string, lines: seq<RemittanceLine>)
    ensures MatchOne(row, number, lines).number == number
  {
  }

  lemma NoneOfSnoc(aging: seq<AgingInvoice>, init: seq<string>, last: string, ou: string)
    ensures (forall n | n in init + [last] :: Lookup(aging, n, ou).None?)
            <==> (forall n | n in init :: Lookup(aging, n, ou).None?) && Lookup(aging, last, ou).None?
  {
    hide Lookup;
    assert last in init + [last];
    assert forall n :: n in init ==> n in init + [last];
  }

  lemma MatchAllSnoc(aging: seq<AgingInvoice>, init: seq<string>, last: string, lines: seq<RemittanceLine>, ou: string)
    ensures MatchAll(aging, init + [last], lines, ou) == [] <==>
            MatchAll(aging, init, lines, ou) == [] && Lookup(aging, last, ou).None?
  {
    hide Lookup, MatchOne;
    assert (init + [last])[..|init|] == init;
  }

  lemma {:induction false} MatchAllEmpty(aging: seq<AgingInvoice>, numbers: seq<string>,
                                         lines: seq<RemittanceLine>, ou: string)
    ensures MatchAll(aging, numbers, lines, ou) == [] <==> forall n | n in numbers :: Lookup(aging, n, ou).None?
  {
    if numbers != [] {
      var init, last := numbers[..|numbers| - 1], numbers[|numbers| - 1];
      hide *;
      assert numbers == init + [last];
      MatchAllEmpty(aging, init, lines, ou);
      MatchAllSnoc(aging, init, last, lines, ou);
      NoneOfSnoc(aging, init, last, ou);
    }
  }

  /** Position k holds the last line of the number. */
  predicate IsLastLine(lines: seq<RemittanceLine>, number: string, k: int) {
    0 <= k < |lines| && lines[k].number == number && forall j :: k < j < |lines| ==> lines[j].number != number
  }

  lemma {:induction false} LastLineMeaning(lines: seq<RemittanceLine>, number: string, k: int)
    ensures IsLastLine(lines, number, k) ==> LastLine(lines, number) == Some(lines[k])
    ensures (forall j :: 0 <= j < |lines| ==> lines[j].number != number) ==> LastLine(lines, number).None?
  {
    if lines != [] && lines[|lines| - 1].number != number {
      var init := lines[..|lines| - 1];
      LastLineMeaning(init, number, k);
      assert IsLastLine(lines, number, k) ==> IsLastLine(init, number, k);
    }
  }

  /** What a matched invoice says: its aging row's fields, and the amounts of the last remittance line of its number. */
  ghost predicate SaysOf(m: Matched, row: AgingInvoice, lines: seq<RemittanceLine>) {
    && m.outstanding == row.outstanding && m.customerName == row.customerName && m.ou == row.ou
    && m.currency == Strip(Upper(row.currency)) && m.customerNumber == row.customerNumber
    && (forall k :: IsLastLine(lines, m.number, k) ==> m.stated == lines[k].paid && m.deduction == lines[k].withheld)
    && ((forall j :: 0 <= j < |lines| ==> lines[j].number != m.number) ==> m.stated.None? && m.deduction.None?)
  }

  lemma MatchOneSays(row: AgingInvoice, number: string, lines: seq<RemittanceLine>)
    ensures SaysOf(MatchOne(row, number, lines), row, lines)
  {
    hide LastLine, Strip, Upper;
    forall k | IsLastLine(lines, number, k) ensures LastLine(lines, number) == Some(lines[k]) {
      LastLineMeaning(lines, number, k);
    }
    LastLineMeaning(lines, number, 0);
  }

  /** Every matched invoice is a candidate that resolves, and says what its aging row and the remittance say. */
  lemma {:induction false} MatchedMeaning(aging: seq<AgingInvoice>, numbers: seq<string>, lines: seq<RemittanceLine>,
                                          ou: string, m: Matched)
    requires m in MatchAll(aging, numbers, lines, ou)
    ensures m.number in numbers
    ensures var row := Lookup(aging, m.number, ou); row.Some? && SaysOf(m, row.value, lines)
  {
    hide Lookup, MatchOne, SaysOf;
    var init, last := numbers[..|numbers| - 1], numbers[|numbers| - 1];
    assert numbers == init + [last];
    if m in MatchAll(aging, init, lines, ou) {
      MatchedMeaning(aging, init, lines, ou, m);
    } else {
      var row := Lookup(aging, last, ou).value;
      MatchOneNumber(row, last, lines);
      MatchOneSays(row, last, lines);
    }
  }

  // ---- how much each one gets ------------------------------------------------------

  function Outstandings(ms: seq<Matched>): seq<int> {
    seq(|ms|, i requires 0 <= i < |ms| => ms[i].outstanding)
  }

  function StatedOrZero(m: Matched): int {
    if m.stated.Some? then m.stated.value else 0
  }

  function StatedAmounts(ms: seq<Matched>): seq<int> {
    seq(|ms|, i requires 0 <= i < |ms| => StatedOrZero(ms[i]))
  }

  /** The rounded proportional part of one invoice. */
  function Share(rnd: Rounding, amount: int, outstanding: int, total: int): int
    requires total != 0
  {
    rnd(amount as real * (outstanding as real / total as real))
  }

  function RoundedShares(rnd: Rounding, amount: int, os: seq<int>, total: int): (r: seq<int>)
    requires total != 0
    ensures |r| == |os|
  {
    seq(|os|, i requires 0 <= i < |os| => Share(rnd, amount, os[i], total))
  }

  predicate Divisible(os: seq<int>) {
    |os| == 1 || (|os| >= 2 && Sum(os) != 0)
  }

  /** Rounded shares for all but the last, which absorbs the remainder. */
  function Shares(rnd: Rounding, amount: int, os: seq<int>): (r: seq<int>)
    requires Divisible(os)
    ensures |r| == |os|
  {
    if |os| == 1 then [amount]
    else
      var first := RoundedShares(rnd, amount, os[..|os| - 1], Sum(os));
      first + [amount - Sum(first)]
  }

  /** Positions whose amount is still unknown, in order. */
  function Unstated(ms: seq<Matched>): (r: seq<nat>)
    ensures forall k :: 0 <= k < |r| ==> r[k] < |ms|
  {
    if ms == [] then []
    else
      var n := |ms| - 1;
      Unstated(ms[..n]) + (if ms[n].stated.None? then [n] else [])
  }

  /** Open positions of ms, in order. */
  predicate OpenInOrder(ms: seq<Matched>, r: seq<nat>) {
    && (forall k :: 0 <= k < |r| ==> r[k] < |ms| && ms[r[k]].stated.None?)
    && (forall j, k :: 0 <= j < k < |r| ==> r[j] < r[k])
  }

  lemma OpenMore(ms: seq<Matched>, r: seq<nat>)
    requires ms != [] && OpenInOrder(ms[..|ms| - 1], r)
    ensures OpenInOrder(ms, r)
    ensures ms[|ms| - 1].stated.None? ==> OpenInOrder(ms, r + [|ms| - 1])
  {
    forall k | 0 <= k < |r| ensures r[k] < |ms| - 1 && ms[r[k]].stated.None? {
      assert ms[..|ms| - 1][r[k]] == ms[r[k]];
    }
  }

  lemma {:induction false} UnstatedInOrder(ms: seq<Matched>)
    ensures OpenInOrder(ms, Unstated(ms))
  {
    if ms != [] {
      UnstatedInOrder(ms[..|ms| - 1]);
      OpenMore(ms, Unstated(ms[..|ms| - 1]));
      hide OpenInOrder;
    }
  }

  lemma {:induction false} UnstatedFinds(ms: seq<Matched>, i: nat)
    requires i < |ms| && ms[i].stated.None?
    ensures exists k :: 0 <= k < |Unstated(ms)| && Unstated(ms)[k] == i
  {
    var n := |ms| - 1;
    var before, r := Unstated(ms[..n]), Unstated(ms);
    if i < n {
      UnstatedFinds(ms[..n], i);
      var k :| 0 <= k < |before| && before[k] == i;
      assert r[k] == i;
    } else {
      assert r[|r| - 1] == i;
    }
  }

  /** The open positions: only them, in order, and all of them. */
  lemma UnstatedMeaning(ms: seq<Matched>)
    ensures OpenInOrder(ms, Unstated(ms))
    ensures forall i :: 0 <= i < |ms| && ms[i].stated.None? ==>
              exists k :: 0 <= k < |Unstated(ms)| && Unstated(ms)[k] == i
  {
    hide Unstated;
    UnstatedInOrder(ms);
    forall i | 0 <= i < |ms| && ms[i].stated.None? ensures exists k :: 0 <= k < |Unstated(ms)| && Unstated(ms)[k] == i {
      UnstatedFinds(ms, i);
    }
  }

  /** No position is open exactly when every amount is stated. */
  lemma GapsRemain(ms: seq<Matched>)
    ensures Unstated(ms) == [] <==> forall m :: m in ms ==> m.stated.Some?
  {
    UnstatedMeaning(ms);
    hide Unstated;
    var r := Unstated(ms);
    if r == [] {
      forall m | m in ms ensures m.stated.Some? {
        var i :| 0 <= i < |ms| && ms[i] == m;
      }
    } else {
      assert ms[r[0]] in ms;
    }
  }

  function OutstandingsAt(ms: seq<Matched>, idx: seq<nat>): (r: seq<int>)
    requires forall k :: 0 <= k < |idx| ==> idx[k] < |ms|
    ensures |r| == |idx|
  {
    seq(|idx|, k requires 0 <= k < |idx| => ms[idx[k]].outstanding)
  }

  function SetStated(ms: seq<Matched>, i: nat, amount: int): seq<Matched>
    requires i < |ms|
  {
    ms[i := ms[i].(stated := Some(amount))]
  }

  /** Writes shares to the positions idx, in order. */
  function Fill(ms: seq<Matched>, idx: seq<nat>, shares: seq<int>): (r: seq<Matched>)
    requires |shares| <= |idx| && forall k :: 0 <= k < |idx| ==> idx[k] < |ms|
    ensures |r| == |ms|
    decreases |shares|
  {
    if shares == [] then ms
    else
      var n := |shares| - 1;
      SetStated(Fill(ms, idx, shares[..n]), idx[n], shares[n])
  }

  /** The split as a function of what was received and what was stated. */
  function SplitSpec(rnd: Rounding, received: int, ms: seq<Matched>): Resolution {
    if ms == [] then Split([])
    else if |ms| == 1 then Split(SetStated(ms, 0, received))
    else
      var idx := Unstated(ms);
      var os := OutstandingsAt(ms, idx);
      if idx == [] then Split(ms)
      else if !Divisible(os) then ZeroDivision
      else Split(Fill(ms, idx, Shares(rnd, received - Sum(StatedAmounts(ms)), os)))
  }

  // ---- conservation ------------------------------------------------------------------

  lemma SharesSumExactly(rnd: Rounding, amount: int, os: seq<int>)
    requires Divisible(os)
    ensures Sum(Shares(rnd, amount, os)) == amount
  {
    if |os| == 1 {
      assert [amount][1..] == [];
    } else {
      SumSnoc(RoundedShares(rnd, amount, os[..|os| - 1], Sum(os)),
              amount - Sum(RoundedShares(rnd, amount, os[..|os| - 1], Sum(os))));
    }
  }

  lemma {:induction false} SumUpdate(xs: seq<int>, i: nat, x: int)
    requires i < |xs|
    ensures Sum(xs[i := x]) == Sum(xs) - xs[i] + x
  {
    assert xs == xs[..i] + [xs[i]] + xs[i + 1..];
    assert xs[i := x] == xs[..i] + [x] + xs[i + 1..];
    SumConcat(xs[..i] + [xs[i]], xs[i + 1..]);
    SumConcat(xs[..i] + [x], xs[i + 1..]);
    SumSnoc(xs[..i], xs[i]);
    SumSnoc(xs[..i], x);
  }

  predicate Increasing(idx: seq<nat>) {
    forall j, k :: 0 <= j < k < |idx| ==> idx[j] < idx[k]
  }

  predicate Within(idx: seq<nat>, n: nat) {
    forall k :: 0 <= k < |idx| ==> idx[k] < n
  }

  /** r is ms with the k-th share written at the k-th listed position, for the shares there are, and nowhere else. */
  predicate FilledWith(r: seq<Matched>, ms: seq<Matched>, idx: seq<nat>, shares: seq<int>)
    requires |shares| <= |idx| && Within(idx, |ms|)
  {
    && |r| == |ms|
    && (forall k :: 0 <= k < |shares| ==> r[idx[k]] == ms[idx[k]].(stated := Some(shares[k])))
    && (forall i :: 0 <= i < |ms| && (forall k :: 0 <= k < |shares| ==> idx[k] != i) ==> r[i] == ms[i])
  }

  lemma FillNext(r: seq<Matched>, ms: seq<Matched>, idx: seq<nat>, shares: seq<int>, share: int)
    requires |shares| < |idx| && Within(idx, |ms|) && Increasing(idx)
    requires FilledWith(r, ms, idx, shares)
    ensures r[idx[|shares|]] == ms[idx[|shares|]]
    ensures FilledWith(SetStated(r, idx[|shares|], share), ms, idx, shares + [share])
  {
    var n := |shares|;
    assert forall k :: 0 <= k < n ==> idx[k] != idx[n];
    var r', all := SetStated(r, idx[n], share), shares + [share];
    assert forall k :: 0 <= k < n ==> r'[idx[k]] == r[idx[k]] && all[k] == shares[k];
    forall i | 0 <= i < |ms| && (forall k :: 0 <= k < |all| ==> idx[k] != i) ensures r'[i] == ms[i] {
      assert idx[n] != i;
    }
  }

  /** Filling touches exactly the listed positions, and only their stated amount. */
  lemma {:induction false} FillAt(ms: seq<Matched>, idx: seq<nat>, shares: seq<int>)
    requires |shares| <= |idx| && Within(idx, |ms|) && Increasing(idx)
    ensures FilledWith(Fill(ms, idx, shares), ms, idx, shares)
    decreases |shares|
  {
    if shares != [] {
      var n := |shares| - 1;
      FillAt(ms, idx, shares[..n]);
      FillNext(Fill(ms, idx, shares[..n]), ms, idx, shares[..n], shares[n]);
      assert shares == shares[..n] + [shares[n]];
      hide FilledWith, Increasing;
    }
  }

  lemma SetStatedAmount(ms: seq<Matched>, i: nat, amount: int)
    requires i < |ms| && ms[i].stated.None?
    ensures |StatedAmounts(ms)| == |ms| && StatedAmounts(ms)[i] == 0
    ensures StatedAmounts(SetStated(ms, i, amount)) == StatedAmounts(ms)[i := amount]
  {
  }

  lemma FillSnoc(ms: seq<Matched>, idx: seq<nat>, shares: seq<int>, share: int)
    requires |shares| < |idx| && forall k :: 0 <= k < |idx| ==> idx[k] < |ms|
    ensures Fill(ms, idx, shares + [share]) == SetStated(Fill(ms, idx, shares), idx[|shares|], share)
    ensures Fill(ms, idx, []) == ms
  {
    assert (shares + [share])[..|shares|] == shares;
  }

  /** Filling in order, the next position is always still open. */
  lemma StillOpen(ms: seq<Matched>, idx: seq<nat>, shares: seq<int>)
    requires |shares| < |idx| && OpenInOrder(ms, idx)
    ensures idx[|shares|] < |ms| && Fill(ms, idx, shares)[idx[|shares|]].stated.None?
  {
    hide Fill;
    FillAt(ms, idx, shares);
    FillNext(Fill(ms, idx, shares), ms, idx, shares, 0);
  }

  lemma {:induction false} FillSum(ms: seq<Matched>, idx: seq<nat>, shares: seq<int>)
    requires |shares| <= |idx| && OpenInOrder(ms, idx)
    ensures Within(idx, |ms|)
    ensures Sum(StatedAmounts(Fill(ms, idx, shares))) == Sum(StatedAmounts(ms)) + Sum(shares)
    decreases |shares|
  {
    if shares != [] {
      var n := |shares| - 1;
      assert shares == shares[..n] + [shares[n]];
      FillSum(ms, idx, shares[..n]);
      hide *;
      FillSnoc(ms, idx, shares[..n], shares[n]);
      StillOpen(ms, idx, shares[..n]);
      var before := Fill(ms, idx, shares[..n]);
      SetStatedAmount(before, idx[n], shares[n]);
      SumUpdate(StatedAmounts(before), idx[n], shares[n]);
      SumSnoc(shares[..n], shares[n]);
    }
  }

  /** The amounts a multi-invoice split writes, and where. */
  lemma SplitUnfold(rnd: Rounding, received: int, ms: seq<Matched>)
    requires |ms| >= 2
    ensures var os := OutstandingsAt(ms, Unstated(ms));
            SplitSpec(rnd, received, ms)
            == if Unstated(ms) == [] then Split(ms)
               else if Divisible(os) then
                 Split(Fill(ms, Unstated(ms), Shares(rnd, received - Sum(StatedAmounts(ms)), os)))
               else ZeroDivision
  {
    hide Unstated, OutstandingsAt, Divisible, Fill, Shares, StatedAmounts, Sum;
  }

  lemma SplitSumsMany(rnd: Rounding, received: int, ms: seq<Matched>)
    requires |ms| >= 2 && Unstated(ms) != [] && Divisible(OutstandingsAt(ms, Unstated(ms)))
    ensures SplitSpec(rnd, received, ms).Split?
    ensures Sum(StatedAmounts(SplitSpec(rnd, received, ms).invoices)) == received
  {
    hide *;
    var idx := Unstated(ms);
    var os := OutstandingsAt(ms, idx);
    var rest := received - Sum(StatedAmounts(ms));
    SplitUnfold(rnd, received, ms);
    UnstatedInOrder(ms);
    FillSum(ms, idx, Shares(rnd, rest, os));
    SharesSumExactly(rnd, rest, os);
  }

  /**
   Exactness: unless the remittance stated every amount of a multi-invoice payment, the
   stated amounts add up to what was received, to the cent.
   */
  lemma SplitSumsExactly(rnd: Rounding, received: int, ms: seq<Matched>)
    requires ms != [] && SplitSpec(rnd, received, ms).Split?
    requires |ms| == 1 || exists m :: m in ms && m.stated.None?
    ensures Sum(StatedAmounts(SplitSpec(rnd, received, ms).invoices)) == received
  {
    if |ms| == 1 {
      assert StatedAmounts(SetStated(ms, 0, received)) == [received];
      assert [received][1..] == [];
    } else {
      SplitUnfold(rnd, received, ms);
      GapsRemain(ms);
      SplitSumsMany(rnd, received, ms);
    }
  }

  /** The split changes stated amounts only, fills every gap, and leaves given amounts alone. */
  lemma SplitKeepsInvoices(rnd: Rounding, received: int, ms: seq<Matched>)
    requires SplitSpec(rnd, received, ms).Split?
    ensures var r := SplitSpec(rnd, received, ms).invoices;
            && |r| == |ms|
            && forall i :: 0 <= i < |ms| ==>
                 && r[i].stated.Some?
                 && r[i] == ms[i].(stated := r[i].stated)
                 && (|ms| >= 2 && ms[i].stated.Some? ==> r[i] == ms[i])
  {
    if |ms| >= 2 {
      SplitUnfold(rnd, received, ms);
      GapsRemain(ms);
      hide SplitSpec, Unstated, Fill, Shares, OutstandingsAt, Divisible, StatedAmounts;
      var idx := Unstated(ms);
      if idx != [] {
        FillAllKeeps(ms, Shares(rnd, received - Sum(StatedAmounts(ms)), OutstandingsAt(ms, idx)));
      } else {
        assert forall i :: 0 <= i < |ms| ==> ms[i] in ms;
      }
    }
  }

  lemma FillAllKeeps(ms: seq<Matched>, shares: seq<int>)
    requires |shares| == |Unstated(ms)|
    ensures var r := Fill(ms, Unstated(ms), shares);
            forall i :: 0 <= i < |ms| ==>
              && r[i].stated.Some?
              && r[i] == ms[i].(stated := r[i].stated)
              && (ms[i].stated.Some? ==> r[i] == ms[i])
  {
    hide Fill, Unstated;
    var idx := Unstated(ms);
    var r := Fill(ms, idx, shares);
    UnstatedMeaning(ms);
    FillAt(ms, idx, shares);
    forall i | 0 <= i < |ms|
      ensures r[i].stated.Some? && r[i] == ms[i].(stated := r[i].stated) && (ms[i].stated.Some? ==> r[i] == ms[i])
    {
      FilledOrKept(ms, idx, shares, r, i);
    }
  }

  lemma FilledOrKept(ms: seq<Matched>, idx: seq<nat>, shares: seq<int>, r: seq<Matched>, i: nat)
    requires |r| == |ms| && |shares| == |idx| && i < |ms|
    requires forall k :: 0 <= k < |idx| ==> idx[k] < |ms| && ms[idx[k]].stated.None?
    requires forall k :: 0 <= k < |idx| ==> r[idx[k]] == ms[idx[k]].(stated := Some(shares[k]))
    requires (forall k :: 0 <= k < |idx| ==> idx[k] != i) ==> r[i] == ms[i]
    requires ms[i].stated.None? ==> exists k :: 0 <= k < |idx| && idx[k] == i
    ensures r[i].stated.Some? && r[i] == ms[i].(stated := r[i].stated) && (ms[i].stated.Some? ==> r[i] == ms[i])
  {
    if ms[i].stated.None? {
      var k :| 0 <= k < |idx| && idx[k] == i;
    }
  }

  // ---- rounding error ------------------------------------------------------------------

  /** The exact proportional part, in cents, before rounding. */
  function Exact(amount: int, outstanding: int, total: int): real
    requires total != 0
  {
    amount as real * (outstanding as real / total as real)
  }

  /** The exact parts of any group add up to the part of the group's sum. */
  lemma {:induction false} ExactSum(rnd: Rounding, amount: int, os: seq<int>, total: int)
    requires total != 0
    ensures -(|os| as real) / 2.0 <= Sum(RoundedShares(rnd, amount, os, total)) as real - Exact(amount, Sum(os), total)
    ensures Sum(RoundedShares(rnd, amount, os, total)) as real - Exact(amount, Sum(os), total) <= |os| as real / 2.0
  {
    if os != [] {
      ExactSum(rnd, amount, os[1..], total);
      assert RoundedShares(rnd, amount, os, total)[1..] == RoundedShares(rnd, amount, os[1..], total);
      ExactAdds(amount, os[0], Sum(os[1..]), total);
      var x := Exact(amount, os[0], total);
      assert -0.5 <= rnd(x) as real - x <= 0.5;
    }
  }

  lemma ExactAdds(amount: int, x: int, y: int, total: int)
    requires total != 0
    ensures Exact(amount, x + y, total) == Exact(amount, x, total) + Exact(amount, y, total)
  {
    var a, t := amount as real, total as real;
    assert (x + y) as real / t == x as real / t + y as real / t;
    assert a * (x as real / t + y as real / t) == a * (x as real / t) + a * (y as real / t);
  }

  lemma ShareError(rnd: Rounding, amount: int, o: int, total: int)
    requires total != 0
    ensures -0.5 <= Share(rnd, amount, o, total) as real - Exact(amount, o, total) <= 0.5
  {
    var x := Exact(amount, o, total);
    assert -0.5 <= rnd(x) as real - x <= 0.5;
  }

  lemma SharesAt(rnd: Rounding, amount: int, os: seq<int>)
    requires |os| >= 2 && Sum(os) != 0
    ensures var n := |os| - 1;
            && (forall i :: 0 <= i < n ==> Shares(rnd, amount, os)[i] == Share(rnd, amount, os[i], Sum(os)))
            && Shares(rnd, amount, os)[n] == amount - Sum(RoundedShares(rnd, amount, os[..n], Sum(os)))
  {
  }

  /** Each share but the last is within half a cent of its exact proportional part. */
  lemma SharesNearExact(rnd: Rounding, amount: int, os: seq<int>)
    requires |os| >= 2 && Sum(os) != 0
    ensures forall i :: 0 <= i < |os| - 1 ==>
              -0.5 <= Shares(rnd, amount, os)[i] as real - Exact(amount, os[i], Sum(os)) <= 0.5
  {
    SharesAt(rnd, amount, os);
    forall i | 0 <= i < |os| - 1
      ensures -0.5 <= Shares(rnd, amount, os)[i] as real - Exact(amount, os[i], Sum(os)) <= 0.5
    {
      ShareError(rnd, amount, os[i], Sum(os));
    }
  }

  /** The last share, which absorbs the others' rounding, is within (k - 1) / 2 cents for k shares. */
  lemma LastShareNearExact(rnd: Rounding, amount: int, os: seq<int>)
    requires |os| >= 2 && Sum(os) != 0
    ensures var n := |os| - 1;
            -(n as real) / 2.0 <= Shares(rnd, amount, os)[n] as real - Exact(amount, os[n], Sum(os)) <= n as real / 2.0
  {
    var n, total := |os| - 1, Sum(os);
    SharesAt(rnd, amount, os);
    assert os == os[..n] + [os[n]];
    SumSnoc(os[..n], os[n]);
    ExactSum(rnd, amount, os[..n], total);
    ExactAdds(amount, Sum(os[..n]), os[n], total);
    ExactWhole(amount, total);
    hide *;
  }

  lemma ExactWhole(amount: int, total: int)
    requires total != 0
    ensures Exact(amount, total, total) == amount as real
  {
    assert total as real / total as real == 1.0;
  }

  lemma FullShare(rnd: Rounding, o: int, total: int)
    requires total != 0
    ensures Share(rnd, total, o, total) == o
  {
    assert total as real * (o as real / total as real) == o as real;
    RoundWhole(rnd, o);
  }

  /** An exact payment with nothing stated gives every invoice exactly its outstanding amount. */
  lemma ExactPaymentPaysEachInvoice(rnd: Rounding, os: seq<int>)
    requires |os| >= 2 && Sum(os) != 0
    ensures Shares(rnd, Sum(os), os) == os
  {
    var n, total := |os| - 1, Sum(os);
    hide Shares, Share, Sum;
    SharesAt(rnd, total, os);
    forall i | 0 <= i < n ensures Share(rnd, total, os[i], total) == os[i] {
      FullShare(rnd, os[i], total);
    }
    assert RoundedShares(rnd, total, os[..n], total) == os[..n];
    hide RoundedShares;
    assert os == os[..n] + [os[n]];
    SumSnoc(os[..n], os[n]);
  }

  lemma ShortShare(rnd: Rounding, received: int, o: int, total: int)
    requires 0 <= received <= total && total > 0 && o > 0
    ensures 0 <= Share(rnd, received, o, total) <= o
  {
    ExactBelow(received, o, total);
    RoundMonotone(rnd, Exact(received, o, total), o as real);
    RoundMonotone(rnd, 0.0, Exact(received, o, total));
    RoundWhole(rnd, o);
    RoundWhole(rnd, 0);
  }

  /** A short payment never gives a non-last invoice more than it owes; the last at most (n - 1) / 2 cents more. */
  lemma ShortPaymentNeverOverpays(rnd: Rounding, received: int, os: seq<int>)
    requires |os| >= 2 && (forall i :: 0 <= i < |os| ==> os[i] > 0)
    requires 0 <= received <= Sum(os) && Sum(os) != 0
    ensures var r, n := Shares(rnd, received, os), |os| - 1;
            && (forall i :: 0 <= i < n ==> 0 <= r[i] <= os[i])
            && r[n] as real <= os[n] as real + n as real / 2.0
  {
    var n, total := |os| - 1, Sum(os);
    SharesAt(rnd, received, os);
    forall i | 0 <= i < n ensures 0 <= Shares(rnd, received, os)[i] <= os[i] {
      ShortShare(rnd, received, os[i], total);
    }
    ExactBelow(received, os[n], total);
    LastShareNearExact(rnd, received, os);
    hide *;
  }

  lemma ExactBelow(received: int, o: int, total: int)
    requires 0 <= received <= total && total > 0 && o > 0
    ensures 0.0 <= Exact(received, o, total) <= o as real
  {
    var w := o as real / total as real;
    assert w * total as real == o as real;
    assert w > 0.0;
    assert received as real * w <= total as real * w;
  }

  // ---- the loops of the source -----------------------------------------------------------

  /** Step 1: look every candidate up, in order. */
  method ResolveInvoices(aging: seq<AgingInvoice>, numbers: seq<string>, lines: seq<RemittanceLine>, ou: string)
    returns (resolved: seq<Matched>)
    ensures resolved == MatchAll(aging, numbers, lines, ou)
  {
    resolved := [];
    for i := 0 to |numbers|
      invariant resolved == MatchAll(aging, numbers[..i], lines, ou)
    {
      var row := Lookup(aging, numbers[i], ou);
      assert numbers[..i + 1][..i] == numbers[..i];
      if row.Some? {
        resolved := resolved + [MatchOne(row.value, numbers[i], lines)];
      }
    }
    assert numbers[..|numbers|] == numbers;
  }

  lemma RoundedSnoc(rnd: Rounding, amount: int, os: seq<int>, total: int, i: nat)
    requires total != 0 && i < |os|
    ensures RoundedShares(rnd, amount, os[..i + 1], total)
            == RoundedShares(rnd, amount, os[..i], total) + [Share(rnd, amount, os[i], total)]
    ensures RoundedShares(rnd, amount, os[..0], total) == []
  {
    hide Share;
  }

  /** The last share is what the rounded ones leave over. */
  lemma SharesEnd(rnd: Rounding, amount: int, os: seq<int>, paid: seq<int>)
    requires Divisible(os)
    requires if |os| == 1 then paid == [] else paid == RoundedShares(rnd, amount, os[..|os| - 1], Sum(os))
    ensures Shares(rnd, amount, os) == paid + [amount - Sum(paid)]
  {
  }

  /** The distribution loop shared by the two unstated cases; total division happens only before the last one. */
  method Distribute(rnd: Rounding, amount: int, ms: seq<Matched>, idx: seq<nat>) returns (r: Resolution)
    requires idx != [] && forall k :: 0 <= k < |idx| ==> idx[k] < |ms|
    ensures var os := OutstandingsAt(ms, idx);
            r == if Divisible(os) then Split(Fill(ms, idx, Shares(rnd, amount, os))) else ZeroDivision
  {
    hide OutstandingsAt, RoundedShares, Share, Shares, Fill, SetStated, Sum;
    var os := OutstandingsAt(ms, idx);
    var total := Sum(os);
    var out, paidOut: seq<int> := ms, [];
    FillSnoc(ms, idx, [], 0);
    for i := 0 to |idx| - 1
      invariant |paidOut| == i && out == Fill(ms, idx, paidOut)
      invariant i > 0 ==> total != 0 && paidOut == RoundedShares(rnd, amount, os[..i], total)
    {
      if total == 0 {
        return ZeroDivision;
      }
      var share := Share(rnd, amount, os[i], total);
      RoundedSnoc(rnd, amount, os, total, i);
      FillSnoc(ms, idx, paidOut, share);
      paidOut := paidOut + [share];
      out := SetStated(out, idx[i], share);
    }
    var last := rnd((amount - Sum(paidOut)) as real);
    RoundWhole(rnd, amount - Sum(paidOut));
    SharesEnd(rnd, amount, os, paidOut);
    FillSnoc(ms, idx, paidOut, last);
    return Split(SetStated(out, idx[|idx| - 1], last));
  }

  function Positions(n: nat): (r: seq<nat>)
    ensures |r| == n && forall i :: 0 <= i < n ==> r[i] == i
  {
    seq(n, i => i)
  }

  lemma {:induction false} NoneStatedPositions(ms: seq<Matched>)
    requires forall m :: m in ms ==> m.stated.None?
    ensures Unstated(ms) == Positions(|ms|)
  {
    if ms != [] {
      NoneStatedPositions(ms[..|ms| - 1]);
      assert ms[|ms| - 1] in ms;
    }
  }

  lemma {:induction false} NoneStatedSum(ms: seq<Matched>)
    requires forall m :: m in ms ==> m.stated.None?
    ensures Sum(StatedAmounts(ms)) == 0
  {
    if ms != [] {
      NoneStatedSum(ms[1..]);
      assert StatedAmounts(ms)[1..] == StatedAmounts(ms[1..]);
      assert ms[0] in ms;
    }
  }

  /** Single invoice, all stated, none stated, some stated. */
  method SplitAmounts(rnd: Rounding, received: int, resolved: seq<Matched>) returns (r: Resolution)
    ensures r == SplitSpec(rnd, received, resolved)
  {
    hide Unstated, OutstandingsAt, Fill, Shares, Divisible, StatedAmounts;
    if resolved == [] {
      r := Split(resolved);
    } else if |resolved| == 1 {
      r := Split(SetStated(resolved, 0, received));
    } else if forall m :: m in resolved ==> m.stated.Some? {
      r := Split(resolved);
      GapsRemain(resolved);
    } else if forall m :: m in resolved ==> m.stated.None? {
      NoneStatedPositions(resolved);
      NoneStatedSum(resolved);
      r := Distribute(rnd, received, resolved, Positions(|resolved|));
    } else {
      var rest := received - Sum(StatedAmounts(resolved));
      GapsRemain(resolved);
      r := Distribute(rnd, rest, resolved, Unstated(resolved));
    }
  }

  // ---- the shares at the invoices ------------------------------------------------------------

  /** The k-th listed invoice carries the k-th share, and is otherwise what it was. */
  predicate Placed(r: seq<Matched>, ms: seq<Matched>, idx: seq<nat>, shares: seq<int>) {
    && |r| == |ms| && |shares| == |idx|
    && (forall k :: 0 <= k < |idx| ==> idx[k] < |ms|)
    && (forall k :: 0 <= k < |idx| ==> r[idx[k]] == ms[idx[k]].(stated := Some(shares[k])))
  }

  /** Where the shares end up: at the invoices without an amount, in order. */
  lemma SplitPlacesShares(rnd: Rounding, received: int, ms: seq<Matched>)
    requires |ms| >= 2 && Unstated(ms) != [] && Divisible(OutstandingsAt(ms, Unstated(ms)))
    ensures SplitSpec(rnd, received, ms).Split?
    ensures Placed(SplitSpec(rnd, received, ms).invoices, ms, Unstated(ms),
                   Shares(rnd, received - Sum(StatedAmounts(ms)), OutstandingsAt(ms, Unstated(ms))))
  {
    hide SplitSpec, Unstated, Fill, Shares, StatedAmounts, Divisible, OutstandingsAt;
    SplitUnfold(rnd, received, ms);
    UnstatedInOrder(ms);
    var idx := Unstated(ms);
    FillAt(ms, idx, Shares(rnd, received - Sum(StatedAmounts(ms)), OutstandingsAt(ms, idx)));
  }

  predicate Near(x: int, exact: real, error: real) { -error <= x as real - exact <= error }

  /** All shares but the last within half a cent of their exact part, the last within (k - 1) / 2 cents. */
  predicate NearParts(shares: seq<int>, amount: int, os: seq<int>)
    requires |shares| == |os| >= 2 && Sum(os) != 0
  {
    var n := |os| - 1;
    && (forall k :: 0 <= k < n ==> Near(shares[k], Exact(amount, os[k], Sum(os)), 0.5))
    && Near(shares[n], Exact(amount, os[n], Sum(os)), n as real / 2.0)
  }

  lemma SharesNear(rnd: Rounding, amount: int, os: seq<int>)
    requires |os| >= 2 && Sum(os) != 0
    ensures NearParts(Shares(rnd, amount, os), amount, os)
  {
    hide Shares, Exact, Sum;
    SharesNearExact(rnd, amount, os);
    LastShareNearExact(rnd, amount, os);
  }

  /** The invoice carries an amount this near to its proportional part of the rest. */
  predicate NearPart(m: Matched, rest: int, total: int, error: real) {
    total != 0 && m.stated.Some? && Near(m.stated.value, Exact(rest, m.outstanding, total), error)
  }

  /** All listed invoices but the last within half a cent, the last within (k - 1) / 2 cents. */
  predicate NearSplit(r: seq<Matched>, idx: seq<nat>, rest: int, total: int) {
    && idx != []
    && (forall k :: 0 <= k < |idx| ==> idx[k] < |r|)
    && (forall k :: 0 <= k < |idx| - 1 ==> NearPart(r[idx[k]], rest, total, 0.5))
    && NearPart(r[idx[|idx| - 1]], rest, total, (|idx| - 1) as real / 2.0)
  }

  /**
   Bounded error, whatever the remittance stated: of k invoices without an amount, all but the
   last get their exact proportional part of the remainder to within half a cent, and the last
   to within (k - 1) / 2 cents.
   */
  lemma SplitNearExact(rnd: Rounding, received: int, ms: seq<Matched>)
    requires |ms| >= 2 && |Unstated(ms)| >= 2 && Sum(OutstandingsAt(ms, Unstated(ms))) != 0
    ensures SplitSpec(rnd, received, ms).Split? && |SplitSpec(rnd, received, ms).invoices| == |ms|
    ensures var r, idx := SplitSpec(rnd, received, ms).invoices, Unstated(ms);
            NearSplit(r, idx, received - Sum(StatedAmounts(ms)), Sum(OutstandingsAt(ms, idx)))
  {
    hide *;
    var idx := Unstated(ms);
    var os, rest := OutstandingsAt(ms, idx), received - Sum(StatedAmounts(ms));
    ManyDivisible(os);
    SplitPlacesShares(rnd, received, ms);
    SharesNear(rnd, rest, os);
    PlacedNear(SplitSpec(rnd, received, ms).invoices, ms, idx, Shares(rnd, rest, os), rest);
  }

  lemma ManyDivisible(os: seq<int>)
    requires |os| >= 2 && Sum(os) != 0
    ensures Divisible(os)
  {
  }

  lemma PlacedNear(r: seq<Matched>, ms: seq<Matched>, idx: seq<nat>, shares: seq<int>, rest: int)
    requires Placed(r, ms, idx, shares) && |idx| >= 2
    requires var os := OutstandingsAt(ms, idx); Sum(os) != 0 && NearParts(shares, rest, os)
    ensures |r| == |ms|
    ensures NearSplit(r, idx, rest, Sum(OutstandingsAt(ms, idx)))
  {
    hide Near, Exact, Sum;
  }

  lemma PlacedInOrder(r: seq<Matched>, ms: seq<Matched>, shares: seq<int>)
    requires Placed(r, ms, Positions(|ms|), shares)
    ensures |r| == |ms| == |shares| && forall i :: 0 <= i < |ms| ==> r[i].stated == Some(shares[i])
  {
    var idx := Positions(|ms|);
    assert forall i :: 0 <= i < |ms| ==> r[idx[i]] == ms[idx[i]].(stated := Some(shares[i])) && idx[i] == i;
  }

  lemma OutstandingsInOrder(ms: seq<Matched>)
    ensures OutstandingsAt(ms, Positions(|ms|)) == Outstandings(ms)
  {
  }

  lemma PlacedWhenNothingStated(rnd: Rounding, received: int, ms: seq<Matched>)
    requires |ms| >= 2 && Sum(Outstandings(ms)) != 0 && forall m :: m in ms ==> m.stated.None?
    ensures Divisible(Outstandings(ms)) && SplitSpec(rnd, received, ms).Split?
    ensures Placed(SplitSpec(rnd, received, ms).invoices, ms, Positions(|ms|), Shares(rnd, received, Outstandings(ms)))
  {
    hide *;
    NoneStatedPositions(ms);
    NoneStatedSum(ms);
    OutstandingsInOrder(ms);
    SumsDivide(ms);
    SplitPlacesShares(rnd, received, ms);
  }

  lemma SumsDivide(ms: seq<Matched>)
    requires |ms| >= 2 && Sum(Outstandings(ms)) != 0
    ensures Divisible(Outstandings(ms)) && Positions(|ms|) != []
  {
    hide Sum;
  }

  /** With nothing stated, the shares stand in order. */
  lemma SharesInOrder(rnd: Rounding, received: int, ms: seq<Matched>)
    requires |ms| >= 2 && Sum(Outstandings(ms)) != 0 && forall m :: m in ms ==> m.stated.None?
    ensures var r, shares := SplitSpec(rnd, received, ms), Shares(rnd, received, Outstandings(ms));
            && r.Split? && |r.invoices| == |ms|
            && forall i :: 0 <= i < |ms| ==> r.invoices[i].stated == Some(shares[i])
  {
    hide *;
    PlacedWhenNothingStated(rnd, received, ms);
    PlacedInOrder(SplitSpec(rnd, received, ms).invoices, ms, Shares(rnd, received, Outstandings(ms)));
  }

  /** With nothing stated, an exact payment settles every invoice to the cent. */
  lemma ExactPaymentSettlesInvoices(rnd: Rounding, ms: seq<Matched>)
    requires |ms| >= 2 && Sum(Outstandings(ms)) != 0 && forall m :: m in ms ==> m.stated.None?
    ensures var r := SplitSpec(rnd, Sum(Outstandings(ms)), ms);
            r.Split? && |r.invoices| == |ms| && forall i :: 0 <= i < |ms| ==> r.invoices[i].stated == Some(ms[i].outstanding)
  {
    var os := Outstandings(ms);
    hide SplitSpec, Shares, Sum;
    SharesInOrder(rnd, Sum(os), ms);
    ExactPaymentPaysEachInvoice(rnd, os);
  }

  /**
   With nothing stated and positive outstandings, a short payment overpays no invoice but the
   last, and that one by at most (n - 1) / 2 cents.
   */
  lemma ShortPaymentAtInvoices(rnd: Rounding, received: int, ms: seq<Matched>)
    requires |ms| >= 2 && forall m :: m in ms ==> m.stated.None? && m.outstanding > 0
    requires 0 <= received <= Sum(Outstandings(ms)) && Sum(Outstandings(ms)) != 0
    ensures var r, n := SplitSpec(rnd, received, ms), |ms| - 1;
            && r.Split? && |r.invoices| == |ms|
            && (forall i :: 0 <= i < |ms| ==> r.invoices[i].stated.Some?)
            && (forall i :: 0 <= i < n ==> 0 <= r.invoices[i].stated.value <= ms[i].outstanding)
            && r.invoices[n].stated.value as real <= ms[n].outstanding as real + n as real / 2.0
  {
    PositiveOutstandings(ms);
    hide *;
    SharesInOrder(rnd, received, ms);
    ShortShares(rnd, received, Outstandings(ms));
    ReadShares(SplitSpec(rnd, received, ms).invoices, ms, Shares(rnd, received, Outstandings(ms)));
  }

  predicate NeverOver(shares: seq<int>, os: seq<int>) {
    && |shares| == |os| >= 1
    && (forall i :: 0 <= i < |os| - 1 ==> 0 <= shares[i] <= os[i])
    && shares[|os| - 1] as real <= os[|os| - 1] as real + (|os| - 1) as real / 2.0
  }

  lemma ShortShares(rnd: Rounding, received: int, os: seq<int>)
    requires |os| >= 2 && (forall i :: 0 <= i < |os| ==> os[i] > 0)
    requires 0 <= received <= Sum(os) && Sum(os) != 0
    ensures NeverOver(Shares(rnd, received, os), os)
  {
    hide Shares, Sum;
    ShortPaymentNeverOverpays(rnd, received, os);
  }

  lemma ReadShares(r: seq<Matched>, ms: seq<Matched>, shares: seq<int>)
    requires |r| == |ms| == |shares| && forall i :: 0 <= i < |ms| ==> r[i].stated == Some(shares[i])
    requires NeverOver(shares, Outstandings(ms))
    ensures var n := |ms| - 1;
            && n >= 0
            && (forall i :: 0 <= i < |ms| ==> r[i].stated.Some?)
            && (forall i :: 0 <= i < n ==> 0 <= r[i].stated.value <= ms[i].outstanding)
            && r[n].stated.value as real <= ms[n].outstanding as real + n as real / 2.0
  {
  }

  lemma PositiveOutstandings(ms: seq<Matched>)
    requires forall m :: m in ms ==> m.outstanding > 0
    ensures |Outstandings(ms)| == |ms|
    ensures forall i :: 0 <= i < |ms| ==> Outstandings(ms)[i] == ms[i].outstanding > 0
  {
    assert forall i :: 0 <= i < |ms| ==> ms[i] in ms;
  }
}
