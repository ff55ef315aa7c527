/**
 The simplest rows there are: numbers read from the bank text, each the plain key of one open
 invoice, and nothing known against them.  They serve to show that boundary cases do occur.
 */
module PlainRows {
  import opened Core
  import opened Rounding
  import opened Text
  import opened AgingMap
  import opened Allocation
  import opened Evaluator

  /** A row whose numbers come from the bank text alone. */
  function PlainInput(credit: int, ou: string, numbers: seq<string>): RuleInput {
    RuleInput(credit, ou, numbers, 0.0, 100.0, false, Remittance(false, [], false, false, false),
              Currency(false, None), false, false, false, false)
  }

  function OpenInvoice(number: string, outstanding: int): AgingInvoice {
    AgingInvoice(number, "", "", outstanding, "", "")
  }

  function NumbersOf(rows: seq<AgingInvoice>): (r: seq<string>)
    ensures |r| == |rows| && forall i :: 0 <= i < |rows| ==> r[i] == rows[i].number
  {
    if rows == [] then [] else NumbersOf(rows[..|rows| - 1]) + [rows[|rows| - 1].number]
  }

  /** Every number is its own key, and no two are the same. */
  predicate PlainNumbers(rows: seq<AgingInvoice>) {
    && (forall i :: 0 <= i < |rows| ==> rows[i].number != "" && Upper(Strip(rows[i].number)) == rows[i].number == Upper(rows[i].number))
    && (forall i, j :: 0 <= i < j < |rows| ==> rows[i].number != rows[j].number)
  }

  /** The match of an invoice found under its own number, with nothing stated. */
  function PlainMatches(rows: seq<AgingInvoice>): (r: seq<Matched>)
    ensures |r| == |rows|
  {
    seq(|rows|, i requires 0 <= i < |rows| => MatchOne(rows[i], rows[i].number, []))
  }

  lemma SelectLast(rows: seq<AgingInvoice>, k: string)
    requires rows != []
    ensures Select(ByInvoice, rows, k)
         == Select(ByInvoice, rows[..|rows| - 1], k) + if Upper(rows[|rows| - 1].number) == k then [rows[|rows| - 1]] else []
  {
    hide Upper;
  }

  lemma {:induction false} SelectNone(rows: seq<AgingInvoice>, k: string)
    requires forall i :: 0 <= i < |rows| ==> Upper(rows[i].number) != k
    ensures Select(ByInvoice, rows, k) == []
  {
    if rows != [] {
      SelectLast(rows, k);
      hide Select, Upper;
      SelectNone(rows[..|rows| - 1], k);
    }
  }

  lemma {:induction false} SelectOnly(rows: seq<AgingInvoice>, k: string, i: nat)
    requires i < |rows| && Upper(rows[i].number) == k
    requires forall j :: 0 <= j < |rows| && j != i ==> Upper(rows[j].number) != k
    ensures Select(ByInvoice, rows, k) == [rows[i]]
  {
    var n := |rows| - 1;
    SelectLast(rows, k);
    hide Select, Upper;
    if i == n {
      SelectNone(rows[..n], k);
    } else {
      SelectOnly(rows[..n], k, i);
    }
  }

  /** Each row is found under its number, whatever the unit asked for. */
  lemma PlainLookup(rows: seq<AgingInvoice>, i: nat, ou: string)
    requires PlainNumbers(rows) && i < |rows|
    ensures Lookup(rows, rows[i].number, ou) == Some(rows[i])
  {
    hide Select, Upper, Strip, StripLetters;
    SelectOnly(rows, rows[i].number, i);
  }

  lemma MatchAllFound(aging: seq<AgingInvoice>, init: seq<string>, last: string, lines: seq<RemittanceLine>, ou: string, row: AgingInvoice)
    requires Lookup(aging, last, ou) == Some(row)
    ensures MatchAll(aging, init + [last], lines, ou) == MatchAll(aging, init, lines, ou) + [MatchOne(row, last, lines)]
  {
    hide Lookup, MatchOne;
    assert (init + [last])[..|init|] == init;
  }

  lemma PlainSnoc(rows: seq<AgingInvoice>, n: nat)
    requires 0 < n <= |rows|
    ensures NumbersOf(rows[..n]) == NumbersOf(rows[..n - 1]) + [rows[n - 1].number]
    ensures PlainMatches(rows[..n]) == PlainMatches(rows[..n - 1]) + [MatchOne(rows[n - 1], rows[n - 1].number, [])]
  {
    hide MatchOne;
    assert rows[..n][..n - 1] == rows[..n - 1];
  }

  lemma {:induction false} MatchPlain(rows: seq<AgingInvoice>, n: nat, ou: string)
    requires PlainNumbers(rows) && n <= |rows|
    ensures MatchAll(rows, NumbersOf(rows[..n]), [], ou) == PlainMatches(rows[..n])
  {
    if n > 0 {
      MatchPlain(rows, n - 1, ou);
      PlainLookup(rows, n - 1, ou);
      hide *;
      PlainSnoc(rows, n);
      MatchAllFound(rows, NumbersOf(rows[..n - 1]), rows[n - 1].number, [], ou, rows[n - 1]);
    }
  }

  lemma PlainGate(aging: seq<AgingInvoice>, credit: int, ou: string, numbers: seq<string>, fuzzyMin: real)
    requires numbers != [] && Lookup(aging, numbers[0], ou).Some?
    ensures GateRule(aging, PlainInput(credit, ou, numbers), fuzzyMin).None?
  {
    hide Lookup;
    assert numbers[0] in numbers;
  }

  /** No early rule takes such a row, and it matches all its invoices in order. */
  lemma PlainRowMatches(rows: seq<AgingInvoice>, credit: int, ou: string, fuzzyMin: real)
    requires PlainNumbers(rows) && rows != []
    ensures var input := PlainInput(credit, ou, NumbersOf(rows));
            && GateRule(rows, input, fuzzyMin).None?
            && MatchedOf(rows, input) == PlainMatches(rows)
  {
    hide Lookup, MatchAll, MatchOne, PlainMatches, GateRule, PlainNumbers, NumbersOf;
    MatchPlain(rows, |rows|, ou);
    PlainLookup(rows, 0, ou);
    assert rows[..|rows|] == rows;
    PlainGate(rows, credit, ou, NumbersOf(rows), fuzzyMin);
  }

  lemma DigitNumbers(rows: seq<AgingInvoice>)
    requires forall i :: 0 <= i < |rows| ==> |rows[i].number| == 1 && IsDigit(rows[i].number[0])
    requires forall i, j :: 0 <= i < j < |rows| ==> rows[i].number != rows[j].number
    ensures PlainNumbers(rows)
  {
    forall i | 0 <= i < |rows|
      ensures rows[i].number != "" && Upper(Strip(rows[i].number)) == rows[i].number == Upper(rows[i].number)
    {
      StripEnds(rows[i].number);
    }
    hide Strip, Upper;
  }

  lemma PlainMatchedAt(rows: seq<AgingInvoice>, i: nat)
    requires i < |rows|
    ensures PlainMatches(rows)[i].stated.None? && PlainMatches(rows)[i].outstanding == rows[i].outstanding
  {
  }

  lemma PairCancels(ms: seq<Matched>)
    requires |ms| == 2 && ms[0].stated.None? && ms[1].stated.None? && ms[0].outstanding == -ms[1].outstanding
    ensures CancelsOut(ms)
  {
    NoneStatedPositions(ms);
    OutstandingsInOrder(ms);
    var os := [ms[0].outstanding, ms[1].outstanding];
    assert Outstandings(ms) == os;
    assert os[1..] == [ms[1].outstanding] && os[1..][1..] == [];
    assert Sum(os[1..]) == ms[1].outstanding;
    assert Sum(os) == 0;
  }

  /** An invoice and a credit memo that cancel out, paid with any amount, make evaluation raise. */
  lemma CancellingRowRaises(rnd: Rounding, amount: int, credit: int, ou: string, tolerance: real, fuzzyMin: real)
    ensures var aging := [OpenInvoice("1", amount), OpenInvoice("2", -amount)];
            EvaluateRow(rnd, aging, PlainInput(credit, ou, ["1", "2"]), tolerance, fuzzyMin).Raised?
  {
    var aging := [OpenInvoice("1", amount), OpenInvoice("2", -amount)];
    DigitNumbers(aging);
    assert NumbersOf(aging) == ["1", "2"];
    hide *;
    PlainRowMatches(aging, credit, ou, fuzzyMin);
    PlainMatchedAt(aging, 0);
    PlainMatchedAt(aging, 1);
    PairCancels(PlainMatches(aging));
    RaisesExactly(rnd, aging, PlainInput(credit, ou, ["1", "2"]), tolerance, fuzzyMin);
  }

  /** Such a row is judged by its money alone. */
  lemma PlainRowEvaluates(rnd: Rounding, rows: seq<AgingInvoice>, credit: int, ou: string, tolerance: real, fuzzyMin: real)
    requires PlainNumbers(rows) && rows != []
    requires SplitSpec(rnd, credit, PlainMatches(rows)).Split?
    ensures var e := EvaluateRow(rnd, rows, PlainInput(credit, ou, NumbersOf(rows)), tolerance, fuzzyMin);
            && e.Evaluated?
            && e.result.rule == BandRule(Sum(Outstandings(PlainMatches(rows))), credit, tolerance)
            && e.result.matched == SplitSpec(rnd, credit, PlainMatches(rows)).invoices
  {
    hide GateRule, MatchedOf, SplitSpec, PlainMatches, BandRule, Outstandings, PlainNumbers, NumbersOf, Sum, Shortfall;
    PlainRowMatches(rows, credit, ou, fuzzyMin);
    var ms := PlainMatches(rows);
    SplitKeepsOutstandings(rnd, credit, ms);
    SplitKeepsInvoices(rnd, credit, ms);
    BandRange(Sum(Outstandings(ms)), credit, tolerance);
  }

  lemma BandRange(target: int, received: int, tolerance: real)
    ensures BandRule(target, received, tolerance) in {R9a, R9b, R9c, R11}
  {
    hide Shortfall;
  }
}
