/** Cutting a list into slices, and collecting the slices' results in any order of completion. */
module Batching {

  /** Consecutive slices of at most size elements. */
  function Batches<T>(xs: seq<T>, size: nat): seq<seq<T>>
    requires size >= 1
  {
    if xs == [] then []
    else if |xs| <= size then [xs]
    else [xs[..size]] + Batches(xs[size..], size)
  }

  function Flatten<T>(xss: seq<seq<T>>): seq<T> {
    if xss == [] then [] else xss[0] + Flatten(xss[1..])
  }

  /** Nothing is lost, repeated or moved, and no slice is empty or too long. */
  lemma {:induction false} BatchesMeaning<T>(xs: seq<T>, size: nat)
    requires size >= 1
    ensures Flatten(Batches(xs, size)) == xs
    ensures forall i :: 0 <= i < |Batches(xs, size)| ==> 1 <= |Batches(xs, size)[i]| <= size
  {
    if xs != [] {
      if |xs| <= size {
        assert [xs][1..] == [];
      } else {
        BatchesMeaning(xs[size..], size);
        assert Batches(xs, size)[1..] == Batches(xs[size..], size);
        assert xs == xs[..size] + xs[size..];
      }
    }
  }

  function From<T>(xs: seq<T>, i: nat): seq<T> { if i < |xs| then xs[i..] else [] }

  lemma BatchesStep<T>(xs: seq<T>, i: nat, size: nat)
    requires size >= 1 && i < |xs|
    ensures var end := if i + size < |xs| then i + size else |xs|;
            Batches(From(xs, i), size) == [xs[i..end]] + Batches(From(xs, i + size), size)
  {
    var rest := xs[i..];
    if |rest| > size {
      assert rest[..size] == xs[i..i + size] && rest[size..] == xs[i + size..];
    } else {
      assert rest == xs[i..|xs|];
    }
  }

  lemma BatchesEnds<T>(xs: seq<T>, i: nat, size: nat)
    requires size >= 1
    ensures From(xs, 0) == xs
    ensures i >= |xs| ==> Batches(From(xs, i), size) == []
  {
  }

  method Slice<T>(xs: seq<T>, size: nat) returns (batches: seq<seq<T>>)
    requires size >= 1
    ensures batches == Batches(xs, size)
  {
    hide *;
    batches := [];
    var i := 0;
    BatchesEnds(xs, 0, size);
    while i < |xs|
      invariant batches + Batches(From(xs, i), size) == Batches(xs, size)
      decreases |xs| - i
    {
      BatchesStep(xs, i, size);
      batches := batches + [xs[i..if i + size < |xs| then i + size else |xs|]];
      i := i + size;
    }
    BatchesEnds(xs, i, size);
  }

  lemma {:induction false} FlattenConcat<T>(a: seq<seq<T>>, b: seq<seq<T>>)
    ensures Flatten(a + b) == Flatten(a) + Flatten(b)
  {
    if a == [] {
      assert a + b == b;
    } else {
      assert (a + b)[1..] == a[1..] + b;
      FlattenConcat(a[1..], b);
    }
  }

  lemma FlattenSnoc<T>(a: seq<seq<T>>, x: seq<T>)
    ensures Flatten(a + [x]) == Flatten(a) + x
  {
    FlattenConcat(a, [x]);
    assert [x][1..] == [];
  }

  // ---- results arriving in any order -----------------------------------------------------------

  function Indices(n: nat): (r: set<nat>)
    ensures forall j: nat :: j in r <==> j < n
  {
    if n == 0 then {} else Indices(n - 1) + {n - 1}
  }

  /** Everything delivered by the slices that have completed. */
  function Total<T>(xss: seq<seq<T>>, done: set<nat>): multiset<T> {
    if xss == [] then multiset{}
    else
      Total(xss[..|xss| - 1], done)
      + if |xss| - 1 in done then multiset(xss[|xss| - 1]) else multiset{}
  }

  lemma {:induction false} TotalNone<T>(xss: seq<seq<T>>)
    ensures Total(xss, {}) == multiset{}
  {
    if xss != [] { TotalNone(xss[..|xss| - 1]); }
  }

  /** One more completion adds exactly its own results. */
  lemma {:induction false} TotalAdd<T>(xss: seq<seq<T>>, done: set<nat>, j: nat)
    requires j < |xss| && j !in done
    ensures Total(xss, done + {j}) == Total(xss, done) + multiset(xss[j])
  {
    var n := |xss| - 1;
    if j == n {
      TotalIrrelevant(xss[..n], done, j);
    } else {
      TotalAdd(xss[..n], done, j);
    }
  }

  lemma {:induction false} TotalIrrelevant<T>(xss: seq<seq<T>>, done: set<nat>, j: nat)
    requires j >= |xss|
    ensures Total(xss, done + {j}) == Total(xss, done)
  {
    if xss != [] { TotalIrrelevant(xss[..|xss| - 1], done, j); }
  }

  /** Once all are in, the order in which they came no longer shows. */
  lemma {:induction false} TotalAll<T>(xss: seq<seq<T>>, done: set<nat>)
    requires forall j: nat :: j < |xss| ==> j in done
    ensures Total(xss, done) == multiset(Flatten(xss))
  {
    if xss != [] {
      var init, last := xss[..|xss| - 1], xss[|xss| - 1];
      TotalAll(init, done);
      FlattenSnoc(init, last);
      assert xss == init + [last];
    }
  }

  lemma SplitLast<T>(xs: seq<T>)
    requires xs != []
    ensures xs == xs[..|xs| - 1] + [xs[|xs| - 1]]
  {
  }

  /** Two accounts of who is back and who is lost add up. */
  lemma AddUp<T>(back: seq<T>, lost: seq<T>, all: seq<T>, back': seq<T>, lost': seq<T>, more: seq<T>)
    requires multiset(back) + multiset(lost) == multiset(all) && multiset(back') + multiset(lost') == multiset(more)
    ensures (multiset(back) + multiset(back')) + (multiset(lost) + multiset(lost')) == multiset(all + more)
    ensures multiset(back + back') + multiset(lost + lost') == multiset(all + more)
  {
  }

  // ---- projections ------------------------------------------------------------------------------------

  function Map<A, B>(f: A -> B, xs: seq<A>): seq<B> {
    if xs == [] then [] else [f(xs[0])] + Map(f, xs[1..])
  }

  lemma {:induction false} MapConcat<A, B>(f: A -> B, a: seq<A>, b: seq<A>)
    ensures Map(f, a + b) == Map(f, a) + Map(f, b)
  {
    if a == [] {
      assert a + b == b;
    } else {
      assert (a + b)[1..] == a[1..] + b;
      MapConcat(f, a[1..], b);
    }
  }

  lemma MapSnoc<A, B>(f: A -> B, xs: seq<A>, x: A)
    ensures Map(f, xs + [x]) == Map(f, xs) + [f(x)]
  {
    MapConcat(f, xs, [x]);
    assert [x][1..] == [];
  }

  lemma DropOne<A>(x: A, rest: seq<A>, a: seq<A>, b: seq<A>)
    requires multiset([x] + rest) == multiset(a + ([x] + b))
    ensures multiset(rest) == multiset(a + b)
  {
    var m, u := multiset(rest), multiset(a) + multiset(b);
    assert multiset{x} + m == multiset{x} + u;
    forall y ensures m[y] == u[y] {
      assert (multiset{x} + m)[y] == (multiset{x} + u)[y];
    }
  }

  lemma MapMoved<A, B>(f: A -> B, x: A, rest: seq<A>, a: seq<A>, b: seq<A>)
    requires multiset(Map(f, rest)) == multiset(Map(f, a + b))
    ensures multiset(Map(f, [x] + rest)) == multiset(Map(f, a + ([x] + b)))
  {
    MapConcat(f, [x], rest);
    MapConcat(f, a, [x] + b);
    MapConcat(f, [x], b);
    MapConcat(f, a, b);
  }

  /** A permutation has a permuted projection. */
  lemma {:induction false} MapPermutes<A, B>(f: A -> B, xs: seq<A>, ys: seq<A>)
    requires multiset(xs) == multiset(ys)
    ensures multiset(Map(f, xs)) == multiset(Map(f, ys))
  {
    if xs == [] {
      assert |multiset(ys)| == 0;
    } else {
      hide Map;
      var x, rest := xs[0], xs[1..];
      assert xs == [x] + rest;
      assert x in multiset(ys) by { assert x in multiset(xs); }
      var k :| 0 <= k < |ys| && ys[k] == x;
      var a, b := ys[..k], ys[k + 1..];
      assert ys == a + ([x] + b);
      DropOne(x, rest, a, b);
      MapPermutes(f, rest, a + b);
      MapMoved(f, x, rest, a, b);
    }
  }
}
