/** The advisory lock key of a run: a hash of its sorted, bar-joined file names. */
module AdvisoryLock {
  import opened Text

  /** Python's order on strings: by code point, a proper prefix first. */
  predicate LexLe(a: string, b: string) {
    a == [] || (b != [] && (a[0] < b[0] || (a[0] == b[0] && LexLe(a[1..], b[1..]))))
  }

  lemma {:induction false} LexTotal(a: string, b: string)
    ensures LexLe(a, b) || LexLe(b, a)
  {
    if a != [] && b != [] && a[0] == b[0] {
      LexTotal(a[1..], b[1..]);
    }
  }

  lemma {:induction false} LexAntisymmetric(a: string, b: string)
    requires LexLe(a, b) && LexLe(b, a)
    ensures a == b
  {
    if a != [] {
      LexAntisymmetric(a[1..], b[1..]);
      assert a == [a[0]] + a[1..] && b == [b[0]] + b[1..];
    }
  }

  lemma {:induction false} LexTransitive(a: string, b: string, c: string)
    requires LexLe(a, b) && LexLe(b, c)
    ensures LexLe(a, c)
  {
    if a != [] && a[0] == b[0] && b[0] == c[0] {
      LexTransitive(a[1..], b[1..], c[1..]);
    }
  }

  function InsertSorted(x: string, xs: seq<string>): seq<string> {
    if xs == [] || LexLe(x, xs[0]) then [x] + xs else [xs[0]] + InsertSorted(x, xs[1..])
  }

  function Sort(xs: seq<string>): seq<string> {
    if xs == [] then [] else InsertSorted(xs[0], Sort(xs[1..]))
  }

  ghost predicate Ordered(xs: seq<string>) {
    xs == [] || ((forall x :: x in xs ==> LexLe(xs[0], x)) && Ordered(xs[1..]))
  }

  lemma {:induction false} InsertSortedPermutes(x: string, xs: seq<string>)
    ensures multiset(InsertSorted(x, xs)) == multiset(xs) + multiset{x}
  {
    if xs != [] && !LexLe(x, xs[0]) {
      InsertSortedPermutes(x, xs[1..]);
      assert xs == [xs[0]] + xs[1..];
    }
  }

  lemma {:induction false} InsertSortedOrders(x: string, xs: seq<string>)
    requires Ordered(xs)
    ensures Ordered(InsertSorted(x, xs))
  {
    hide LexLe;
    var r := InsertSorted(x, xs);
    if xs == [] || LexLe(x, xs[0]) {
      assert r[1..] == xs;
      hide InsertSorted;
      forall y | y in r ensures LexLe(x, y) {
        if y in xs { LexTransitive(x, xs[0], y); } else { LexTotal(x, x); }
      }
    } else {
      LexTotal(x, xs[0]);
      InsertSortedOrders(x, xs[1..]);
      InsertSortedPermutes(x, xs[1..]);
      assert r[1..] == InsertSorted(x, xs[1..]);
      hide InsertSorted;
      forall y | y in r ensures LexLe(xs[0], y) {
        if y != xs[0] {
          assert y in multiset(r[1..]);
        } else {
          LexTotal(y, y);
        }
      }
    }
  }

  lemma {:induction false} SortMeaning(xs: seq<string>)
    ensures Ordered(Sort(xs)) && multiset(Sort(xs)) == multiset(xs)
  {
    if xs != [] {
      SortMeaning(xs[1..]);
      InsertSortedOrders(xs[0], Sort(xs[1..]));
      InsertSortedPermutes(xs[0], Sort(xs[1..]));
      assert Sort(xs) == InsertSorted(xs[0], Sort(xs[1..]));
      assert xs == [xs[0]] + xs[1..];
      hide *;
    }
  }

  lemma RestsPermute(x: string, xs: seq<string>, ys: seq<string>)
    requires multiset([x] + xs) == multiset([x] + ys)
    ensures multiset(xs) == multiset(ys)
  {
    assert multiset([x] + xs) - multiset{x} == multiset(xs);
    assert multiset([x] + ys) - multiset{x} == multiset(ys);
  }

  lemma SameFirst(xs: seq<string>, ys: seq<string>)
    requires xs != [] && Ordered(xs) && Ordered(ys) && multiset(xs) == multiset(ys)
    ensures ys != [] && xs[0] == ys[0]
  {
    hide LexLe;
    assert |multiset(xs)| == |xs| && |multiset(ys)| == |ys|;
    assert xs[0] in multiset(ys) && ys[0] in multiset(xs);
    LexAntisymmetric(xs[0], ys[0]);
  }

  /** An ordered arrangement of given strings is unique. */
  lemma {:induction false} OrderedUnique(xs: seq<string>, ys: seq<string>)
    requires Ordered(xs) && Ordered(ys) && multiset(xs) == multiset(ys)
    ensures xs == ys
  {
    hide LexLe;
    if xs == [] {
      assert |multiset(ys)| == |ys|;
    } else {
      SameFirst(xs, ys);
      assert xs == [xs[0]] + xs[1..] && ys == [ys[0]] + ys[1..];
      RestsPermute(xs[0], xs[1..], ys[1..]);
      OrderedUnique(xs[1..], ys[1..]);
    }
  }

  /** The text that is hashed, and the key; the hash itself is a parameter. */
  function LockText(files: seq<string>): string { Join("|", Sort(files)) }

  function LockKey(hash: string -> int, files: seq<string>): int { hash(LockText(files)) }

  /** File lists that are permutations of each other contend, whatever the hash. */
  lemma PermutationsContend(hash: string -> int, a: seq<string>, b: seq<string>)
    requires multiset(a) == multiset(b)
    ensures LockKey(hash, a) == LockKey(hash, b)
  {
    SortMeaning(a);
    SortMeaning(b);
    OrderedUnique(Sort(a), Sort(b));
  }

  // ---- what the joined text remembers ------------------------------------------------------------

  /** The pieces of a text between its bars; the empty text is one empty piece. */
  function Pieces(s: string): (r: seq<string>)
    ensures r != []
  {
    if s == [] then [""]
    else
      var rest := Pieces(s[1..]);
      if s[0] == '|' then [""] + rest else [[s[0]] + rest[0]] + rest[1..]
  }

  lemma {:induction false} JoinOfPieces(s: string)
    ensures Join("|", Pieces(s)) == s
  {
    if s != [] {
      var rest := Pieces(s[1..]);
      JoinOfPieces(s[1..]);
      assert ([""] + rest)[1..] == rest;
      assert ([[s[0]] + rest[0]] + rest[1..])[1..] == rest[1..];
      assert s == [s[0]] + s[1..];
    }
  }

  lemma {:induction false} PiecesOfTwo(a: string, b: string)
    ensures Pieces(a + "|" + b) == Pieces(a) + Pieces(b)
  {
    hide Pieces;
    var s := a + "|" + b;
    PiecesStep(s);
    if a == [] {
      NoPieces();
      assert s[1..] == b && s[0] == '|';
    } else {
      assert s[1..] == a[1..] + "|" + b && s[0] == a[0];
      PiecesOfTwo(a[1..], b);
      PiecesStep(a);
      var rest, more := Pieces(a[1..]), Pieces(b);
      assert (rest + more)[1..] == rest[1..] + more;
    }
  }

  lemma NoPieces()
    ensures Pieces("") == [""]
  {
  }

  lemma PiecesStep(s: string)
    requires s != []
    ensures var rest := Pieces(s[1..]);
            Pieces(s) == if s[0] == '|' then [""] + rest else [[s[0]] + rest[0]] + rest[1..]
  {
  }

  /** All pieces of all names; no name at all leaves the same text as one empty name. */
  function NamePieces(names: seq<string>): seq<string> {
    if names == [] then [""]
    else if |names| == 1 then Pieces(names[0])
    else Pieces(names[0]) + NamePieces(names[1..])
  }

  lemma {:induction false} PiecesOfJoin(names: seq<string>)
    ensures Pieces(Join("|", names)) == NamePieces(names)
  {
    hide Pieces;
    if |names| > 1 {
      PiecesOfTwo(names[0], Join("|", names[1..]));
      PiecesOfJoin(names[1..]);
    } else if names == [] {
      NoPieces();
    }
  }

  ghost predicate Injective(hash: string -> int) {
    forall s, t :: hash(s) == hash(t) ==> s == t
  }

  /**
   With a collision-free hash, any two file lists contend exactly when the bar-separated pieces
   of their sorted names are the same, whatever the names contain.
   */
  lemma ContendExactly(hash: string -> int, a: seq<string>, b: seq<string>)
    requires Injective(hash)
    ensures LockKey(hash, a) == LockKey(hash, b) <==> NamePieces(Sort(a)) == NamePieces(Sort(b))
  {
    hide Sort, Join, Pieces, NamePieces;
    PiecesOfJoin(Sort(a));
    PiecesOfJoin(Sort(b));
    JoinOfPieces(LockText(a));
    JoinOfPieces(LockText(b));
  }

  lemma {:induction false} WholePiece(s: string)
    requires PipeFree(s)
    ensures Pieces(s) == [s]
  {
    if s != [] {
      assert s[0] in s && forall c | c in s[1..] :: c in s;
      WholePiece(s[1..]);
      assert s == [s[0]] + s[1..];
    }
  }

  lemma {:induction false} WholeNames(names: seq<string>)
    requires names != [] && forall x | x in names :: PipeFree(x)
    ensures NamePieces(names) == names
  {
    hide Pieces, PipeFree;
    WholePiece(names[0]);
    if |names| > 1 {
      WholeNames(names[1..]);
    }
  }

  /** So non-empty lists of names without bars contend exactly when they are permutations; disjoint ones never do. */
  lemma PlainNamesContendExactly(hash: string -> int, a: seq<string>, b: seq<string>)
    requires Injective(hash) && a != [] && b != []
    requires (forall x | x in a :: PipeFree(x)) && (forall x | x in b :: PipeFree(x))
    ensures LockKey(hash, a) == LockKey(hash, b) <==> multiset(a) == multiset(b)
  {
    hide PipeFree, Sort, LockKey, NamePieces;
    if multiset(a) == multiset(b) {
      PermutationsContend(hash, a, b);
    }
    SortMeaning(a);
    SortMeaning(b);
    SameMembers(a, Sort(a));
    SameMembers(b, Sort(b));
    ContendExactly(hash, a, b);
    WholeNames(Sort(a));
    WholeNames(Sort(b));
  }

  lemma SameMembers(a: seq<string>, b: seq<string>)
    requires multiset(a) == multiset(b)
    ensures (a == [] <==> b == []) && forall x :: x in a <==> x in b
  {
    assert |multiset(a)| == |a| && |multiset(b)| == |b|;
    forall x ensures x in a <==> x in b {
      assert x in a <==> x in multiset(a);
      assert x in b <==> x in multiset(b);
    }
  }

  /** A bar in a name breaks the promise for disjoint sets: these two lists share a key under every hash. */
  lemma BarInNameContends(hash: string -> int)
    ensures LockKey(hash, ["a|b"]) == LockKey(hash, ["a", "b"])
  {
    assert ["a|b"][1..] == [];
    assert Sort(["a|b"]) == ["a|b"];
    assert ["a", "b"][1..] == ["b"] && ["b"][1..] == [];
    assert Sort(["b"]) == ["b"];
    assert Sort(["a", "b"]) == ["a", "b"];
    assert Join("|", ["b"]) == "b";
    assert "a" + "|" + "b" == "a|b";
  }
}
