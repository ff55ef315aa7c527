/**
 The deduplication key of a bank statement row.  The hash is taken to be free of
 collisions, so the normalised text stands for it.
 */
module RowHash {
  import opened Core
  import opened Text
  import opened Decimal

  /** A parsed statement row, as far as the key looks at it; the date is its ISO text, "" if absent. */
  datatype Transaction = Transaction(date: string, amount: int, currency: string, reference: string, narrative: string)

  // ---- white space and words --------------------------------------------------------------

  /** re.sub of every run of white space by one blank. */
  function Collapse(s: string): string
    decreases |s|
  {
    if s == [] then []
    else if IsSpace(s[0]) then [' '] + Collapse(TrimLeft(s[1..]))
    else [s[0]] + Collapse(s[1..])
  }

  function WordLength(s: string): (n: nat)
    ensures n <= |s|
    ensures forall i :: 0 <= i < n ==> !IsSpace(s[i])
    ensures n < |s| ==> IsSpace(s[n])
    ensures s != [] && !IsSpace(s[0]) ==> n > 0
  {
    if s == [] || IsSpace(s[0]) then 0 else 1 + WordLength(s[1..])
  }

  /** The maximal runs of non-space characters, in order. */
  function Words(s: string): seq<string>
    decreases |s|
  {
    var t := TrimLeft(s);
    if t == [] then [] else [t[..WordLength(t)]] + Words(t[WordLength(t)..])
  }

  predicate Trimmed(s: string) {
    s == [] || (!IsSpace(s[0]) && !IsSpace(s[|s| - 1]))
  }

  lemma {:induction false} CollapseWord(s: string, n: nat)
    requires n <= |s| && forall i :: 0 <= i < n ==> !IsSpace(s[i])
    ensures Collapse(s) == s[..n] + Collapse(s[n..])
  {
    if n > 0 {
      CollapseWord(s[1..], n - 1);
      assert s[1..][n - 1..] == s[n..];
      assert s[..n] == [s[0]] + s[1..][..n - 1];
    } else {
      assert s[0..] == s;
    }
  }

  /** A trimmed text collapses to its words joined by single blanks. */
  lemma {:induction false} CollapseJoinsWords(s: string)
    requires Trimmed(s)
    ensures Collapse(s) == Join(" ", Words(s))
    decreases |s|
  {
    if s != [] {
      var n := WordLength(s);
      CollapseWord(s, n);
      if n < |s| {
        var t := TrimLeft(s[n..]);
        RestTrimmed(s, n);
        CollapseJoinsWords(t);
        assert TrimLeft(s) == s;
        assert Words(s) == [s[..n]] + Words(t);
        JoinCons(" ", s[..n], Words(t));
      } else {
        assert s[..n] == s && s[n..] == [];
        assert Words(s) == [s];
      }
    }
  }

  lemma JoinCons(sep: string, first: string, rest: seq<string>)
    requires rest != []
    ensures Join(sep, [first] + rest) == first + (sep + Join(sep, rest))
  {
    assert ([first] + rest)[1..] == rest;
  }

  /** After the first word of a trimmed text comes a blank, then a trimmed text with the remaining words. */
  lemma RestTrimmed(s: string, n: nat)
    requires Trimmed(s) && n == WordLength(s) < |s|
    ensures var t := TrimLeft(s[n..]);
            && Trimmed(t) && |t| < |s| && Words(t) == Words(s[n..]) && Words(t) != []
            && Collapse(s[n..]) == " " + Collapse(t)
  {
    var rest := s[n..];
    var t := TrimLeft(rest);
    TrimLeftDrops(rest);
    var k: nat :| DropsBlanks(rest, k);
    assert rest[|rest| - 1] == s[|s| - 1];
    assert k < |rest|;
    assert t[|t| - 1] == s[|s| - 1];
    assert TrimLeft(rest) == TrimLeft(rest[1..]);
  }

  predicate IsOneWord(w: string) { w != [] && forall c | c in w :: !IsSpace(c) }

  lemma {:induction false} WordsAreWords(s: string)
    ensures forall w | w in Words(s) :: IsOneWord(w)
    decreases |s|
  {
    var t := TrimLeft(s);
    if t != [] {
      WordsAreWords(t[WordLength(t)..]);
    }
  }

  lemma WordThenBlank(w: string, tail: string)
    requires IsOneWord(w) && (tail == [] || IsSpace(tail[0]))
    ensures Words(w + tail) == [w] + Words(tail)
  {
    var s := w + tail;
    var n := WordLength(s);
    assert forall i :: 0 <= i < |w| ==> s[i] == w[i] && w[i] in w;
    assert |w| < |s| ==> s[|w|] == tail[0];
    assert n == |w|;
    assert s[..n] == w && s[n..] == tail;
  }

  /** Joining words with blanks and splitting again gives the words back. */
  lemma {:induction false} WordsOfJoin(ws: seq<string>)
    requires forall w | w in ws :: IsOneWord(w)
    ensures Words(Join(" ", ws)) == ws
  {
    hide Words, IsOneWord;
    if ws == [] {
      NoWords();
    } else {
      var w, rest := ws[0], ws[1..];
      assert ws == [w] + rest;
      if rest == [] {
        NoWords();
        WordThenBlank(w, []);
        assert w + [] == w;
      } else {
        var tail := " " + Join(" ", rest);
        assert Join(" ", ws) == w + tail;
        WordThenBlank(w, tail);
        WordsAfterBlank(tail);
        assert tail[1..] == Join(" ", rest);
        WordsOfJoin(rest);
      }
    }
  }

  lemma NoWords()
    ensures Words("") == []
  {
  }

  lemma {:induction false} TrimRightWords(s: string)
    ensures Words(TrimRight(s)) == Words(s)
  {
    if s != [] && IsSpace(s[|s| - 1]) {
      TrimRightWords(s[..|s| - 1]);
      DropLastBlank(s);
    }
  }

  lemma WordsAfterBlank(s: string)
    requires s != [] && IsSpace(s[0])
    ensures Words(s) == Words(s[1..])
  {
  }

  lemma WordsAfterWord(s: string)
    requires s != [] && !IsSpace(s[0])
    ensures var n := WordLength(s); n > 0 && Words(s) == [s[..n]] + Words(s[n..])
  {
  }

  lemma {:induction false} DropLastBlank(s: string)
    requires s != [] && IsSpace(s[|s| - 1])
    ensures Words(s[..|s| - 1]) == Words(s)
    decreases |s|
  {
    hide Words, WordLength;
    var init := s[..|s| - 1];
    if IsSpace(s[0]) {
      WordsAfterBlank(s);
      if |s| > 1 {
        DropLastBlank(s[1..]);
        WordsAfterBlank(init);
        assert s[1..][..|s| - 2] == init[1..];
      } else {
        assert s[1..] == init;
      }
    } else {
      var n := WordLength(s);
      WordsAfterWord(s);
      assert n <= |init|;
      WordLengthPrefix(s, |init|);
      WordsAfterWord(init);
      assert s[n..][..|s[n..]| - 1] == init[n..];
      assert s[..n] == init[..n];
      DropLastBlank(s[n..]);
    }
  }

  lemma WordLengthPrefix(s: string, m: nat)
    requires WordLength(s) <= m <= |s|
    ensures WordLength(s[..m]) == WordLength(s)
  {
    var n, p := WordLength(s), WordLength(s[..m]);
    assert forall i :: 0 <= i < m ==> s[..m][i] == s[i];
    assert p <= n && n <= p;
  }

  lemma StripWords(s: string)
    ensures Words(Strip(s)) == Words(s)
  {
    TrimRightWords(TrimLeft(s));
    TrimLeftDrops(s);
  }

  lemma StripTrimmed(s: string)
    ensures Trimmed(Strip(s))
  {
    TrimRightPrefix(TrimLeft(s));
  }

  /** Upper-casing moves no white space. */
  lemma {:induction false} UpperTrimLeft(s: string)
    ensures TrimLeft(Upper(s)) == Upper(TrimLeft(s))
  {
    if s != [] && IsSpace(s[0]) {
      UpperTrimLeft(s[1..]);
    }
  }

  lemma {:induction false} UpperTrimRight(s: string)
    ensures TrimRight(Upper(s)) == Upper(TrimRight(s))
  {
    if s != [] {
      var init, last, u := s[..|s| - 1], s[|s| - 1], Upper(s);
      UpperInit(s);
      assert IsSpace(last) <==> IsSpace(u[|u| - 1]);
      if IsSpace(last) {
        assert TrimRight(s) == TrimRight(init) && TrimRight(u) == TrimRight(Upper(init));
        hide *;
        UpperTrimRight(init);
      }
    }
  }

  lemma UpperInit(s: string)
    requires s != []
    ensures Upper(s)[..|s| - 1] == Upper(s[..|s| - 1])
  {
    hide Upper, UpperChar;
    var n := |s| - 1;
    var l, r := Upper(s)[..n], Upper(s[..n]);
    assert |l| == |r|;
    forall i | 0 <= i < |l| ensures l[i] == r[i] {
      assert s[..n][i] == s[i] && l[i] == Upper(s)[i];
    }
  }

  lemma UpperStrip(s: string)
    ensures Upper(Strip(s)) == Strip(Upper(s))
  {
    UpperTrimLeft(s);
    UpperTrimRight(TrimLeft(s));
  }

  // ---- the key -------------------------------------------------------------------------------

  /** The narrative, stripped, upper-cased and with every white-space run a single blank. */
  function NormalNarrative(s: string): string { Collapse(Upper(Strip(s))) }

  /** Two narratives normalise alike exactly when their upper-cased words are the same. */
  lemma NarrativesNormaliseAlike(a: string, b: string)
    ensures NormalNarrative(a) == NormalNarrative(b) <==> Words(Upper(a)) == Words(Upper(b))
  {
    NormalIsJoin(a);
    NormalIsJoin(b);
    WordsOfJoin(Words(Upper(a)));
    WordsOfJoin(Words(Upper(b)));
  }

  lemma NormalIsJoin(s: string)
    ensures NormalNarrative(s) == Join(" ", Words(Upper(s)))
    ensures forall w | w in Words(Upper(s)) :: IsOneWord(w)
  {
    UpperStrip(s);
    StripTrimmed(Upper(s));
    StripWords(Upper(s));
    CollapseJoinsWords(Strip(Upper(s)));
    WordsAreWords(Upper(s));
  }

  function NarrativePart(s: string): string {
    var n := NormalNarrative(s);
    if |n| <= 200 then n else n[..200]
  }

  /** Two decimals, sign first. */
  function AmountPart(cents: int): string {
    var n: nat := if cents < 0 then -cents else cents;
    (if cents < 0 then "-" else "") + Digits(n / 100) + "." + TwoDigits(n % 100)
  }

  /** An account id of zero prints like a missing one. */
  function AccountPart(account: Option<nat>): string {
    if account.None? || account.value == 0 then "" else Digits(account.value)
  }

  function Parts(account: Option<nat>, t: Transaction): (r: seq<string>)
    ensures |r| == 6
  {
    [AccountPart(account), t.date, AmountPart(t.amount), Strip(Upper(t.currency)), Upper(Strip(t.reference)),
     NarrativePart(t.narrative)]
  }

  function Key(account: Option<nat>, t: Transaction): string {
    Join("|", Parts(account, t))
  }

  /** Joined with bars, fronts of one length that are free of bars are determined, and so is the text after them. */
  lemma {:induction false} JoinFront(p: seq<string>, r: seq<string>, q: seq<string>, s: seq<string>)
    requires |p| == |q| && r != [] && s != []
    requires forall i :: 0 <= i < |p| ==> PipeFree(p[i]) && PipeFree(q[i])
    ensures Join("|", p + r) == Join("|", q + s) <==> p == q && Join("|", r) == Join("|", s)
  {
    hide Join, PipeFree;
    if p == [] {
      assert p + r == r && q + s == s;
    } else {
      JoinOne(p, r);
      JoinOne(q, s);
      if Join("|", p + r) == Join("|", q + s) {
        FirstBar(p[0], Join("|", p[1..] + r), q[0], Join("|", q[1..] + s));
      }
      JoinFront(p[1..], r, q[1..], s);
      assert p == [p[0]] + p[1..] && q == [q[0]] + q[1..];
    }
  }

  lemma JoinOne(p: seq<string>, r: seq<string>)
    requires p != [] && r != []
    ensures Join("|", p + r) == p[0] + "|" + Join("|", p[1..] + r)
  {
    assert (p + r)[1..] == p[1..] + r;
  }

  lemma DigitsPipeFree(n: nat)
    ensures PipeFree(Digits(n))
  {
    var s := Digits(n);
    forall c | c in s ensures c != '|' {
      var i :| 0 <= i < |s| && s[i] == c;
    }
  }

  lemma AccountPartPipeFree(account: Option<nat>)
    ensures PipeFree(AccountPart(account))
  {
    if account.Some? {
      DigitsPipeFree(account.value);
    }
    hide Digits;
  }

  lemma AmountPartPipeFree(cents: int)
    ensures PipeFree(AmountPart(cents))
  {
    var n: nat := if cents < 0 then -cents else cents;
    DigitsPipeFree(n / 100);
    var t := TwoDigits(n % 100);
    assert PipeFree(t) by {
      forall c | c in t ensures c != '|' { var i :| 0 <= i < |t| && t[i] == c; }
    }
  }

  /** The sign, whole part and cents of a printed amount, read back by position. */
  lemma AmountPartShape(cents: int)
    ensures var n: nat := if cents < 0 then -cents else cents;
            var s := AmountPart(cents);
            && |s| >= 4
            && (cents < 0 <==> s[0] == '-')
            && s[if cents < 0 then 1 else 0..|s| - 3] == Digits(n / 100)
            && s[|s| - 2..] == TwoDigits(n % 100)
  {
    var n: nat := if cents < 0 then -cents else cents;
    assert IsDigit(Digits(n / 100)[0]);
    hide Digits, TwoDigits;
  }

  lemma AmountPartInjective(a: int, b: int)
    requires AmountPart(a) == AmountPart(b)
    ensures a == b
  {
    var m: nat := if a < 0 then -a else a;
    var n: nat := if b < 0 then -b else b;
    AmountPartShape(a);
    AmountPartShape(b);
    hide AmountPart, Digits, TwoDigits;
    DigitsInjective(m / 100, n / 100);
    NatOfTwoDigits(m % 100);
    NatOfTwoDigits(n % 100);
  }

  lemma JoinSingle(x: string)
    ensures Join("|", [x]) == x
  {
  }

  lemma JoinThree(c: string, r: string, n: string)
    ensures Join("|", [c, r, n]) == c + "|" + (r + "|" + n)
  {
    assert [c, r, n][1..] == [r, n] && [r, n][1..] == [n];
    JoinSingle(n);
    assert Join("|", [r, n]) == r + "|" + n;
  }

  lemma KeyUnfold(account: Option<nat>, t: Transaction)
    ensures Key(account, t)
         == Join("|", [AccountPart(account), t.date, AmountPart(t.amount)]
                      + [Strip(Upper(t.currency)) + "|" + (Upper(Strip(t.reference)) + "|" + NarrativePart(t.narrative))])
  {
    hide AccountPart, AmountPart, NarrativePart, Upper, Strip;
    var front := [AccountPart(account), t.date, AmountPart(t.amount)];
    var c, r, n := Strip(Upper(t.currency)), Upper(Strip(t.reference)), NarrativePart(t.narrative);
    assert Parts(account, t) == front + [c, r, n];
    JoinThree(c, r, n);
    JoinSingle(c + "|" + (r + "|" + n));
    JoinTail(front, [c, r, n], [c + "|" + (r + "|" + n)]);
  }

  /** The narrative as its upper-cased words, single blanks between them, cut at 200 characters. */
  function Told(narrative: string): string {
    var text := Join(" ", Words(Upper(narrative)));
    if |text| > 200 then text[..200] else text
  }

  lemma NarrativePartTold(s: string)
    ensures NarrativePart(s) == Told(s)
  {
    NormalIsJoin(s);
    hide NormalNarrative, Words, Upper, Join;
  }

  /** The free text of a row: upper-cased currency, reference and words of the narrative, with bars between. */
  function Described(t: Transaction): string {
    Strip(Upper(t.currency)) + "|" + (Upper(Strip(t.reference)) + "|" + Told(t.narrative))
  }

  /**
   Two rows of one account share a key exactly when date and amount agree, and the text made of
   currency, reference and narrative does.  Dates are ISO texts, so free of bars; the rest may
   contain any.
   */
  lemma KeysAgreeExactly(account: Option<nat>, s: Transaction, t: Transaction)
    requires PipeFree(s.date) && PipeFree(t.date)
    ensures Key(account, s) == Key(account, t) <==> s.date == t.date && s.amount == t.amount && Described(s) == Described(t)
  {
    hide AmountPart, AccountPart, PipeFree, Key, Join, Strip, Upper, NarrativePart, Told;
    var p, q := [AccountPart(account), s.date, AmountPart(s.amount)], [AccountPart(account), t.date, AmountPart(t.amount)];
    NarrativePartTold(s.narrative);
    NarrativePartTold(t.narrative);
    KeyUnfold(account, s);
    KeyUnfold(account, t);
    AccountPartPipeFree(account);
    AmountPartPipeFree(s.amount);
    AmountPartPipeFree(t.amount);
    JoinFront(p, [Described(s)], q, [Described(t)]);
    JoinSingle(Described(s));
    JoinSingle(Described(t));
    if p == q {
      assert p[1] == q[1] && p[2] == q[2];
      AmountPartInjective(s.amount, t.amount);
    }
  }

  /** Currencies free of bars are told apart too: then only the border of reference and narrative is lost. */
  lemma KeysAgreeWithPlainCurrency(account: Option<nat>, s: Transaction, t: Transaction)
    requires PipeFree(s.date) && PipeFree(t.date) && PipeFree(Strip(Upper(s.currency))) && PipeFree(Strip(Upper(t.currency)))
    ensures Key(account, s) == Key(account, t) <==>
              && s.date == t.date && s.amount == t.amount && Strip(Upper(s.currency)) == Strip(Upper(t.currency))
              && Upper(Strip(s.reference)) + "|" + Told(s.narrative) == Upper(Strip(t.reference)) + "|" + Told(t.narrative)
  {
    hide Key, Upper, Strip, Told, PipeFree;
    KeysAgreeExactly(account, s, t);
    if Described(s) == Described(t) {
      FirstBar(Strip(Upper(s.currency)), Upper(Strip(s.reference)) + "|" + Told(s.narrative),
               Strip(Upper(t.currency)), Upper(Strip(t.reference)) + "|" + Told(t.narrative));
    }
  }

  /** Date, amount, and currency, reference and narrative up to case and white space agree, the narrative in its first 200 characters. */
  predicate SameTransaction(s: Transaction, t: Transaction) {
    && s.date == t.date && s.amount == t.amount
    && Strip(Upper(s.currency)) == Strip(Upper(t.currency)) && Upper(Strip(s.reference)) == Upper(Strip(t.reference))
    && Told(s.narrative) == Told(t.narrative)
  }

  /** No bar where a field of the key ends. */
  predicate BarFree(t: Transaction) {
    PipeFree(t.date) && PipeFree(Strip(Upper(t.currency))) && PipeFree(Upper(Strip(t.reference)))
  }

  /** And with references free of bars, every normalised field is. */
  lemma KeysAgreeFieldByField(account: Option<nat>, s: Transaction, t: Transaction)
    requires BarFree(s) && BarFree(t)
    ensures Key(account, s) == Key(account, t) <==> SameTransaction(s, t)
  {
    hide Key, Upper, Strip, Told, PipeFree;
    KeysAgreeWithPlainCurrency(account, s, t);
    if Upper(Strip(s.reference)) + "|" + Told(s.narrative) == Upper(Strip(t.reference)) + "|" + Told(t.narrative) {
      FirstBar(Upper(Strip(s.reference)), Told(s.narrative), Upper(Strip(t.reference)), Told(t.narrative));
    }
  }

  /** Keys of different accounts differ, but an account id of zero counts as none. */
  lemma KeyTellsAccount(a: nat, b: nat, s: Transaction, t: Transaction)
    ensures Key(Some(a), s) == Key(Some(b), t) ==> a == b
    ensures Key(Some(0), t) == Key(None, t)
  {
    var p, q := Parts(Some(a), s), Parts(Some(b), t);
    hide Key, Join, Digits, NarrativePart, AmountPart, Upper, Strip;
    AccountPartPipeFree(Some(a));
    AccountPartPipeFree(Some(b));
    assert p == [AccountPart(Some(a))] + p[1..] && q == [AccountPart(Some(b))] + q[1..];
    JoinFront([AccountPart(Some(a))], p[1..], [AccountPart(Some(b))], q[1..]);
    KeyIsJoin(Some(a), s);
    KeyIsJoin(Some(b), t);
    KeyIsJoin(Some(0), t);
    KeyIsJoin(None, t);
    assert Parts(Some(0), t) == Parts(None, t);
    if AccountPart(Some(a)) == AccountPart(Some(b)) && a > 0 && b > 0 {
      DigitsInjective(a, b);
    }
  }

  lemma KeyIsJoin(account: Option<nat>, t: Transaction)
    ensures Key(account, t) == Join("|", Parts(account, t))
  {
  }

  /** Rows that differ only in the case or the white-space runs of the narrative are one row to the ledger. */
  lemma CaseAndSpacingDoNotMatter(account: Option<nat>, t: Transaction, narrative: string)
    requires Words(Upper(t.narrative)) == Words(Upper(narrative))
    ensures Key(account, t) == Key(account, t.(narrative := narrative))
  {
    NarrativesNormaliseAlike(t.narrative, narrative);
  }

  /** A bar in the reference breaks this: two different transactions with one key. */
  lemma BarInReferenceCollides(account: Option<nat>, t: Transaction)
    ensures Key(account, t.(reference := "A|B", narrative := "C")) == Key(account, t.(reference := "A", narrative := "B|C"))
  {
    hide Parts, NormalNarrative, NarrativePart, Upper, Strip, Join;
    BarPart("A|B", "C");
    BarPart("A", "B|C");
    BarJoin();
    JoinTail(Parts(account, t)[..4], ["A|B", "C"], ["A", "B|C"]);
    PartsSplit(account, t, "A|B", "C");
    PartsSplit(account, t, "A", "B|C");
  }

  lemma BarJoin()
    ensures Join("|", ["A|B", "C"]) == Join("|", ["A", "B|C"])
  {
    assert ["A|B", "C"][1..] == ["C"] && ["A", "B|C"][1..] == ["B|C"];
    assert "A|B" + "|" + "C" == "A" + "|" + "B|C";
  }

  lemma BarPart(reference: string, narrative: string)
    requires (reference == "A|B" && narrative == "C") || (reference == "A" && narrative == "B|C")
    ensures Upper(Strip(reference)) == reference && NarrativePart(narrative) == narrative
  {
    NormalPlain(reference);
    NormalPlain(narrative);
  }

  lemma PartsSplit(account: Option<nat>, t: Transaction, reference: string, narrative: string)
    requires Upper(Strip(reference)) == reference && NarrativePart(narrative) == narrative
    ensures Parts(account, t.(reference := reference, narrative := narrative))
         == Parts(account, t)[..4] + [reference, narrative]
  {
    hide Upper, Strip, NarrativePart, AmountPart, AccountPart;
  }

  /** Upper-case text without blanks is already normal. */
  lemma {:induction false} NormalPlain(s: string)
    requires forall i :: 0 <= i < |s| ==> !IsSpace(s[i]) && UpperChar(s[i]) == s[i]
    ensures NormalNarrative(s) == s && Upper(Strip(s)) == s
  {
    assert Upper(s) == s;
    CollapseWord(s, |s|);
    assert s[|s|..] == [];
  }

  lemma {:induction false} JoinTail(front: seq<string>, p: seq<string>, q: seq<string>)
    requires p != [] && q != [] && Join("|", p) == Join("|", q)
    ensures Join("|", front + p) == Join("|", front + q)
  {
    if front == [] {
      assert front + p == p && front + q == q;
    } else {
      JoinTail(front[1..], p, q);
      assert (front + p)[1..] == front[1..] + p && (front + q)[1..] == front[1..] + q;
    }
  }
}
