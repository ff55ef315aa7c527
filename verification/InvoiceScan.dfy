/**
 Finding a unit's own invoice numbers in free bank text, even where line wraps and padding
 have broken their digits apart.
 */
module InvoiceScan {
  import opened Core
  import opened Text
  import opened Decimal

  // ---- cleaning -------------------------------------------------------------------------------

  predicate IsBreak(c: char) { c == '\n' || c == '\r' }

  function DropBreaks(s: string): string {
    if s == [] then [] else (if IsBreak(s[0]) then [] else [s[0]]) + DropBreaks(s[1..])
  }

  /** Runs of blanks become one blank. */
  function Collapse(s: string): string {
    if |s| < 2 then s
    else if s[0] == ' ' && s[1] == ' ' then Collapse(s[1..])
    else [s[0]] + Collapse(s[1..])
  }

  function Clean(text: string): string { Strip(Collapse(DropBreaks(text))) }

  /** Drops each blank that stands between two digits; after says whether a digit came just before s. */
  function JoinDigits(after: bool, s: string): string
    decreases s
  {
    if s == [] then []
    else if s[0] == ' ' && after && |s| > 1 && IsDigit(s[1]) then JoinDigits(false, s[1..])
    else [s[0]] + JoinDigits(IsDigit(s[0]), s[1..])
  }

  // ---- the scan ---------------------------------------------------------------------------------

  /** How many word characters s starts with. */
  function RunLength(s: string): (n: nat)
    ensures n <= |s|
    ensures forall i :: 0 <= i < n ==> IsWord(s[i])
    ensures n < |s| ==> !IsWord(s[n])
  {
    if s == [] || !IsWord(s[0]) then 0 else 1 + RunLength(s[1..])
  }

  /** The maximal runs of word characters: what lies between word boundaries. */
  function Words(s: string): seq<string> {
    if s == [] then []
    else if !IsWord(s[0]) then Words(s[1..])
    else [s[..RunLength(s)]] + Words(s[RunLength(s)..])
  }

  /** Ten to sixteen digits, starting with the operating unit. */
  predicate IsInvoiceOf(w: string, ou: string) { AllDigits(w) && 10 <= |w| <= 16 && ou <= w }

  /** The numbers a scan of the text, as it stands and with its digits rejoined, comes up with. */
  function OuScan(text: string, ou: string): set<string> {
    if ou == "" then {}
    else set w | w in Words(text) + Words(JoinDigits(false, text)) && IsInvoiceOf(w, ou)
  }

  method ScanWords(words: seq<string>, ou: string, found: set<string>) returns (r: set<string>)
    ensures r == found + set w | w in words && IsInvoiceOf(w, ou)
  {
    r := found;
    for i := 0 to |words|
      invariant r == found + set w | w in words[..i] && IsInvoiceOf(w, ou)
    {
      assert words[..i + 1] == words[..i] + [words[i]];
      if IsInvoiceOf(words[i], ou) {
        r := r + {words[i]};
      }
    }
    assert words[..|words|] == words;
  }

  predicate LongestFirst(xs: seq<string>) {
    forall i, j :: 0 <= i < j < |xs| ==> |xs[i]| >= |xs[j]|
  }

  lemma {:induction false} SomeLongest(s: set<string>)
    requires s != {}
    ensures exists x :: x in s && forall y :: y in s ==> |y| <= |x|
  {
    var x :| x in s;
    if s != {x} {
      SomeLongest(s - {x});
      var y :| y in s - {x} && forall z :: z in s - {x} ==> |z| <= |y|;
      assert forall z :: z in s ==> z == x || z in s - {x};
      assert if |x| <= |y| then forall z :: z in s ==> |z| <= |y| else forall z :: z in s ==> |z| <= |x|;
    }
  }

  /** The part already ordered: no repeats, longest first, and nothing left is longer than its end. */
  ghost predicate Ordered(numbers: seq<string>, rest: set<string>) {
    && NoRepeats(numbers) && LongestFirst(numbers)
    && (forall n :: n in numbers ==> n !in rest)
    && (forall m, n :: m in numbers && n in rest ==> |m| >= |n|)
  }

  lemma OrderedMore(numbers: seq<string>, rest: set<string>, x: string)
    requires Ordered(numbers, rest) && x in rest && forall y :: y in rest ==> |y| <= |x|
    ensures Ordered(numbers + [x], rest - {x})
  {
    assert forall i :: 0 <= i < |numbers| ==> numbers[i] in numbers;
  }

  /** Longest first, in some order among equals. */
  method OrderByLength(found: set<string>) returns (numbers: seq<string>)
    ensures forall n :: n in numbers <==> n in found
    ensures NoRepeats(numbers) && LongestFirst(numbers)
  {
    numbers := [];
    var rest := found;
    while rest != {}
      invariant forall n :: n in found <==> n in numbers || n in rest
      invariant Ordered(numbers, rest)
      decreases rest
    {
      hide *;
      SomeLongest(rest);
      var x :| x in rest && forall y :: y in rest ==> |y| <= |x|;
      OrderedMore(numbers, rest, x);
      numbers := numbers + [x];
      rest := rest - {x};
    }
  }

  /** Both passes over the text. */
  method ExtractOuPrefixed(text: string, ou: string) returns (numbers: seq<string>)
    ensures forall n :: n in numbers <==> n in OuScan(text, ou)
    ensures NoRepeats(numbers) && LongestFirst(numbers)
  {
    hide IsInvoiceOf, Words, JoinDigits, NoRepeats, LongestFirst;
    if ou == "" {
      numbers := OrderByLength({});
    } else {
      var found := ScanWords(Words(text), ou, {});
      found := ScanWords(Words(JoinDigits(false, text)), ou, found);
      assert found == OuScan(text, ou);
      numbers := OrderByLength(found);
    }
  }

  // ---- what cleaning does to a text in three parts ---------------------------------------------------

  lemma {:induction false} DropBreaksConcat(a: string, b: string)
    ensures DropBreaks(a + b) == DropBreaks(a) + DropBreaks(b)
  {
    if a == [] {
      assert a + b == b;
    } else {
      var s := a + b;
      assert s[0] == a[0] && s[1..] == a[1..] + b;
      assert DropBreaks(s) == (if IsBreak(a[0]) then [] else [a[0]]) + DropBreaks(a[1..] + b);
      assert DropBreaks(a) == (if IsBreak(a[0]) then [] else [a[0]]) + DropBreaks(a[1..]);
      hide DropBreaks;
      DropBreaksConcat(a[1..], b);
    }
  }

  lemma {:induction false} CollapseEnds(s: string)
    requires s != []
    ensures Collapse(s) != [] && Collapse(s)[0] == s[0] && Collapse(s)[|Collapse(s)| - 1] == s[|s| - 1]
  {
    if |s| >= 2 { CollapseEnds(s[1..]); }
  }

  lemma CollapseStep(c: char, tail: string)
    ensures Collapse([c] + tail) == if c == ' ' && tail != [] && tail[0] == ' ' then Collapse(tail) else [c] + Collapse(tail)
  {
    assert ([c] + tail)[1..] == tail;
  }

  lemma {:induction false} CollapseConcat(a: string, b: string)
    requires a == [] || b == [] || a[|a| - 1] != ' ' || b[0] != ' '
    ensures Collapse(a + b) == Collapse(a) + Collapse(b)
  {
    hide Collapse;
    if a == [] {
      CollapseNothing();
      assert a + b == b;
    } else if b == [] {
      CollapseNothing();
      assert a + b == a;
    } else {
      var c, tail := a[0], a[1..];
      assert a == [c] + tail && a + b == [c] + (tail + b);
      CollapseStep(c, tail);
      CollapseStep(c, tail + b);
      CollapseConcat(tail, b);
      assert tail == [] ==> tail + b == b && c == a[|a| - 1];
      assert tail != [] ==> (tail + b)[0] == tail[0];
    }
  }

  lemma CollapseNothing()
    ensures Collapse("") == ""
  {
  }

  lemma {:induction false} TrimRightConcat(a: string, b: string)
    requires a != [] && !IsSpace(a[|a| - 1])
    ensures TrimRight(a + b) == a + TrimRight(b)
  {
    if b == [] {
      assert a + b == a;
    } else if IsSpace(b[|b| - 1]) {
      assert (a + b)[..|a + b| - 1] == a + b[..|b| - 1];
      TrimRightConcat(a, b[..|b| - 1]);
    }
  }

  // ---- what cleaning keeps ---------------------------------------------------------------------------

  /** The characters that are no white space. */
  function Solid(s: string): string {
    if s == [] then [] else (if IsSpace(s[0]) then [] else [s[0]]) + Solid(s[1..])
  }

  lemma {:induction false} SolidConcat(a: string, b: string)
    ensures Solid(a + b) == Solid(a) + Solid(b)
  {
    if a == [] {
      assert a + b == b;
    } else {
      assert (a + b)[1..] == a[1..] + b;
      SolidConcat(a[1..], b);
    }
  }

  lemma {:induction false} SolidBlank(s: string)
    requires forall i :: 0 <= i < |s| ==> IsSpace(s[i])
    ensures Solid(s) == ""
  {
    if s != [] { SolidBlank(s[1..]); }
  }

  lemma SolidStep(c: char, tail: string)
    ensures Solid([c] + tail) == if IsSpace(c) then Solid(tail) else [c] + Solid(tail)
  {
    assert ([c] + tail)[1..] == tail;
    assert [] + Solid(tail) == Solid(tail);
  }

  lemma {:induction false} DropBreaksTidies(s: string)
    ensures Solid(DropBreaks(s)) == Solid(s)
    ensures forall i :: 0 <= i < |DropBreaks(s)| ==> !IsBreak(DropBreaks(s)[i])
  {
    if s != [] {
      var c, tail := s[0], s[1..];
      DropBreaksTidies(tail);
      SolidStep(c, tail);
      SolidStep(c, DropBreaks(tail));
      assert s == [c] + tail && (IsBreak(c) ==> IsSpace(c));
      assert DropBreaks(s) == if IsBreak(c) then DropBreaks(tail) else [c] + DropBreaks(tail);
      hide Solid, DropBreaks, IsSpace, IsBreak;
    }
  }

  lemma {:induction false} CollapseTidies(s: string)
    requires forall i :: 0 <= i < |s| ==> !IsBreak(s[i])
    ensures Solid(Collapse(s)) == Solid(s)
    ensures SingleBlanks(Collapse(s)) && forall i :: 0 <= i < |Collapse(s)| ==> !IsBreak(Collapse(s)[i])
  {
    if s == [] {
      CollapseNothing();
    } else {
      var c, tail := s[0], s[1..];
      CollapseTidies(tail);
      if tail == [] {
        CollapseNothing();
      } else {
        CollapseEnds(tail);
      }
      assert s == [c] + tail;
      CollapseStep(c, tail);
      SolidStep(c, tail);
      SolidStep(c, Collapse(tail));
      assert IsSpace(' ');
      hide Collapse, Solid, IsSpace, IsBreak;
    }
  }

  lemma SolidMiddle(l: string, m: string, r: string)
    requires (forall i :: 0 <= i < |l| ==> IsSpace(l[i])) && forall i :: 0 <= i < |r| ==> IsSpace(r[i])
    ensures Solid(l + m + r) == Solid(m)
  {
    hide Solid, IsSpace;
    SolidBlank(l);
    SolidBlank(r);
    SolidConcat(l + m, r);
    SolidConcat(l, m);
    assert "" + Solid(m) + "" == Solid(m);
  }

  lemma StripTidies(s: string)
    ensures Solid(Strip(s)) == Solid(s)
    ensures SingleBlanks(s) ==> SingleBlanks(Strip(s))
    ensures (forall i :: 0 <= i < |s| ==> !IsBreak(s[i])) ==> forall i :: 0 <= i < |Strip(s)| ==> !IsBreak(Strip(s)[i])
  {
    var i, j := StripMeaning(s);
    hide Strip, IsSpace, Solid, IsBreak;
    SolidMiddle(s[..i], s[i..j], s[j..]);
    assert s == s[..i] + s[i..j] + s[j..];
  }

  /**
   Cleaning keeps the characters that are no white space, in order, and leaves no line break, no
   two blanks in a row and no white space at the ends.
   */
  lemma CleanMeaning(text: string)
    ensures Solid(Clean(text)) == Solid(text)
    ensures SingleBlanks(Clean(text)) && forall i :: 0 <= i < |Clean(text)| ==> Clean(text)[i] != '\n' && Clean(text)[i] != '\r'
    ensures Clean(text) != "" ==> !IsSpace(Clean(text)[0]) && !IsSpace(Clean(text)[|Clean(text)| - 1])
  {
    var dropped := DropBreaks(text);
    DropBreaksTidies(text);
    CollapseTidies(dropped);
    var s := Collapse(dropped);
    StripTidies(s);
    var _, _ := StripMeaning(s);
    assert forall c: char :: !IsBreak(c) ==> c != '\n' && c != '\r';
    hide Strip, IsSpace, Solid, Collapse, DropBreaks, IsBreak, SingleBlanks;
  }

  // ---- the broken number ---------------------------------------------------------------------------------

  function OnlyDigits(s: string): string {
    if s == [] then [] else (if IsDigit(s[0]) then [s[0]] else []) + OnlyDigits(s[1..])
  }

  predicate DigitEnds(s: string) { s != [] && IsDigit(s[0]) && IsDigit(s[|s| - 1]) }

  predicate DigitsAndBlanks(s: string) { forall i :: 0 <= i < |s| ==> IsDigit(s[i]) || s[i] == ' ' }

  predicate SingleBlanks(s: string) { forall i :: 0 <= i < |s| - 1 ==> !(s[i] == ' ' && s[i + 1] == ' ') }

  /** Digits with any runs of blanks and line breaks between them. */
  predicate IsBroken(s: string) {
    DigitEnds(s) && forall i :: 0 <= i < |s| ==> IsDigit(s[i]) || s[i] == ' ' || IsBreak(s[i])
  }

  lemma OnlyDigitsCons(c: char, rest: string)
    ensures OnlyDigits([c] + rest) == (if IsDigit(c) then [c] else []) + OnlyDigits(rest)
  {
    assert ([c] + rest)[1..] == rest;
  }

  lemma {:induction false} DropBreaksOfBroken(s: string)
    requires forall i :: 0 <= i < |s| ==> IsDigit(s[i]) || s[i] == ' ' || IsBreak(s[i])
    ensures DigitsAndBlanks(DropBreaks(s)) && OnlyDigits(DropBreaks(s)) == OnlyDigits(s)
    ensures s != [] && IsDigit(s[0]) ==> DropBreaks(s) != [] && IsDigit(DropBreaks(s)[0])
  {
    if s != [] {
      var rest := DropBreaks(s[1..]);
      DropBreaksOfBroken(s[1..]);
      OnlyDigitsCons(s[0], rest);
      assert DropBreaks(s) == if IsBreak(s[0]) then rest else [s[0]] + rest;
      assert OnlyDigits(s) == if IsDigit(s[0]) then [s[0]] + OnlyDigits(s[1..]) else OnlyDigits(s[1..]);
      hide DropBreaks, OnlyDigits;
    }
  }

  lemma DropBreaksDigit(c: char)
    requires IsDigit(c)
    ensures DropBreaks([c]) == [c]
  {
    assert [c][1..] == [];
  }

  lemma DropBreaksKeepsEnds(s: string)
    requires IsBroken(s)
    ensures DigitEnds(DropBreaks(s))
  {
    hide DropBreaks, OnlyDigits, DigitsAndBlanks;
    var n := |s| - 1;
    DropBreaksOfBroken(s);
    DropBreaksConcat(s[..n], [s[n]]);
    DropBreaksDigit(s[n]);
    assert s == s[..n] + [s[n]];
  }

  lemma SingleBlanksCons(c: char, rest: string)
    requires SingleBlanks(rest) && DigitsAndBlanks(rest) && rest != []
    ensures !(c == ' ' && rest[0] == ' ') ==> SingleBlanks([c] + rest)
    ensures IsDigit(c) || c == ' ' ==> DigitsAndBlanks([c] + rest)
  {
  }

  lemma {:induction false} CollapseOfBroken(s: string)
    requires DigitsAndBlanks(s)
    ensures var c := Collapse(s); DigitsAndBlanks(c) && SingleBlanks(c) && OnlyDigits(c) == OnlyDigits(s)
  {
    if |s| >= 2 {
      var rest := Collapse(s[1..]);
      CollapseOfBroken(s[1..]);
      CollapseEnds(s[1..]);
      OnlyDigitsCons(s[0], rest);
      assert Collapse(s) == if s[0] == ' ' && s[1] == ' ' then rest else [s[0]] + rest;
      assert OnlyDigits(s) == (if IsDigit(s[0]) then [s[0]] else []) + OnlyDigits(s[1..]);
      SingleBlanksCons(s[0], rest);
      hide Collapse, OnlyDigits, SingleBlanks;
    }
  }

  lemma JoinStep(after: bool, c: char, tail: string)
    ensures JoinDigits(after, [c] + tail) ==
            if c == ' ' && after && tail != [] && IsDigit(tail[0]) then JoinDigits(false, tail)
            else [c] + JoinDigits(IsDigit(c), tail)
  {
    assert ([c] + tail)[1..] == tail;
  }

  /** Rejoined, a broken number is whole again, and the text after it starts after a digit. */
  lemma {:induction false} JoinBroken(after: bool, w: string, rest: string)
    requires w != [] && IsDigit(w[|w| - 1]) && DigitsAndBlanks(w) && SingleBlanks(w)
    requires after || IsDigit(w[0])
    ensures JoinDigits(after, w + rest) == OnlyDigits(w) + JoinDigits(true, rest)
    decreases |w|
  {
    hide JoinDigits, OnlyDigits;
    var c, tail := w[0], w[1..];
    assert w == [c] + tail && w + rest == [c] + (tail + rest);
    OnlyDigitsCons(c, tail);
    JoinStep(after, c, tail + rest);
    if tail == [] {
      NoDigitsLeft();
      assert tail + rest == rest;
    } else {
      assert (tail + rest)[0] == tail[0] == w[1];
      JoinBroken(IsDigit(c), tail, rest);
    }
  }

  lemma NoDigitsLeft()
    ensures OnlyDigits("") == ""
  {
  }

  // ---- a clean context --------------------------------------------------------------------------------------

  function TrimBlanksRight(s: string): string {
    if s != [] && s[|s| - 1] == ' ' then TrimBlanksRight(s[..|s| - 1]) else s
  }

  function TrimBlanksLeft(s: string): string {
    if s != [] && s[0] == ' ' then TrimBlanksLeft(s[1..]) else s
  }

  /** Line breaks aside, the text before does not end in a word character, nor in a digit and blanks. */
  predicate ClearBefore(left: string) {
    var l := DropBreaks(left);
    && (l == [] || !IsWord(l[|l| - 1]))
    && (TrimBlanksRight(l) == [] || !IsDigit(TrimBlanksRight(l)[|TrimBlanksRight(l)| - 1]))
  }

  /** Line breaks aside, the text after does not start with a word character, nor with blanks and a digit. */
  predicate ClearAfter(right: string) {
    var r := DropBreaks(right);
    && (r == [] || !IsWord(r[0]))
    && (TrimBlanksLeft(r) == [] || !IsDigit(TrimBlanksLeft(r)[0]))
  }

  predicate TidyBefore(l: string) {
    l == [] || (!IsWord(l[|l| - 1]) && (l[|l| - 1] == ' ' && |l| > 1 ==> !IsDigit(l[|l| - 2])))
  }

  predicate TidyAfter(r: string) {
    r == [] || (!IsWord(r[0]) && (r[0] == ' ' && |r| > 1 ==> !IsDigit(r[1])))
  }

  lemma {:induction false} CollapseBefore(l: string)
    requires l == [] || !IsWord(l[|l| - 1])
    requires TrimBlanksRight(l) == [] || !IsDigit(TrimBlanksRight(l)[|TrimBlanksRight(l)| - 1])
    ensures TidyBefore(Collapse(l))
  {
    if l != [] {
      var n := |l| - 1;
      CollapseEnds(l);
      if l[n] == ' ' && n > 0 {
        if l[n - 1] == ' ' {
          CollapseDoubleEnd(l);
          CollapseBefore(l[..n]);
        } else {
          CollapseConcat(l[..n], [l[n]]);
          CollapseEnds(l[..n]);
          assert l == l[..n] + [l[n]];
        }
      }
    }
  }

  lemma {:induction false} CollapseDoubleEnd(l: string)
    requires |l| >= 2 && l[|l| - 1] == ' ' && l[|l| - 2] == ' '
    ensures Collapse(l) == Collapse(l[..|l| - 1])
  {
    var k := l[..|l| - 1];
    if |l| > 2 {
      CollapseDoubleEnd(l[1..]);
      assert l[1..][..|l[1..]| - 1] == k[1..];
    }
  }

  lemma {:induction false} CollapseAfter(r: string)
    requires r == [] || !IsWord(r[0])
    requires TrimBlanksLeft(r) == [] || !IsDigit(TrimBlanksLeft(r)[0])
    ensures TidyAfter(Collapse(r))
  {
    if r != [] {
      CollapseEnds(r);
      if r[0] == ' ' && |r| > 1 {
        if r[1] == ' ' {
          CollapseAfter(r[1..]);
        } else {
          CollapseEnds(r[1..]);
        }
      }
    }
  }

  lemma TidySuffix(l: string)
    requires TidyBefore(l)
    ensures TidyBefore(TrimLeft(l))
  {
    TrimLeftDrops(l);
    var k: nat :| DropsBlanks(l, k);
  }

  lemma TidyPrefix(r: string)
    requires TidyAfter(r)
    ensures TidyAfter(TrimRight(r))
  {
    TrimRightPrefix(r);
  }

  lemma UpperConcat(a: string, b: string)
    ensures Upper(a + b) == Upper(a) + Upper(b)
  {
    hide Upper, UpperChar;
    var l, r := Upper(a + b), Upper(a) + Upper(b);
    forall i | 0 <= i < |l| ensures l[i] == r[i] {
      if i >= |a| {
        assert (a + b)[i] == b[i - |a|];
      }
    }
  }

  lemma {:induction false} UpperOfDigits(w: string)
    requires DigitsAndBlanks(w)
    ensures Upper(w) == w
  {
    if w != [] { UpperOfDigits(w[1..]); }
  }

  lemma UpperTidy(l: string, r: string)
    requires TidyBefore(l) && TidyAfter(r)
    ensures TidyBefore(Upper(l)) && TidyAfter(Upper(r))
  {
    hide Upper;
  }

  /** Text before a number is rejoined on its own. */
  lemma {:induction false} JoinBefore(after: bool, l: string, rest: string)
    requires TidyBefore(l) && rest != [] && IsDigit(rest[0])
    requires l == [] ==> !after
    requires |l| == 1 ==> !(l[0] == ' ' && after)
    ensures JoinDigits(after, l + rest) == JoinDigits(after, l) + JoinDigits(false, rest)
    decreases |l|
  {
    hide JoinDigits, IsDigit, IsWord, TidyBefore;
    if l == [] {
      JoinNothing();
      assert l + rest == rest;
    } else {
      var c, tail := l[0], l[1..];
      assert l == [c] + tail && l + rest == [c] + (tail + rest);
      JoinStep(after, c, tail);
      JoinStep(after, c, tail + rest);
      assert tail != [] ==> (tail + rest)[0] == tail[0];
      TidyTail(l);
      var joined := c == ' ' && after && tail != [] && IsDigit(tail[0]);
      JoinBefore(!joined && IsDigit(c), tail, rest);
    }
  }

  lemma TidyTail(l: string)
    requires TidyBefore(l) && l != []
    ensures TidyBefore(l[1..])
    ensures |l| == 1 ==> !IsDigit(l[0])
    ensures |l| == 2 ==> !(l[1] == ' ' && IsDigit(l[0]))
  {
  }

  /** Rejoining keeps the last character. */
  lemma {:induction false} JoinKeepsEnd(after: bool, l: string)
    requires l != []
    ensures var j := JoinDigits(after, l); j != [] && j[|j| - 1] == l[|l| - 1]
    decreases |l|
  {
    if |l| > 1 {
      var joined := l[0] == ' ' && after && IsDigit(l[1]);
      JoinKeepsEnd(!joined && IsDigit(l[0]), l[1..]);
      assert l[0] == ' ' ==> !IsDigit(l[0]);
    }
  }

  lemma JoinAfter(r: string)
    requires TidyAfter(r)
    ensures JoinDigits(true, r) == [] || !IsWord(JoinDigits(true, r)[0])
  {
  }

  // ---- words -------------------------------------------------------------------------------------------------

  predicate AllWord(w: string) { forall i :: 0 <= i < |w| ==> IsWord(w[i]) }

  lemma WordsSkip(s: string)
    requires s != [] && !IsWord(s[0])
    ensures Words(s) == Words(s[1..])
  {
  }

  lemma WordsTake(s: string, k: nat)
    requires s != [] && IsWord(s[0]) && k == RunLength(s)
    ensures Words(s) == [s[..k]] + Words(s[k..])
  {
  }

  /** A run of word characters with none next to it is one of the words. */
  lemma {:induction false} WordFound(a: string, w: string, b: string)
    requires w != [] && AllWord(w)
    requires a == [] || !IsWord(a[|a| - 1])
    requires b == [] || !IsWord(b[0])
    ensures w in Words(a + w + b)
  {
    hide Words, RunLength;
    var s := a + w + b;
    if a == [] {
      RunLengthAt(w, b);
      assert s == w + b && s[..|w|] == w && s[0] == w[0];
      WordsTake(s, |w|);
    } else if !IsWord(a[0]) {
      assert s[0] == a[0] && s[1..] == a[1..] + w + b;
      WordsSkip(s);
      WordFound(a[1..], w, b);
    } else {
      RunLengthInside(a, w + b);
      assert s == a + (w + b) && s[0] == a[0];
      var k := RunLength(s);
      assert s[k..] == a[k..] + w + b;
      WordsTake(s, k);
      WordFound(a[k..], w, b);
    }
  }

  lemma RunLengthAt(w: string, b: string)
    requires AllWord(w) && (b == [] || !IsWord(b[0]))
    ensures RunLength(w + b) == |w|
  {
    var s, k := w + b, RunLength(w + b);
    hide RunLength;
    assert forall i :: 0 <= i < |w| ==> s[i] == w[i];
    if b != [] {
      assert s[|w|] == b[0];
    }
  }

  lemma RunLengthInside(a: string, b: string)
    requires a != [] && IsWord(a[0]) && !IsWord(a[|a| - 1])
    ensures 0 < RunLength(a + b) < |a|
  {
    var s := a + b;
    hide RunLength;
    assert s[|a| - 1] == a[|a| - 1] && s[0] == a[0];
  }

  /** w stands in s with no word character on either side. */
  ghost predicate Bounded(s: string, w: string) {
    exists a, b :: s == a + w + b && StandsFree(a, b)
  }

  predicate StandsFree(a: string, b: string) {
    (a == [] || !IsWord(a[|a| - 1])) && (b == [] || !IsWord(b[0]))
  }

  lemma BoundedFurther(front: string, s: string, w: string)
    requires front != [] && w != [] && AllWord(w) && Bounded(s, w)
    requires IsWord(front[|front| - 1]) ==> s == [] || !IsWord(s[0])
    ensures Bounded(front + s, w)
  {
    var a, b :| s == a + w + b && StandsFree(a, b);
    assert a == [] ==> s[0] == w[0];
    assert front + s == (front + a) + w + b;
    assert a != [] ==> (front + a)[|front + a| - 1] == a[|a| - 1];
    assert a == [] ==> front + a == front;
    assert StandsFree(front + a, b);
  }

  /** And every word is such a run. */
  lemma {:induction false} WordsAreBounded(s: string, w: string)
    requires w in Words(s)
    ensures w != [] && AllWord(w) && Bounded(s, w)
    decreases |s|
  {
    hide Words, RunLength, Bounded;
    if s == [] {
      NoWords();
    } else if !IsWord(s[0]) {
      WordsSkip(s);
      WordsAreBounded(s[1..], w);
      BoundedFurther(s[..1], s[1..], w);
      assert s[..1] + s[1..] == s;
    } else {
      var k := RunLength(s);
      FirstRun(s);
      WordsTake(s, k);
      if w in Words(s[k..]) {
        WordsAreBounded(s[k..], w);
        BoundedFurther(s[..k], s[k..], w);
        assert s[..k] + s[k..] == s;
      }
    }
  }

  lemma NoWords()
    ensures Words("") == []
  {
  }

  lemma FirstRun(s: string)
    requires s != [] && IsWord(s[0])
    ensures var k := RunLength(s); k > 0 && AllWord(s[..k]) && Bounded(s, s[..k])
  {
    var k := RunLength(s);
    assert k > 0;
    hide RunLength;
    assert s == [] + s[..k] + s[k..] && StandsFree([], s[k..]);
  }

  /**
   The scan exactly: a string comes out if and only if it is ten to sixteen digits that start with
   the unit, and it stands free of word characters in the text or in the text with its digits rejoined.
   */
  lemma ScanExactly(text: string, ou: string, n: string)
    ensures n in OuScan(text, ou) <==>
              && ou != "" && ou <= n && 10 <= |n| <= 16 && (forall i :: 0 <= i < |n| ==> '0' <= n[i] <= '9')
              && (Bounded(text, n) || Bounded(Rejoined(text, 0), n))
  {
    RejoinedExactly(text, 0);
    assert text[0..] == text;
    hide Words, JoinDigits, Bounded, Rejoined;
    if IsInvoiceOf(n, ou) {
      assert n != [] && AllWord(n);
      FreeIsWord(text, n);
      FreeIsWord(JoinDigits(false, text), n);
    }
  }

  /** A blank between two digits of the text. */
  predicate BetweenDigits(s: string, i: nat) {
    0 < i < |s| - 1 && s[i] == ' ' && IsDigit(s[i - 1]) && IsDigit(s[i + 1])
  }

  /** The text from position i on, without the blanks that stand between two digits. */
  function Rejoined(s: string, i: nat): string
    requires i <= |s|
    decreases |s| - i
  {
    if i == |s| then [] else (if BetweenDigits(s, i) then [] else [s[i]]) + Rejoined(s, i + 1)
  }

  lemma {:induction false} RejoinedExactly(s: string, i: nat)
    requires i <= |s|
    ensures JoinDigits(i > 0 && IsDigit(s[i - 1]), s[i..]) == Rejoined(s, i)
    decreases |s| - i
  {
    if i < |s| {
      RejoinedExactly(s, i + 1);
      assert s[i..][1..] == s[i + 1..];
      JoinStep(i > 0 && IsDigit(s[i - 1]), s[i], s[i + 1..]);
      assert s[i..] == [s[i]] + s[i + 1..];
      hide JoinDigits;
    } else {
      JoinNothing();
    }
  }

  lemma FreeIsWord(s: string, w: string)
    requires w != [] && AllWord(w)
    ensures w in Words(s) <==> Bounded(s, w)
  {
    hide Words, AllWord;
    if w in Words(s) {
      WordsAreBounded(s, w);
    }
    if Bounded(s, w) {
      var a, b :| s == a + w + b && StandsFree(a, b);
      WordFound(a, w, b);
    }
  }

  lemma {:induction false} OnlyDigitsAreDigits(s: string)
    ensures AllDigits(OnlyDigits(s))
  {
    if s != [] { OnlyDigitsAreDigits(s[1..]); }
  }

  // ---- the main law ------------------------------------------------------------------------------------------

  /** What is left of the text around and inside a broken number once it is cleaned. */
  lemma CleanParts(left: string, w: string, right: string)
    requires IsBroken(w) && ClearBefore(left) && ClearAfter(right)
    ensures exists l, c, r :: Upper(Clean(left + w + right)) == l + c + r && IsCleanParts(l, c, r, OnlyDigits(w))
  {
    hide *;
    var l, c, r := Collapse(DropBreaks(left)), Collapse(DropBreaks(w)), Collapse(DropBreaks(right));
    CleanWhole(left, w, right);
    CleanBroken(w);
    ClearMeansTidy(left, right);
    TidySuffix(l);
    TidyPrefix(r);
    UpperTidy(TrimLeft(l), TrimRight(r));
    CleanPartsFit(Upper(TrimLeft(l)), c, Upper(TrimRight(r)), OnlyDigits(w));
    assert Upper(Clean(left + w + right)) == Upper(TrimLeft(l)) + c + Upper(TrimRight(r));
  }

  lemma ClearMeansTidy(left: string, right: string)
    requires ClearBefore(left) && ClearAfter(right)
    ensures TidyBefore(Collapse(DropBreaks(left))) && TidyAfter(Collapse(DropBreaks(right)))
  {
    hide DropBreaks, Collapse;
    CollapseBefore(DropBreaks(left));
    CollapseAfter(DropBreaks(right));
  }

  predicate IsCleanParts(l: string, c: string, r: string, num: string) {
    TidyBefore(l) && TidyAfter(r) && DigitEnds(c) && DigitsAndBlanks(c) && SingleBlanks(c) && OnlyDigits(c) == num
  }

  lemma CleanPartsFit(l: string, c: string, r: string, num: string)
    requires TidyBefore(l) && TidyAfter(r) && DigitEnds(c) && DigitsAndBlanks(c) && SingleBlanks(c) && OnlyDigits(c) == num
    ensures IsCleanParts(l, c, r, num)
  {
  }

  lemma CleanBroken(w: string)
    requires IsBroken(w)
    ensures var c := Collapse(DropBreaks(w));
            DigitEnds(c) && DigitsAndBlanks(c) && SingleBlanks(c) && OnlyDigits(c) == OnlyDigits(w)
  {
    hide DropBreaks, OnlyDigits, SingleBlanks, Collapse, DigitsAndBlanks, IsDigit;
    DropBreaksOfBroken(w);
    DropBreaksKeepsEnds(w);
    CollapseOfBroken(DropBreaks(w));
    CollapseEnds(DropBreaks(w));
  }

  lemma CleanWhole(left: string, w: string, right: string)
    requires IsBroken(w)
    ensures var l, c, r := Collapse(DropBreaks(left)), Collapse(DropBreaks(w)), Collapse(DropBreaks(right));
            Upper(Clean(left + w + right)) == Upper(TrimLeft(l)) + c + Upper(TrimRight(r))
  {
    var dl, dw, dr := DropBreaks(left), DropBreaks(w), DropBreaks(right);
    var l, c, r := Collapse(dl), Collapse(dw), Collapse(dr);
    DropBreaksConcat(left + w, right);
    DropBreaksConcat(left, w);
    DropBreaksKeepsEnds(w);
    CleanBroken(w);
    hide DropBreaks, Upper, OnlyDigits, SingleBlanks, IsBroken;
    CollapseConcat(dl, dw);
    CollapseParts(dl, dw, dr);
    hide Collapse;
    StripParts(l, c, r);
    UpperConcat(TrimLeft(l) + c, TrimRight(r));
    UpperConcat(TrimLeft(l), c);
    UpperOfDigits(c);
  }

  lemma CollapseParts(l: string, w: string, r: string)
    requires DigitEnds(w)
    ensures Collapse(l + w + r) == Collapse(l) + Collapse(w) + Collapse(r)
  {
    hide Collapse;
    assert (l + w)[|l + w| - 1] == w[|w| - 1];
    CollapseConcat(l + w, r);
    CollapseConcat(l, w);
  }

  lemma StripParts(l: string, c: string, r: string)
    requires DigitEnds(c)
    ensures Strip(l + c + r) == TrimLeft(l) + c + TrimRight(r)
  {
    hide TrimLeft, TrimRight;
    assert l + c + r == l + (c + r);
    assert (c + r)[0] == c[0];
    TrimLeftConcat(l, c + r);
    var t := TrimLeft(l) + c;
    assert t[|t| - 1] == c[|c| - 1];
    assert TrimLeft(l) + (c + r) == t + r;
    TrimRightConcat(t, r);
  }

  lemma JoinedNumberFound(l: string, c: string, r: string, num: string)
    requires IsCleanParts(l, c, r, num) && num != []
    ensures num in Words(JoinDigits(false, l + c + r))
  {
    hide Words, JoinDigits, OnlyDigits, SingleBlanks;
    assert l + c + r == l + (c + r);
    assert (c + r)[0] == c[0];
    JoinBefore(false, l, c + r);
    JoinBroken(false, c, r);
    JoinAfter(r);
    OnlyDigitsAreDigits(c);
    var a, b := JoinDigits(false, l), JoinDigits(true, r);
    assert a == [] || !IsWord(a[|a| - 1]) by {
      JoinNothing();
      if l != [] { JoinKeepsEnd(false, l); }
    }
    assert a + (num + b) == a + num + b;
    WordFound(a, num, b);
  }

  lemma JoinNothing()
    ensures forall after :: JoinDigits(after, "") == ""
  {
  }

  /**
   The scan finds every invoice number of the unit, however its digits are broken by blanks and
   line breaks, provided the text around it is clear of word characters and of digits to join with.
   */
  lemma BrokenNumberIsFound(left: string, w: string, right: string, ou: string)
    requires ou != "" && IsBroken(w) && IsInvoiceOf(OnlyDigits(w), ou)
    requires ClearBefore(left) && ClearAfter(right)
    ensures OnlyDigits(w) in OuScan(Upper(Clean(left + w + right)), ou)
  {
    CleanParts(left, w, right);
    var num, text := OnlyDigits(w), Upper(Clean(left + w + right));
    hide Clean, IsBroken, ClearBefore, ClearAfter, OnlyDigits, IsCleanParts, Words, JoinDigits;
    var l, c, r :| text == l + c + r && IsCleanParts(l, c, r, num);
    JoinedNumberFound(l, c, r, num);
  }

  // ---- why the context must be clear -------------------------------------------------------------------------

  lemma FirstWord(w: string, rest: string)
    requires w != [] && AllWord(w)
    ensures Words(w + " " + rest) == [w] + Words(rest)
    ensures Words(w) == [w]
  {
    var s := w + " " + rest;
    assert s == w + (" " + rest) && s[0] == w[0];
    RunLengthAt(w, " " + rest);
    RunLengthAt(w, "");
    assert w + "" == w;
    assert s[..|w|] == w && s[|w|..] == " " + rest;
    assert (" " + rest)[1..] == rest;
  }

  lemma {:induction false} JoinPlain(after: bool, d: string, rest: string)
    requires AllDigits(d) && d != []
    ensures JoinDigits(after, d + rest) == d + JoinDigits(true, rest)
    decreases |d|
  {
    var s, tail := d + rest, d[1..];
    assert s[1..] == tail + rest && s[0] == d[0];
    assert JoinDigits(after, s) == [d[0]] + JoinDigits(true, tail + rest);
    hide JoinDigits;
    if tail == [] {
      assert tail + rest == rest;
    } else {
      JoinPlain(true, tail, rest);
    }
  }

  lemma JoinBlank(d: string, rest: string)
    requires AllDigits(d) && d != []
    ensures JoinDigits(true, " " + (d + rest)) == d + JoinDigits(true, rest)
  {
    assert (" " + (d + rest))[1..] == d + rest;
    JoinPlain(false, d, rest);
  }

  lemma JoinThree(d: string, a: string, b: string)
    requires AllDigits(d) && AllDigits(a) && AllDigits(b)
    requires d != [] && a != [] && b != []
    ensures JoinDigits(false, d + (" " + (a + (" " + (b + ""))))) == d + (a + (b + ""))
  {
    hide JoinDigits;
    JoinPlain(false, d, " " + (a + (" " + (b + ""))));
    JoinBlank(a, " " + (b + ""));
    JoinBlank(b, "");
    JoinNothing();
  }

  /** Digits and a blank before a broken number swallow it: the scan misses it, for every unit. */
  lemma NeighbourHidesNumber(d: string, a: string, b: string, ou: string)
    requires AllDigits(d) && AllDigits(a) && AllDigits(b)
    requires d != [] && a != [] && b != [] && d != a + b
    ensures a + b !in OuScan(d + " " + (a + " " + b), ou)
  {
    hide Words, JoinDigits, IsInvoiceOf, AllDigits;
    var s, joined := d + " " + (a + " " + b), d + (a + (b + ""));
    assert s == d + (" " + (a + (" " + (b + ""))));
    JoinThree(d, a, b);
    DigitsAreWords(d, a, b);
    FirstWord(d, a + " " + b);
    FirstWord(a, b);
    FirstWord(b, "");
    FirstWord(joined, "");
    assert Words(s) + Words(joined) == [d, a, b, joined];
    assert |a + b| > |a| && |a + b| > |b| && |a + b| < |joined|;
  }

  lemma DigitsAreWords(d: string, a: string, b: string)
    requires AllDigits(d) && AllDigits(a) && AllDigits(b)
    ensures AllWord(d) && AllWord(a) && AllWord(b) && AllWord(d + (a + (b + "")))
  {
  }

  // ---- the candidates of a row -----------------------------------------------------------------------------

  function NonEmpty(parts: seq<string>): seq<string> {
    if parts == [] then [] else (if parts[0] != "" then [parts[0]] else []) + NonEmpty(parts[1..])
  }

  /** Narrative, bank reference and customer reference, as one cleaned upper-case text. */
  function RowText(parts: seq<string>): string { Upper(Clean(Join(" ", NonEmpty(parts)))) }

  /** Drops a leading INV or INV-. */
  function WithoutInv(s: string): string {
    if |s| >= 3 && Upper(s[..3]) == "INV" then
      if |s| >= 4 && s[3] == '-' then s[4..] else s[3..]
    else s
  }

  /** Any spelling of INV is dropped from the front, with one dash after it, and nothing else is. */
  lemma WithoutInvMeaning(s: string)
    ensures |s| >= 4 && Upper(s[..4]) == "INV-" ==> s == s[..4] + WithoutInv(s)
    ensures |s| >= 3 && Upper(s[..3]) == "INV" && !(|s| >= 4 && s[3] == '-') ==> s == s[..3] + WithoutInv(s)
    ensures !(|s| >= 3 && Upper(s[..3]) == "INV") ==> WithoutInv(s) == s
  {
    if |s| >= 4 && Upper(s[..4]) == "INV-" {
      assert Upper(s[..3]) == Upper(s[..4])[..3];
      assert UpperChar(s[3]) == '-';
    }
  }

  /** Empty texts of a row leave no blank behind. */
  lemma RowTextMeaning(a: string, b: string, c: string)
    requires a != "" && b != "" && c != ""
    ensures RowText([a, b, c]) == Upper(Clean(a + " " + (b + " " + c)))
    ensures RowText([a, "", c]) == RowText([a, c, ""]) == RowText(["", a, c]) == Upper(Clean(a + " " + c))
    ensures RowText([a, "", ""]) == RowText(["", a, ""]) == RowText(["", "", a]) == Upper(Clean(a))
  {
    hide Upper, Clean;
    NonEmptyTriple(a, b, c);
    NonEmptyTriple(a, "", c);
    NonEmptyTriple(a, c, "");
    NonEmptyTriple("", a, c);
    NonEmptyTriple(a, "", "");
    NonEmptyTriple("", a, "");
    NonEmptyTriple("", "", a);
    JoinFew(a, b, c);
    JoinFew(a, c, b);
    hide NonEmpty, Join;
    assert [a] + [c] == [a, c] && [a] + [b] + [c] == [a, b, c];
    assert [a] + [] + [c] == [a, c] && [a] + [c] + [] == [a, c] && [] + [a] + [c] == [a, c];
    assert [a] + [] + [] == [a] && [] + [a] + [] == [a] && [] + [] + [a] == [a];
  }

  lemma JoinFew(a: string, b: string, c: string)
    ensures Join(" ", [a]) == a && Join(" ", [a, b]) == a + " " + b && Join(" ", [a, b, c]) == a + " " + (b + " " + c)
  {
    assert [a, b][1..] == [b] && [a, b, c][1..] == [b, c] && [b, c][1..] == [c];
    assert Join(" ", [b, c]) == b + " " + c;
    assert a + " " + (b + " " + c) == a + " " + Join(" ", [b, c]);
  }

  lemma NonEmptyStep(x: string, rest: seq<string>)
    ensures NonEmpty([x] + rest) == IfAny(x) + NonEmpty(rest)
  {
    assert ([x] + rest)[1..] == rest;
    assert [] + NonEmpty(rest) == NonEmpty(rest);
  }

  function IfAny(x: string): seq<string> { if x != "" then [x] else [] }

  lemma NonEmptyTriple(x: string, y: string, z: string)
    ensures NonEmpty([x, y, z]) == IfAny(x) + IfAny(y) + IfAny(z)
  {
    assert NonEmpty([]) == [];
    hide NonEmpty;
    assert [x, y, z] == [x] + [y, z] && [y, z] == [y] + [z] && [z] == [z] + [];
    NonEmptyStep(z, []);
    NonEmptyStep(y, [z]);
    NonEmptyStep(x, [y, z]);
    hide IfAny;
    assert IfAny(z) + [] == IfAny(z) && IfAny(x) + (IfAny(y) + IfAny(z)) == IfAny(x) + IfAny(y) + IfAny(z);
  }

  lemma DigitsHaveNoInv(s: string)
    requires AllDigits(s)
    ensures WithoutInv(s) == s
  {
    if |s| >= 3 {
      assert Upper(s[..3])[0] == s[0];
    }
  }

  predicate IsOneOf(numbers: seq<string>, n: string) {
    exists a :: 0 <= a < |numbers| && WithoutInv(numbers[a]) == n
  }

  /** Among the numbers, m shows up before n does. */
  predicate ComesEarlier(numbers: seq<string>, m: string, n: string) {
    exists a :: 0 <= a < |numbers| && WithoutInv(numbers[a]) == m && forall b :: 0 <= b <= a ==> WithoutInv(numbers[b]) != n
  }

  /** From position k on, the candidates come in the order of the numbers. */
  predicate InOrderOf(numbers: seq<string>, candidates: seq<string>, k: nat) {
    forall i, j :: k <= i < j < |candidates| ==> ComesEarlier(numbers, candidates[i], candidates[j])
  }

  lemma InOrderMore(numbers: seq<string>, last: string, candidates: seq<string>, k: nat)
    requires InOrderOf(numbers, candidates, k)
    requires forall b :: 0 <= b < |numbers| && WithoutInv(numbers[b]) != "" ==> WithoutInv(numbers[b]) in candidates
    requires forall i :: k <= i < |candidates| ==> IsOneOf(numbers, candidates[i])
    ensures InOrderOf(numbers + [last], candidates, k)
    ensures WithoutInv(last) != "" && WithoutInv(last) !in candidates ==> InOrderOf(numbers + [last], candidates + [WithoutInv(last)], k)
  {
    hide WithoutInv;
    var all, n := numbers + [last], WithoutInv(last);
    forall i, j | k <= i < j < |candidates| ensures ComesEarlier(all, candidates[i], candidates[j]) {
      var a :| 0 <= a < |numbers| && WithoutInv(numbers[a]) == candidates[i]
               && forall b :: 0 <= b <= a ==> WithoutInv(numbers[b]) != candidates[j];
      assert all[a] == numbers[a] && forall b :: 0 <= b <= a ==> all[b] == numbers[b];
    }
    if n != "" && n !in candidates {
      forall i | k <= i < |candidates| ensures ComesEarlier(all, candidates[i], n) {
        var a :| 0 <= a < |numbers| && WithoutInv(numbers[a]) == candidates[i];
        assert all[a] == numbers[a] && forall b :: 0 <= b <= a ==> all[b] == numbers[b];
      }
    }
  }

  /** One pass's numbers in their order, appended unless empty or already there. */
  method AddNumbers(numbers: seq<string>, before: seq<string>) returns (candidates: seq<string>)
    requires NoRepeats(before)
    ensures before <= candidates && NoRepeats(candidates)
    ensures forall n :: n in candidates <==> n in before || (n != "" && exists i :: 0 <= i < |numbers| && n == WithoutInv(numbers[i]))
    ensures InOrderOf(numbers, candidates, |before|)
  {
    hide WithoutInv, InOrderOf;
    candidates := before;
    assert InOrderOf(numbers[..0], candidates, |before|) by { NothingInOrder(candidates); }
    for i := 0 to |numbers|
      invariant before <= candidates && NoRepeats(candidates)
      invariant forall n :: n in candidates <==> n in before || (n != "" && exists j :: 0 <= j < i && n == WithoutInv(numbers[j]))
      invariant InOrderOf(numbers[..i], candidates, |before|)
    {
      var n := WithoutInv(numbers[i]);
      forall c | c in candidates ensures c in before || IsOneOf(numbers[..i], c) {
        if c !in before {
          var j :| 0 <= j < i && c == WithoutInv(numbers[j]);
          assert numbers[..i][j] == numbers[j];
        }
      }
      NewOnesAreNumbers(numbers[..i], before, candidates);
      InOrderMore(numbers[..i], numbers[i], candidates, |before|);
      assert numbers[..i + 1] == numbers[..i] + [numbers[i]];
      if n != "" && n !in candidates {
        candidates := candidates + [n];
      }
    }
    assert numbers[..|numbers|] == numbers;
  }

  lemma NothingInOrder(candidates: seq<string>)
    ensures InOrderOf([], candidates, |candidates|)
  {
  }

  /** What was not there before is a number of this pass. */
  lemma NewOnesAreNumbers(numbers: seq<string>, before: seq<string>, candidates: seq<string>)
    requires before <= candidates && NoRepeats(candidates)
    requires forall n :: n in candidates ==> n in before || IsOneOf(numbers, n)
    ensures forall i :: |before| <= i < |candidates| ==> IsOneOf(numbers, candidates[i])
  {
    hide IsOneOf;
    forall i | |before| <= i < |candidates| ensures IsOneOf(numbers, candidates[i]) {
      assert forall j :: 0 <= j < |before| ==> before[j] == candidates[j] != candidates[i];
      assert candidates[i] in candidates;
    }
  }

  /** What the passes of a row may come up with: at least the unit's own numbers, none empty, none twice. */
  ghost predicate IsScanOf(parts: seq<string>, ou: string, candidates: seq<string>) {
    && NoRepeats(candidates) && "" !in candidates
    && forall n :: n in OuScan(RowText(parts), ou) ==> n in candidates
  }

  /** The REF NO number comes first, then the unit's own, longest first, then the rest in the order of the generic passes. */
  predicate InPassOrder(own: set<string>, refNo: Option<string>, generic: seq<string>, candidates: seq<string>) {
    var hasRef := refNo.Some? && refNo.value != "" && WithoutInv(refNo.value) != "";
    && (hasRef ==> candidates != [] && candidates[0] == WithoutInv(refNo.value))
    && forall i, j :: 0 <= i < j < |candidates| && !(hasRef && i == 0) ==>
         && (candidates[j] in own ==> candidates[i] in own && |candidates[i]| >= |candidates[j]|)
         && (candidates[i] !in own ==> ComesEarlier(generic, candidates[i], candidates[j]))
  }

  /** Numbers without INV, longest first, arrive longest first. */
  lemma OwnInOrder(own: seq<string>, m: string, n: string)
    requires LongestFirst(own) && (forall i :: 0 <= i < |own| ==> WithoutInv(own[i]) == own[i])
    requires ComesEarlier(own, m, n) && n in own
    ensures |m| >= |n|
  {
    hide WithoutInv;
    var a :| 0 <= a < |own| && WithoutInv(own[a]) == m && forall b :: 0 <= b <= a ==> WithoutInv(own[b]) != n;
    var c :| 0 <= c < |own| && own[c] == n;
  }

  /**
   The three passes put together: the REF NO number if there is one, the unit's own numbers not
   yet there, and the generic numbers not yet there.
   */
  lemma PassesInOrder(own: seq<string>, refNo: Option<string>, generic: seq<string>,
                      first: seq<string>, second: seq<string>, candidates: seq<string>)
    requires LongestFirst(own) && forall i :: 0 <= i < |own| ==> WithoutInv(own[i]) == own[i]
    requires first == if refNo.Some? && refNo.value != "" && WithoutInv(refNo.value) != "" then [WithoutInv(refNo.value)] else []
    requires first <= second <= candidates && NoRepeats(candidates)
    requires forall n :: n in second <==> n in first || n in own
    requires InOrderOf(own, second, |first|) && InOrderOf(generic, candidates, |second|)
    ensures InPassOrder((set n | n in own), refNo, generic, candidates)
  {
    hide WithoutInv, ComesEarlier, LongestFirst;
    forall i, j | 0 <= i < j < |candidates| && i >= |first|
      ensures candidates[j] in own ==> candidates[i] in own && |candidates[i]| >= |candidates[j]|
      ensures candidates[i] !in own ==> ComesEarlier(generic, candidates[i], candidates[j])
    {
      if j < |second| {
        NotBefore(first, second, i);
        NotBefore(first, second, j);
        assert second[i] == candidates[i] && second[j] == candidates[j];
        OwnInOrder(own, candidates[i], candidates[j]);
      } else {
        NotBefore(second, candidates, j);
        if i < |second| {
          NotBefore(first, second, i);
          assert second[i] == candidates[i];
        }
      }
    }
  }

  lemma NotBefore(front: seq<string>, all: seq<string>, i: nat)
    requires front <= all && NoRepeats(all) && |front| <= i < |all|
    ensures all[i] !in front && all[i] in all
  {
    assert forall j :: 0 <= j < |front| ==> front[j] == all[j] != all[i];
  }

  /**
   The passes of a row in their order: the number behind REF NO if there is one, the unit's own
   numbers, and whatever the generic patterns match.  No unit's own number goes missing.
   */
  method ScanRow(parts: seq<string>, ou: string, refNo: Option<string>, generic: seq<string>) returns (candidates: seq<string>)
    ensures IsScanOf(parts, ou, candidates)
    ensures forall n :: n in candidates ==>
              || n in OuScan(RowText(parts), ou)
              || (refNo.Some? && n == WithoutInv(refNo.value))
              || exists i :: 0 <= i < |generic| && n == WithoutInv(generic[i])
    ensures InPassOrder(OuScan(RowText(parts), ou), refNo, generic, candidates)
  {
    hide OuScan, RowText, WithoutInv, InPassOrder, InOrderOf, LongestFirst;
    var text := RowText(parts);
    var first: seq<string> := [];
    if refNo.Some? && refNo.value != "" {
      first := AddNumbers([refNo.value], first);
      OnlyOne([refNo.value], first);
    }
    var own := ExtractOuPrefixed(text, ou);
    forall i | 0 <= i < |own| ensures own[i] != "" && WithoutInv(own[i]) == own[i] {
      assert own[i] in OuScan(text, ou);
      ScanExactly(text, ou, own[i]);
      DigitsHaveNoInv(own[i]);
    }
    var second := AddNumbers(own, first);
    candidates := AddNumbers(generic, second);
    PrefixNoRepeats(second, candidates);
    PassesInOrder(own, refNo, generic, first, second, candidates);
    assert (set n | n in own) == OuScan(text, ou);
  }

  lemma FirstTwoDiffer(xs: seq<string>)
    requires NoRepeats(xs) && |xs| > 1
    ensures xs[0] != xs[1]
  {
  }

  /** A single number is added exactly if it is not empty. */
  lemma OnlyOne(numbers: seq<string>, xs: seq<string>)
    requires |numbers| == 1 && NoRepeats(xs)
    requires forall x :: x in xs <==> x in [] || (x != "" && exists i :: 0 <= i < |numbers| && x == WithoutInv(numbers[i]))
    ensures xs == if WithoutInv(numbers[0]) != "" then [WithoutInv(numbers[0])] else []
  {
    hide WithoutInv;
    var n := WithoutInv(numbers[0]);
    forall i | 0 <= i < |xs| ensures xs[i] == n && n != "" {
      assert xs[i] in xs;
      var k :| 0 <= k < |numbers| && xs[i] == WithoutInv(numbers[k]);
    }
    if n != "" {
      assert n == WithoutInv(numbers[0]) && n in xs;
    }
    if |xs| > 1 {
      FirstTwoDiffer(xs);
      assert false;
    }
    assert xs != [] ==> xs == [xs[0]];
  }

  lemma PrefixNoRepeats(front: seq<string>, all: seq<string>)
    requires front <= all && NoRepeats(all)
    ensures NoRepeats(front)
  {
  }

  /** A row's broken number is among its candidates, whatever the other passes find. */
  lemma RowNumberIsFound(parts: seq<string>, left: string, w: string, right: string, ou: string)
    requires Join(" ", NonEmpty(parts)) == left + w + right
    requires ou != "" && IsBroken(w) && IsInvoiceOf(OnlyDigits(w), ou)
    requires ClearBefore(left) && ClearAfter(right)
    ensures OnlyDigits(w) in OuScan(RowText(parts), ou)
  {
    hide *;
    BrokenNumberIsFound(left, w, right, ou);
    assert RowText(parts) == Upper(Clean(left + w + right)) by { RowTextOf(parts, left + w + right); }
  }

  lemma RowTextOf(parts: seq<string>, text: string)
    requires Join(" ", NonEmpty(parts)) == text
    ensures RowText(parts) == Upper(Clean(text))
  {
  }
}
