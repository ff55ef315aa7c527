/** The string operations the engine relies on, over ASCII text. */
module Text {

  /** What Python's str.strip and the regex class \s treat as white space. */
  predicate IsSpace(c: char) {
    c == ' ' || '\t' <= c <= '\r' || '\U{001C}' <= c <= '\U{001F}'
  }

  predicate IsUpperLetter(c: char) { 'A' <= c <= 'Z' }

  predicate IsLowerLetter(c: char) { 'a' <= c <= 'z' }

  predicate IsDigit(c: char) { '0' <= c <= '9' }

  /** The regex class \w. */
  predicate IsWord(c: char) {
    IsDigit(c) || IsUpperLetter(c) || IsLowerLetter(c) || c == '_'
  }

  function UpperChar(c: char): char {
    if IsLowerLetter(c) then c - 'a' + 'A' else c
  }

  function Upper(s: string): (r: string)
    ensures |r| == |s|
    ensures forall i :: 0 <= i < |s| ==> r[i] == UpperChar(s[i])
  {
    if s == [] then [] else [UpperChar(s[0])] + Upper(s[1..])
  }

  function TrimLeft(s: string): (r: string)
    ensures r == [] || !IsSpace(r[0])
    ensures |r| <= |s|
  {
    if s != [] && IsSpace(s[0]) then TrimLeft(s[1..]) else s
  }

  function TrimRight(s: string): (r: string)
    ensures r == [] || !IsSpace(r[|r| - 1])
    ensures |r| <= |s|
  {
    if s != [] && IsSpace(s[|s| - 1]) then TrimRight(s[..|s| - 1]) else s
  }

  function Strip(s: string): string { TrimRight(TrimLeft(s)) }

  function Join(sep: string, parts: seq<string>): string {
    if parts == [] then ""
    else if |parts| == 1 then parts[0]
    else parts[0] + sep + Join(sep, parts[1..])
  }

  /** s[k..] is left once a front of white space is dropped. */
  predicate DropsBlanks(s: string, k: nat) {
    k <= |s| && TrimLeft(s) == s[k..] && forall i :: 0 <= i < k ==> IsSpace(s[i])
  }

  lemma DropsOneMore(s: string, k: nat)
    requires s != [] && IsSpace(s[0]) && DropsBlanks(s[1..], k)
    ensures DropsBlanks(s, k + 1)
  {
    assert TrimLeft(s) == TrimLeft(s[1..]) && s[1..][k..] == s[k + 1..];
    hide TrimLeft, IsSpace;
    forall i | 0 <= i < k + 1 ensures IsSpace(s[i]) {
      assert i > 0 ==> s[i] == s[1..][i - 1];
    }
  }

  /** Trimming on the left drops exactly a front of white space. */
  lemma {:induction false} TrimLeftDrops(s: string)
    ensures exists k: nat :: DropsBlanks(s, k)
  {
    if s != [] && IsSpace(s[0]) {
      TrimLeftDrops(s[1..]);
      var k: nat :| DropsBlanks(s[1..], k);
      hide DropsBlanks;
      DropsOneMore(s, k);
    } else {
      assert DropsBlanks(s, 0);
    }
  }

  lemma {:induction false} TrimLeftConcat(a: string, b: string)
    requires b != [] && !IsSpace(b[0])
    ensures TrimLeft(a + b) == TrimLeft(a) + b
  {
    if a == [] {
      assert a + b == b;
    } else if IsSpace(a[0]) {
      assert (a + b)[1..] == a[1..] + b;
      TrimLeftConcat(a[1..], b);
    }
  }

  lemma {:induction false} TrimRightPrefix(s: string)
    ensures TrimRight(s) <= s
  {
    if s != [] && IsSpace(s[|s| - 1]) {
      TrimRightPrefix(s[..|s| - 1]);
    }
  }

  /** Nothing to trim at either end. */
  lemma StripEnds(s: string)
    requires s != [] && !IsSpace(s[0]) && !IsSpace(s[|s| - 1])
    ensures Strip(s) == s
  {
  }

  /** Stripping a text that ends in a non-blank keeps that end; it drops only a blank front. */
  lemma StripEnd(s: string)
    requires s != [] && !IsSpace(s[|s| - 1])
    ensures Strip(s) != [] && Strip(s)[|Strip(s)| - 1] == s[|s| - 1]
    ensures exists k :: 0 <= k < |s| && Strip(s) == s[k..] && forall i :: 0 <= i < k ==> IsSpace(s[i])
  {
    TrimLeftDrops(s);
    var k: nat :| DropsBlanks(s, k);
    assert k < |s|;
    assert TrimRight(s[k..]) == s[k..];
    hide TrimLeft, TrimRight, IsSpace;
  }

  predicate PipeFree(s: string) { forall c | c in s :: c != '|' }

  /** A text without a bar is determined by what follows the first bar. */
  lemma FirstBar(a: string, x: string, b: string, y: string)
    requires PipeFree(a) && PipeFree(b)
    requires a + "|" + x == b + "|" + y
    ensures a == b && x == y
  {
    var s := a + "|" + x;
    assert s[|a|] == '|' && s[|b|] == '|';
    assert forall i :: 0 <= i < |a| ==> s[i] == a[i] && a[i] in a;
    assert forall i :: 0 <= i < |b| ==> s[i] == b[i] && b[i] in b;
    assert |a| == |b|;
    assert a == s[..|a|] && b == s[..|b|];
    assert x == s[|a| + 1..] && y == s[|b| + 1..];
  }

  /** ASCII case, digits, word characters and white space. */
  lemma AsciiMeaning(c: char)
    ensures UpperChar(c) as int == if 97 <= c as int <= 122 then c as int - 32 else c as int
    ensures IsDigit(c) <==> 48 <= c as int <= 57
    ensures IsWord(c) <==> IsDigit(c) || 65 <= c as int <= 90 || c as int == 95 || 97 <= c as int <= 122
    ensures IsSpace(c) <==> c as int == 32 || 9 <= c as int <= 13 || 28 <= c as int <= 31
  {
  }

  /** Trimming on the right drops exactly an end of white space. */
  lemma {:induction false} TrimRightDrops(s: string) returns (k: nat)
    ensures k <= |s| && TrimRight(s) == s[..k] && forall x :: k <= x < |s| ==> IsSpace(s[x])
  {
    if s != [] && IsSpace(s[|s| - 1]) {
      k := TrimRightDrops(s[..|s| - 1]);
      assert s[..|s| - 1][..k] == s[..k];
    } else {
      k := |s|;
    }
  }

  /** Outside i to j there is only white space. */
  predicate CutsBlanks(s: string, i: nat, j: nat) {
    i <= j <= |s| && (forall x :: 0 <= x < i ==> IsSpace(s[x])) && forall x :: j <= x < |s| ==> IsSpace(s[x])
  }

  /** Stripping cuts white space off both ends, and nothing else. */
  lemma StripMeaning(s: string) returns (i: nat, j: nat)
    ensures CutsBlanks(s, i, j) && Strip(s) == s[i..j]
    ensures Strip(s) == "" || (!IsSpace(Strip(s)[0]) && !IsSpace(Strip(s)[|Strip(s)| - 1]))
  {
    TrimLeftDrops(s);
    i :| DropsBlanks(s, i);
    var k := TrimRightDrops(s[i..]);
    j := i + k;
    hide TrimLeft, TrimRight, IsSpace;
    assert s[i..][..k] == s[i..j];
    forall x | j <= x < |s| ensures IsSpace(s[x]) {
      assert s[x] == s[i..][x - i];
    }
  }
}
