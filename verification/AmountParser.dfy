/** Reading monetary amounts from bank statements, and the printed forms it must invert. */
module AmountParser {
  import opened Core
  import opened Text
  import opened Decimal

  // ---- the parser ----------------------------------------------------------------------------

  /** What a cell of a statement may hold. */
  datatype Cell = Missing | Numeric(value: real) | Written(text: string)

  predicate IsKept(c: char) { IsDigit(c) || c == '.' || c == ',' || c == '-' || c == '+' }

  predicate AllKept(s: string) { forall i :: 0 <= i < |s| ==> IsKept(s[i]) }

  /** Drops currency symbols, letters and blanks. */
  function Keep(s: string): (r: string)
    ensures forall i :: 0 <= i < |r| ==> IsKept(r[i])
  {
    if s == [] then [] else (if IsKept(s[0]) then [s[0]] else []) + Keep(s[1..])
  }

  /** str.replace of one character by nothing. */
  function Remove(s: string, c: char): string {
    if s == [] then [] else (if s[0] == c then [] else [s[0]]) + Remove(s[1..], c)
  }

  /** str.replace of one character by another. */
  function Replace(s: string, c: char, d: char): (r: string)
    ensures |r| == |s| && forall i :: 0 <= i < |s| ==> r[i] == if s[i] == c then d else s[i]
  {
    seq(|s|, i requires 0 <= i < |s| => if s[i] == c then d else s[i])
  }

  /** str.rfind of one character. */
  function LastIndex(s: string, c: char): (k: int)
    ensures -1 <= k < |s|
    ensures k >= 0 ==> s[k] == c
    ensures forall i :: k < i < |s| ==> s[i] != c
  {
    if s == [] then -1
    else if s[|s| - 1] == c then |s| - 1
    else LastIndex(s[..|s| - 1], c)
  }

  function FirstIndex(s: string, c: char): (k: nat)
    ensures k <= |s|
    ensures k < |s| ==> s[k] == c
    ensures forall i :: 0 <= i < k ==> s[i] != c
  {
    if s == [] || s[0] == c then 0 else 1 + FirstIndex(s[1..], c)
  }

  function DropSigns(s: string): string {
    if s != [] && (s[0] == '-' || s[0] == '+') then DropSigns(s[1..]) else s
  }

  function Pow10(k: nat): (r: int)
    ensures r >= 1
  {
    if k == 0 then 1 else 10 * Pow10(k - 1)
  }

  /** The number written with these digits before and after the point. */
  function DecimalValue(whole: string, frac: string): real
    requires AllDigits(whole) && AllDigits(frac)
  {
    NatOf(whole) as real + NatOf(frac) as real / Pow10(|frac|) as real
  }

  /** float() on a text of digits, points, commas and signs: digits with at most one point. */
  function Float(s: string): Option<real> {
    var k := FirstIndex(s, '.');
    var whole, frac := s[..k], if k < |s| then s[k + 1..] else [];
    if AllDigits(whole) && AllDigits(frac) && whole + frac != [] then
      Some(DecimalValue(whole, frac))
    else None
  }

  /** The separator that occurs last is taken as the decimal one. */
  function Normalise(s: string): string {
    var dot, comma := LastIndex(s, '.'), LastIndex(s, ',');
    if dot == -1 && comma == -1 then s
    else if comma > dot then Replace(Remove(s, '.'), ',', '.')
    else Remove(s, ',')
  }

  /** Where a trailing CR or DR marker starts, as a whole word, with an optional full stop. */
  function MarkerAt(s: string): (r: Option<nat>)
    ensures r.Some? ==> r.value + 2 <= |s|
  {
    var t := if s != [] && s[|s| - 1] == '.' then s[..|s| - 1] else s;
    if |t| >= 2 && UpperChar(t[|t| - 1]) == 'R' && UpperChar(t[|t| - 2]) in {'C', 'D'}
       && (|t| == 2 || !IsWord(t[|t| - 3]))
    then Some(|t| - 2) else None
  }

  predicate IsBlankWord(s: string) {
    s == "" || Upper(s) == "NAN" || Upper(s) == "NONE" || Upper(s) == "NAT"
  }

  predicate Parenthesised(s: string) { |s| >= 2 && s[0] == '(' && s[|s| - 1] == ')' }

  /** Nothing left, or a lone sign or separator. */
  predicate IsBareMark(s: string) {
    s == "" || s == "-" || s == "+" || s == "." || s == ","
  }

  /** Sign and magnitude of what is left once parentheses and markers are gone. */
  function Finish(s: string, negative: bool): Option<real> {
    var kept := Keep(s);
    if IsBareMark(kept) then None
    else
      var minus := negative || kept[0] == '-';
      var amount := Float(Normalise(DropSigns(kept)));
      if amount.None? then None else Some(if minus then -amount.value else amount.value)
  }

  function ParseText(text: string): Option<real> {
    var s := Strip(text);
    if IsBlankWord(s) then None
    else
      var inner := if Parenthesised(s) then Strip(s[1..|s| - 1]) else s;
      var marker := MarkerAt(inner);
      if marker.None? then Finish(inner, Parenthesised(s))
      else Finish(Strip(inner[..marker.value]), Parenthesised(s) || UpperChar(inner[marker.value]) == 'D')
  }

  function ParseCell(cell: Cell): Option<real> {
    match cell
    case Missing => None
    case Numeric(value) => Some(value)
    case Written(text) => ParseText(text)
  }

  lemma BareMarkNonEmpty(s: string)
    requires !IsBareMark(s)
    ensures s != ""
  {
  }

  /** The parser in the source's own steps, rewriting the text and the sign as it goes. */
  method ParseAmount(cell: Cell) returns (amount: Option<real>)
    ensures amount == ParseCell(cell)
  {
    hide Float, Keep, DropSigns, LastIndex, Remove, Replace, Strip, MarkerAt, IsBlankWord, IsBareMark, UpperChar;
    if cell.Missing? {
      return None;
    }
    if cell.Numeric? {
      return Some(cell.value);
    }
    var s := Strip(cell.text);
    if IsBlankWord(s) {
      return None;
    }
    var negative := false;
    if Parenthesised(s) {
      negative := true;
      s := Strip(s[1..|s| - 1]);
    }
    var marker := MarkerAt(s);
    if marker.Some? {
      if UpperChar(s[marker.value]) == 'D' {
        negative := true;
      }
      s := Strip(s[..marker.value]);
    }
    s := Keep(s);
    if IsBareMark(s) {
      return None;
    }
    BareMarkNonEmpty(s);
    if s[0] == '-' {
      negative := true;
    }
    s := DropSigns(s);
    var dot, comma := LastIndex(s, '.'), LastIndex(s, ',');
    if dot != -1 || comma != -1 {
      s := if comma > dot then Replace(Remove(s, '.'), ',', '.') else Remove(s, ',');
    }
    var magnitude := Float(s);
    if magnitude.None? {
      return None;
    }
    return Some(if negative then -magnitude.value else magnitude.value);
  }

  // ---- the printers ----------------------------------------------------------------------------

  datatype Notation = Anglo | European

  datatype SignStyle = MinusFirst | MinusAfterPrefix | Parentheses | Suffix

  function Thousands(n: Notation): char { if n.Anglo? then ',' else '.' }

  function Point(n: Notation): char { if n.Anglo? then '.' else ',' }

  function ThreeDigits(n: nat): (r: string)
    requires n < 1000
    ensures |r| == 3 && AllDigits(r)
  {
    [DigitChar(n / 100)] + TwoDigits(n % 100)
  }

  /** Whole units in groups of three. */
  function Grouped(n: nat, sep: char): string {
    if n < 1000 then Digits(n) else Grouped(n / 1000, sep) + [sep] + ThreeDigits(n % 1000)
  }

  function PrintMagnitude(cents: nat, notation: Notation): string {
    Grouped(cents / 100, Thousands(notation)) + [Point(notation)] + TwoDigits(cents % 100)
  }

  /** A printed amount; the prefix may be a currency name or symbol, with blanks. */
  function Print(cents: int, notation: Notation, style: SignStyle, prefix: string): string {
    if cents >= 0 then prefix + PrintMagnitude(cents, notation) + (if style.Suffix? then " CR" else "")
    else
      var body := PrintMagnitude(-cents, notation);
      match style
      case MinusFirst => "-" + prefix + body
      case MinusAfterPrefix => prefix + "-" + body
      case Parentheses => "(" + prefix + body + ")"
      case Suffix => prefix + body + " DR"
  }

  /** Free of digits, separators and signs. */
  predicate PlainPrefix(s: string) { forall i :: 0 <= i < |s| ==> !IsKept(s[i]) }

  // ---- facts about the pieces ---------------------------------------------------------------------

  lemma {:induction false} KeepConcat(a: string, b: string)
    ensures Keep(a + b) == Keep(a) + Keep(b)
  {
    if a == [] {
      assert a + b == b;
    } else {
      var s, tail := a + b, a[1..];
      assert s[0] == a[0] && s[1..] == tail + b;
      assert Keep(s) == (if IsKept(a[0]) then [a[0]] else []) + Keep(tail + b);
      assert Keep(a) == (if IsKept(a[0]) then [a[0]] else []) + Keep(tail);
      hide Keep, IsKept;
      KeepConcat(tail, b);
    }
  }

  lemma {:induction false} KeepAll(s: string)
    requires AllKept(s)
    ensures Keep(s) == s
  {
    if s != [] { KeepAll(s[1..]); }
  }

  lemma {:induction false} KeepNone(s: string)
    requires forall i :: 0 <= i < |s| ==> !IsKept(s[i])
    ensures Keep(s) == []
  {
    if s != [] { KeepNone(s[1..]); }
  }

  lemma {:induction false} KeepTrimLeft(s: string)
    ensures Keep(TrimLeft(s)) == Keep(s)
  {
    if s != [] && IsSpace(s[0]) { KeepTrimLeft(s[1..]); }
  }

  lemma {:induction false} KeepTrimRight(s: string)
    ensures Keep(TrimRight(s)) == Keep(s)
  {
    if s != [] && IsSpace(s[|s| - 1]) {
      KeepTrimRight(s[..|s| - 1]);
      KeepConcat(s[..|s| - 1], [s[|s| - 1]]);
      KeepNone([s[|s| - 1]]);
      assert s == s[..|s| - 1] + [s[|s| - 1]];
    }
  }

  /** Stripping blanks never changes what is kept. */
  lemma KeepStrip(s: string)
    ensures Keep(Strip(s)) == Keep(s)
  {
    KeepTrimRight(TrimLeft(s));
    KeepTrimLeft(s);
  }

  lemma {:induction false} RemoveConcat(a: string, b: string, c: char)
    ensures Remove(a + b, c) == Remove(a, c) + Remove(b, c)
  {
    if a == [] {
      assert a + b == b;
    } else {
      var s, tail := a + b, a[1..];
      assert s[0] == a[0] && s[1..] == tail + b;
      assert Remove(s, c) == (if a[0] == c then [] else [a[0]]) + Remove(tail + b, c);
      assert Remove(a, c) == (if a[0] == c then [] else [a[0]]) + Remove(tail, c);
      hide Remove;
      RemoveConcat(tail, b, c);
    }
  }

  lemma {:induction false} RemoveAbsent(s: string, c: char)
    requires forall i :: 0 <= i < |s| ==> s[i] != c
    ensures Remove(s, c) == s
  {
    if s != [] { RemoveAbsent(s[1..], c); }
  }

  lemma {:induction false} NatOfConcat(a: string, b: string)
    requires AllDigits(a) && AllDigits(b)
    ensures AllDigits(a + b) && NatOf(a + b) == NatOf(a) * Pow10(|b|) + NatOf(b)
  {
    if b == [] {
      assert a + b == a;
    } else {
      var init, last := b[..|b| - 1], b[|b| - 1];
      NatOfConcat(a, init);
      NatOfSnoc(a + init, last);
      NatOfSnoc(init, last);
      assert a + b == a + init + [last] && b == init + [last];
      Shift(NatOf(a), |init|, NatOf(init), DigitValue(last));
      hide NatOf, Pow10, AllDigits;
    }
  }

  lemma Shift(high: nat, k: nat, low: nat, d: nat)
    ensures 10 * (high * Pow10(k) + low) + d == high * Pow10(k + 1) + (10 * low + d)
  {
    assert Pow10(k + 1) == 10 * Pow10(k);
  }

  lemma NatOfThreeDigits(n: nat)
    requires n < 1000
    ensures NatOf(ThreeDigits(n)) == n
  {
    NatOfConcat([DigitChar(n / 100)], TwoDigits(n % 100));
    NatOfTwoDigits(n % 100);
    assert [DigitChar(n / 100)][..0] == [];
    assert Pow10(2) == 10 * Pow10(1) && Pow10(1) == 10 * Pow10(0);
  }

  /** Grouped digits are digits and separators, never starting with a separator; without them, the number. */
  lemma {:induction false} GroupedMeaning(n: nat, sep: char)
    requires !IsDigit(sep)
    ensures var g := Grouped(n, sep);
            && g != [] && IsDigit(g[0])
            && (forall i :: 0 <= i < |g| ==> IsDigit(g[i]) || g[i] == sep)
            && AllDigits(Remove(g, sep)) && Remove(g, sep) != [] && NatOf(Remove(g, sep)) == n
  {
    if n < 1000 {
      NatOfDigits(n);
      RemoveAbsent(Digits(n), sep);
    } else {
      GroupedMeaning(n / 1000, sep);
      var front, three := Grouped(n / 1000, sep), ThreeDigits(n % 1000);
      assert Grouped(n, sep) == front + [sep] + three;
      hide *;
      RemoveGroup(front, sep, three);
      NatOfConcat(Remove(front, sep), three);
      NatOfThreeDigits(n % 1000);
      PowersOfTen();
      GroupedShape(front, sep, three);
    }
  }

  lemma GroupedShape(front: string, sep: char, three: string)
    requires front != [] && IsDigit(front[0]) && AllDigits(three)
    requires forall i :: 0 <= i < |front| ==> IsDigit(front[i]) || front[i] == sep
    ensures var g := front + [sep] + three;
            g != [] && IsDigit(g[0]) && forall i :: 0 <= i < |g| ==> IsDigit(g[i]) || g[i] == sep
  {
    hide IsDigit;
  }

  lemma RemoveGroup(front: string, sep: char, three: string)
    requires !IsDigit(sep) && AllDigits(three)
    ensures Remove(front + [sep] + three, sep) == Remove(front, sep) + three
  {
    assert Remove([sep], sep) == [] by { assert [sep][1..] == []; }
    assert forall i :: 0 <= i < |three| ==> three[i] != sep;
    hide *;
    RemoveConcat(front + [sep], three, sep);
    RemoveConcat(front, [sep], sep);
    RemoveAbsent(three, sep);
  }

  lemma FirstIndexAt(a: string, c: char, b: string)
    requires forall i :: 0 <= i < |a| ==> a[i] != c
    ensures FirstIndex(a + [c] + b, c) == |a|
  {
    hide FirstIndex;
    var s := a + [c] + b;
    assert s[|a|] == c;
    assert forall i :: 0 <= i < |a| ==> s[i] == a[i];
  }

  lemma AbsentAfter(a: string, b: string, c: char)
    requires forall i :: 0 <= i < |b| ==> b[i] != c
    ensures forall i :: |a| <= i < |a + b| ==> (a + b)[i] != c
  {
    forall i | |a| <= i < |a + b| ensures (a + b)[i] != c {
      assert (a + b)[i] == b[i - |a|];
    }
  }

  lemma LastIndexAt(a: string, c: char, b: string)
    requires forall i :: 0 <= i < |b| ==> b[i] != c
    ensures LastIndex(a + [c] + b, c) == |a|
  {
    hide LastIndex;
    var s := a + [c] + b;
    assert s[|a|] == c;
    AbsentAfter(a + [c], b, c);
  }

  lemma LastIndexBefore(a: string, b: string, c: char)
    requires forall i :: 0 <= i < |b| ==> b[i] != c
    ensures LastIndex(a + b, c) < |a|
  {
    hide LastIndex;
    AbsentAfter(a, b, c);
  }

  lemma WithoutPoint(s: string)
    requires AllDigits(s)
    ensures forall i :: 0 <= i < |s| ==> s[i] != '.'
  {
  }

  lemma SplitAt(a: string, c: char, b: string)
    ensures var s := a + [c] + b; |s| == |a| + 1 + |b| && s[..|a|] == a && s[|a| + 1..] == b
  {
  }

  /** float() of digits, a point and digits. */
  lemma FloatOfDecimal(whole: string, frac: string)
    requires AllDigits(whole) && AllDigits(frac) && whole + frac != []
    ensures Float(whole + "." + frac) == Some(DecimalValue(whole, frac))
  {
    hide DecimalValue, FirstIndex, AllDigits;
    WithoutPoint(whole);
    FirstIndexAt(whole, '.', frac);
    SplitAt(whole, '.', frac);
  }

  lemma PowersOfTen()
    ensures Pow10(2) == 100 && Pow10(3) == 1000
  {
    assert Pow10(3) == 10 * Pow10(2) && Pow10(2) == 10 * Pow10(1) && Pow10(1) == 10 * Pow10(0);
  }

  lemma FloatOfCents(whole: string, cents: string)
    requires AllDigits(whole) && whole != [] && AllDigits(cents) && |cents| == 2
    ensures Float(whole + "." + cents) == Some((NatOf(whole) * 100 + NatOf(cents)) as real / 100.0)
  {
    hide *;
    FloatOfDecimal(whole, cents);
    ValueOfCents(whole, cents);
  }

  lemma ValueOfCents(whole: string, cents: string)
    requires AllDigits(whole) && AllDigits(cents) && |cents| == 2
    ensures DecimalValue(whole, cents) == (NatOf(whole) * 100 + NatOf(cents)) as real / 100.0
  {
    hide NatOf, AllDigits, Pow10;
    PowersOfTen();
  }

  lemma NormaliseAnglo(s: string)
    requires LastIndex(s, ',') < LastIndex(s, '.')
    ensures Normalise(s) == Remove(s, ',')
  {
    hide LastIndex, Remove, Replace;
  }

  lemma NormaliseEuropean(s: string)
    requires LastIndex(s, '.') < LastIndex(s, ',')
    ensures Normalise(s) == Replace(Remove(s, '.'), ',', '.')
  {
    hide LastIndex, Remove, Replace;
  }

  /** str.replace acts on each part, and leaves a part without the character alone. */
  lemma ReplacePoint(whole: string, frac: string)
    requires AllDigits(whole) && AllDigits(frac)
    ensures Replace(whole + "," + frac, ',', '.') == whole + "." + frac
  {
    hide Replace, AllDigits;
    WithoutComma(whole);
    WithoutComma(frac);
    var s, r := whole + "," + frac, Replace(whole + "," + frac, ',', '.');
    SplitAt(whole, ',', frac);
    assert r[..|whole|] == whole;
    assert r[|whole| + 1..] == frac;
    assert r == r[..|whole|] + [r[|whole|]] + r[|whole| + 1..];
  }

  lemma WithoutComma(s: string)
    requires AllDigits(s)
    ensures forall i :: 0 <= i < |s| ==> s[i] != ','
  {
  }

  /** The separators decide rightly on two printed decimals. */
  lemma NormaliseMagnitude(g: string, notation: Notation, two: string)
    requires AllDigits(two) && |two| == 2
    requires forall i :: 0 <= i < |g| ==> IsDigit(g[i]) || g[i] == Thousands(notation)
    ensures Normalise(g + [Point(notation)] + two) == Remove(g, Thousands(notation)) + "." + two
  {
    hide Remove, LastIndex, Normalise, Replace;
    var sep, point := Thousands(notation), Point(notation);
    LastIndexAt(g, point, two);
    LastSeparator(g, notation, two);
    RemoveMagnitude(g, sep, point, two);
    if notation.Anglo? {
      NormaliseAnglo(g + [point] + two);
    } else {
      RemoveAllDigits(g, sep);
      NormaliseEuropean(g + [point] + two);
      ReplacePoint(Remove(g, sep), two);
    }
  }

  lemma LastSeparator(g: string, notation: Notation, two: string)
    requires AllDigits(two)
    ensures LastIndex(g + [Point(notation)] + two, Thousands(notation)) < |g|
  {
    hide LastIndex;
    LastIndexBefore(g, [Point(notation)] + two, Thousands(notation));
    assert g + [Point(notation)] + two == g + ([Point(notation)] + two);
  }

  lemma {:induction false} RemoveAllDigits(g: string, sep: char)
    requires forall i :: 0 <= i < |g| ==> IsDigit(g[i]) || g[i] == sep
    ensures AllDigits(Remove(g, sep))
  {
    if g != [] { RemoveAllDigits(g[1..], sep); }
  }

  /** The printed magnitude comes back. */
  lemma MagnitudeParses(cents: nat, notation: Notation)
    ensures Float(Normalise(PrintMagnitude(cents, notation))) == Some(cents as real / 100.0)
  {
    hide Grouped, TwoDigits, NatOf, Remove, Float, Normalise;
    var g, two := Grouped(cents / 100, Thousands(notation)), TwoDigits(cents % 100);
    GroupedMeaning(cents / 100, Thousands(notation));
    NatOfTwoDigits(cents % 100);
    NormaliseMagnitude(g, notation, two);
    FloatOfCents(Remove(g, Thousands(notation)), two);
  }

  lemma RemoveMagnitude(g: string, sep: char, point: char, two: string)
    requires sep != point && !IsDigit(sep) && AllDigits(two)
    ensures Remove(g + [point] + two, sep) == Remove(g, sep) + [point] + two
  {
    RemoveConcat(g + [point], two, sep);
    RemoveConcat(g, [point], sep);
    RemoveAbsent([point], sep);
    RemoveAbsent(two, sep);
  }

  /** A printed magnitude is kept whole, starts and ends with a digit, and is longer than any rejected text. */
  lemma MagnitudeShape(cents: nat, notation: Notation)
    ensures var s := PrintMagnitude(cents, notation);
            && |s| >= 4 && IsDigit(s[0]) && IsDigit(s[|s| - 1])
            && AllKept(s)
            && (forall i :: 0 <= i < |s| ==> s[i] != '-' && s[i] != '+')
            && DropSigns(s) == s
  {
    GroupedMeaning(cents / 100, Thousands(notation));
    hide Grouped, Digits, Remove, NatOf;
  }

  function Signed(minus: bool, body: string): string { if minus then "-" + body else body }

  function Negated(minus: bool, cents: nat): int { if minus then -(cents as int) else cents as int }

  function CentsValue(cents: int): real { cents as real / 100.0 }

  /** Once everything else is gone, a signed magnitude finishes to its value. */
  lemma FinishMagnitude(s: string, cents: nat, notation: Notation, minus: bool, negative: bool)
    requires Keep(s) == Signed(minus, PrintMagnitude(cents, notation))
    ensures Finish(s, negative) == Some(CentsValue(Negated(minus || negative, cents)))
  {
    var body := PrintMagnitude(cents, notation);
    MagnitudeShape(cents, notation);
    MagnitudeParses(cents, notation);
    hide PrintMagnitude, Normalise, Float, Keep;
    var kept := Keep(s);
    if minus {
      assert kept[1..] == body;
      assert DropSigns(kept) == DropSigns(body);
    }
  }

  lemma KeepPrinted(prefix: string, minus: bool, body: string)
    requires PlainPrefix(prefix) && AllKept(body)
    ensures Keep(prefix + Signed(minus, body)) == Signed(minus, body)
  {
    SignedKept(minus, body);
    KeepNone(prefix);
    hide *;
    KeepAll(Signed(minus, body));
    KeepConcat(prefix, Signed(minus, body));
    assert [] + Signed(minus, body) == Signed(minus, body);
  }

  lemma SignedKept(minus: bool, body: string)
    requires AllKept(body)
    ensures AllKept(Signed(minus, body)) && AllKept("-") && Signed(true, body) == "-" + body
  {
  }

  lemma KeepMinusPrefix(prefix: string, body: string)
    requires PlainPrefix(prefix) && AllKept(body)
    ensures Keep("-" + prefix + body) == Signed(true, body)
  {
    SignedKept(true, body);
    KeepNone(prefix);
    hide *;
    KeepAll("-");
    KeepAll(body);
    KeepConcat("-" + prefix, body);
    KeepConcat("-", prefix);
    assert "-" + [] == "-";
  }

  predicate EndsInDigit(s: string) { s != [] && IsDigit(s[|s| - 1]) }

  /** Blank words end in one of three letters, and so do markers in theirs or a full stop. */
  lemma WordEnds(s: string)
    requires s != ""
    ensures IsBlankWord(s) ==> UpperChar(s[|s| - 1]) in {'N', 'E', 'T'}
  {
    var u := Upper(s);
    assert u[|u| - 1] == UpperChar(s[|s| - 1]);
    hide Upper, UpperChar;
  }

  lemma MarkerEnds(s: string)
    requires s != ""
    ensures MarkerAt(s).Some? ==> s[|s| - 1] == '.' || UpperChar(s[|s| - 1]) == 'R'
  {
    hide IsWord;
  }

  /** A text ending in a digit has no closing parenthesis and no marker, and is no blank word. */
  lemma DigitEndPlain(s: string)
    requires EndsInDigit(s)
    ensures !IsBlankWord(s) && !Parenthesised(s) && MarkerAt(s).None?
  {
    WordEnds(s);
    MarkerEnds(s);
    hide IsBlankWord, MarkerAt;
  }

  lemma DigitEndParses(text: string)
    requires EndsInDigit(text)
    ensures ParseText(text) == Finish(Strip(text), false)
  {
    StripEnd(text);
    DigitEndPlain(Strip(text));
    hide Strip, Finish, IsBlankWord, Parenthesised, MarkerAt;
  }

  lemma ParenthesisedParses(inside: string)
    requires EndsInDigit(inside)
    ensures ParseText("(" + inside + ")") == Finish(Strip(inside), true)
  {
    var s := "(" + inside + ")";
    ParenthesisedShape(inside);
    StripEnd(inside);
    DigitEndPlain(Strip(inside));
    hide Strip, Finish, IsBlankWord, Parenthesised, MarkerAt;
  }

  lemma ParenthesisedShape(inside: string)
    ensures var s := "(" + inside + ")";
            Strip(s) == s && s[1..|s| - 1] == inside && Parenthesised(s) && !IsBlankWord(s)
  {
    var s := "(" + inside + ")";
    WordEnds(s);
    hide IsBlankWord;
  }

  /** CR or DR in any case, with or without a full stop. */
  predicate IsMark(m: string) {
    && (|m| == 2 || (|m| == 3 && m[2] == '.'))
    && m[0] in {'C', 'c', 'D', 'd'} && m[1] in {'R', 'r'}
  }

  predicate IsDebit(m: string)
    requires IsMark(m)
  {
    m[0] in {'D', 'd'}
  }

  /** A marker behind a blank is cut off, negates exactly if it is DR, and what is kept is what was kept before it. */
  lemma MarkedTextParses(inside: string, mark: string)
    requires EndsInDigit(inside) && IsMark(mark)
    ensures exists rest :: Keep(rest) == Keep(inside) && ParseText(inside + " " + mark) == Finish(rest, IsDebit(mark))
  {
    var text := inside + " " + mark;
    assert !IsSpace(text[|text| - 1]);
    hide Strip, Finish, Keep, ParseText, IsMark;
    StripEnd(text);
    var k :| 0 <= k < |text| && Strip(text) == text[k..] && forall i :: 0 <= i < k ==> IsSpace(text[i]);
    MarkedFront(inside, mark, k);
    KeepDropped(inside, k);
    MarkCut(text, inside[k..], mark);
  }

  lemma MarkedFront(inside: string, mark: string, k: nat)
    requires EndsInDigit(inside) && k < |inside + " " + mark|
    requires forall i :: 0 <= i < k ==> IsSpace((inside + " " + mark)[i])
    ensures k < |inside| && (inside + " " + mark)[k..] == inside[k..] + " " + mark
    ensures forall i :: 0 <= i < k ==> IsSpace(inside[i])
  {
    var text := inside + " " + mark;
    assert text[|inside| - 1] == inside[|inside| - 1];
    assert k < |inside|;
    assert forall i :: 0 <= i < k ==> inside[i] == text[i];
  }

  lemma MarkCut(text: string, front: string, mark: string)
    requires front != [] && IsMark(mark)
    requires Strip(text) == front + " " + mark
    ensures exists rest :: Keep(rest) == Keep(front) && ParseText(text) == Finish(rest, IsDebit(mark))
  {
    MarkShape(front, mark);
    hide Strip, Finish, Keep, IsBlankWord, Parenthesised, MarkerAt, UpperChar, IsMark;
    var rest := Strip(front + " ");
    assert ParseText(text) == Finish(rest, IsDebit(mark));
    KeepBlankEnd(front);
  }

  lemma KeepBlankEnd(front: string)
    ensures Keep(Strip(front + " ")) == Keep(front)
  {
    hide Strip, Keep;
    KeepStrip(front + " ");
    KeepConcat(front, " ");
    KeepNone(" ");
  }

  /** The marker test looks at the last two letters and the character before them. */
  lemma MarkerAtLetters(s: string, t: string)
    requires s == t || s == t + "."
    requires |t| >= 3 && t[|t| - 1] in {'R', 'r'} && t[|t| - 2] in {'C', 'c', 'D', 'd'}
    ensures MarkerAt(s) == if IsWord(t[|t| - 3]) then None else Some(|t| - 2)
  {
    assert if s == t then s[|s| - 1] != '.' else s[|s| - 1] == '.' && s[..|s| - 1] == t;
    hide IsWord;
  }

  lemma MarkShape(front: string, mark: string)
    requires front != [] && IsMark(mark)
    ensures var s := front + " " + mark;
            && !IsBlankWord(s) && !Parenthesised(s)
            && MarkerAt(s) == Some(|front| + 1) && (UpperChar(s[|front| + 1]) == 'D' <==> IsDebit(mark))
            && s[..|front| + 1] == front + " "
  {
    var s, t := front + " " + mark, front + " " + mark[..2];
    assert s == t || s == t + ".";
    assert t[|t| - 1] == mark[1] && t[|t| - 2] == mark[0] && t[|t| - 3] == ' ';
    MarkerAtLetters(s, t);
    assert !IsWord(' ');
    assert s[|front| + 1] == mark[0] && s[|s| - 1] == mark[|mark| - 1];
    WordEnds(s);
    hide IsBlankWord, MarkerAt, IsWord;
  }

  lemma KeepDropped(s: string, k: nat)
    requires k <= |s| && forall i :: 0 <= i < k ==> IsSpace(s[i])
    ensures Keep(s[k..]) == Keep(s)
  {
    hide Keep;
    KeepConcat(s[..k], s[k..]);
    KeepNone(s[..k]);
    assert s == s[..k] + s[k..];
  }

  // ---- the inverse law ------------------------------------------------------------------------------

  lemma SignedTextParses(text: string, cents: nat, notation: Notation, minus: bool)
    requires EndsInDigit(text)
    requires Keep(text) == Signed(minus, PrintMagnitude(cents, notation))
    ensures ParseText(text) == Some(CentsValue(Negated(minus, cents)))
  {
    hide *;
    DigitEndParses(text);
    KeepStrip(text);
    FinishMagnitude(Strip(text), cents, notation, minus, false);
  }

  lemma ParenthesesParse(inside: string, cents: nat, notation: Notation)
    requires EndsInDigit(inside)
    requires Keep(inside) == Signed(false, PrintMagnitude(cents, notation))
    ensures ParseText("(" + inside + ")") == Some(CentsValue(Negated(true, cents)))
  {
    hide *;
    ParenthesisedParses(inside);
    KeepStrip(inside);
    FinishMagnitude(Strip(inside), cents, notation, false, true);
  }

  /** A printed amount with a marker: CR keeps its sign, DR makes it negative. */
  lemma MarkedAmountParses(inside: string, cents: nat, notation: Notation, minus: bool, mark: string)
    requires EndsInDigit(inside) && IsMark(mark)
    requires Keep(inside) == Signed(minus, PrintMagnitude(cents, notation))
    ensures ParseText(inside + " " + mark) == Some(CentsValue(Negated(minus || IsDebit(mark), cents)))
  {
    hide *;
    MarkedTextParses(inside, mark);
    var rest :| Keep(rest) == Keep(inside) && ParseText(inside + " " + mark) == Finish(rest, IsDebit(mark));
    FinishMagnitude(rest, cents, notation, minus, IsDebit(mark));
  }

  /** A marker glued to the digits is no marker: "12.34DR" comes back positive. */
  lemma GluedMarkIsIgnored(inside: string, cents: nat, notation: Notation, mark: string)
    requires EndsInDigit(inside) && IsMark(mark) && |mark| == 2
    requires Keep(inside) == Signed(false, PrintMagnitude(cents, notation))
    ensures ParseText(inside + mark) == Some(CentsValue(cents))
  {
    hide *;
    GluedEnds(inside, mark);
    GluedStripped(inside, mark);
    GluedParses(inside + mark, Strip(inside + mark));
    KeepStrip(inside + mark);
    KeepGlued(inside, mark);
    FinishMagnitude(Strip(inside + mark), cents, notation, false, false);
    assert Negated(false, cents) == cents by { NotNegated(cents); }
  }

  lemma NotNegated(cents: nat)
    ensures Negated(false || false, cents) == cents
  {
  }

  lemma GluedStripped(inside: string, mark: string)
    requires EndsInDigit(inside) && IsMark(mark) && |mark| == 2
    ensures var s := Strip(inside + mark);
            && |s| >= 3 && s[|s| - 1] in {'R', 'r'} && s[|s| - 2] in {'C', 'c', 'D', 'd'} && IsDigit(s[|s| - 3])
  {
    var text := inside + mark;
    GluedEnds(inside, mark);
    hide Strip, IsMark, IsSpace;
    StripEnd(text);
    var k :| 0 <= k < |text| && Strip(text) == text[k..] && forall i :: 0 <= i < k ==> IsSpace(text[i]);
    assert k <= |inside| - 1;
  }

  lemma GluedEnds(inside: string, mark: string)
    requires EndsInDigit(inside) && IsMark(mark) && |mark| == 2
    ensures var text := inside + mark;
            && text[|text| - 1] in {'R', 'r'} && text[|text| - 2] in {'C', 'c', 'D', 'd'} && IsDigit(text[|inside| - 1])
            && !IsSpace(text[|text| - 1]) && !IsSpace(text[|inside| - 1]) && PlainPrefix(mark)
  {
    var text := inside + mark;
    assert text[|text| - 1] == mark[1] && text[|text| - 2] == mark[0] && text[|inside| - 1] == inside[|inside| - 1];
  }

  lemma KeepGlued(inside: string, mark: string)
    requires PlainPrefix(mark)
    ensures Keep(inside + mark) == Keep(inside)
  {
    hide Keep;
    KeepConcat(inside, mark);
    KeepNone(mark);
    assert Keep(inside) + [] == Keep(inside);
  }

  lemma GluedParses(text: string, s: string)
    requires Strip(text) == s && |s| >= 3
    requires s[|s| - 1] in {'R', 'r'} && s[|s| - 2] in {'C', 'c', 'D', 'd'} && IsDigit(s[|s| - 3])
    ensures ParseText(text) == Finish(s, false)
  {
    WordEnds(s);
    MarkerAtLetters(s, s);
    hide Strip, Finish, IsBlankWord, MarkerAt;
  }

  lemma {:induction false} DropSignRun(signs: string, body: string)
    requires (forall i :: 0 <= i < |signs| ==> signs[i] in {'+', '-'}) && EndsInDigit(body) && IsDigit(body[0])
    ensures DropSigns(signs + body) == body
  {
    if signs == [] {
      assert signs + body == body;
    } else {
      assert (signs + body)[1..] == signs[1..] + body;
      DropSignRun(signs[1..], body);
    }
  }

  /** A text of kept characters that ends in a digit is finished as it stands. */
  lemma KeptTextParses(text: string)
    requires AllKept(text) && EndsInDigit(text)
    ensures ParseText(text) == Finish(text, false) && Keep(text) == text
  {
    assert IsKept(text[0]) && !IsSpace(text[0]);
    hide Finish, Keep, IsKept, Strip, ParseText;
    DigitEndParses(text);
    StripEnds(text);
    KeepAll(text);
  }

  lemma SignRunShape(signs: string, body: string)
    requires (forall i :: 0 <= i < |signs| ==> signs[i] in {'+', '-'}) && AllKept(body) && EndsInDigit(body)
    ensures AllKept(signs + body) && EndsInDigit(signs + body)
  {
    assert IsKept('+') && IsKept('-');
    hide IsKept;
  }

  lemma FinishKept(text: string, cents: nat, notation: Notation)
    requires Keep(text) == text && EndsInDigit(text) && DropSigns(text) == PrintMagnitude(cents, notation)
    ensures Finish(text, false) == Some(CentsValue(Negated(text[0] == '-', cents)))
  {
    MagnitudeParses(cents, notation);
    hide PrintMagnitude, Normalise, Float, Keep, DropSigns;
    assert !IsBareMark(text);
  }

  /** Any run of signs may stand in front; the first one decides. */
  lemma SignRunParses(signs: string, cents: nat, notation: Notation)
    requires forall i :: 0 <= i < |signs| ==> signs[i] in {'+', '-'}
    ensures ParseText(signs + PrintMagnitude(cents, notation))
         == Some(CentsValue(Negated(signs != "" && signs[0] == '-', cents)))
  {
    var body := PrintMagnitude(cents, notation);
    MagnitudeShape(cents, notation);
    hide PrintMagnitude, Keep, AllKept, CentsValue, ParseText, Finish, DropSigns;
    SignRunShape(signs, body);
    KeptTextParses(signs + body);
    DropSignRun(signs, body);
    FinishKept(signs + body, cents, notation);
  }

  lemma InnerSignShape(a: string, sign: char, b: string)
    requires AllDigits(a) && AllDigits(b) && a != "" && b != "" && sign in {'+', '-'}
    ensures var text := a + [sign] + b;
            && AllKept(text) && EndsInDigit(text) && !AllDigits(text) && DropSigns(text) == text && |text| > 1
            && forall i :: 0 <= i < |text| ==> text[i] != '.' && text[i] != ','
  {
    var text := a + [sign] + b;
    assert text[|a|] == sign && text[0] == a[0];
  }

  /** A sign between digits makes the text no amount. */
  lemma InnerSignIsNoAmount(a: string, sign: char, b: string)
    requires AllDigits(a) && AllDigits(b) && a != "" && b != "" && sign in {'+', '-'}
    ensures ParseText(a + [sign] + b) == None
  {
    var text := a + [sign] + b;
    InnerSignShape(a, sign, b);
    PlainNormalise(text);
    hide Keep, AllKept, ParseText, AllDigits, Normalise, Float, DropSigns;
    KeptTextParses(text);
  }

  lemma PlainNormalise(s: string)
    requires (forall i :: 0 <= i < |s| ==> s[i] != '.' && s[i] != ',') && !AllDigits(s)
    ensures Normalise(s) == s && Float(s) == None
  {
    assert s[..|s|] == s;
  }

  /** Cells that are empty or spell a missing value have no amount; numeric cells are taken as they are. */
  lemma CellMeaning(text: string, value: real)
    ensures ParseCell(Missing) == None && ParseCell(Numeric(value)) == Some(value)
    ensures Upper(Strip(text)) in {"", "NAN", "NONE", "NAT"} ==> ParseCell(Written(text)) == None
  {
    hide Strip, Finish, MarkerAt;
    if Upper(Strip(text)) == "" {
      assert Strip(text) == "";
    }
  }

  /** The prefixed magnitude ends in a digit and keeps just its sign and magnitude, wherever the minus stands. */
  lemma PrintedParts(prefix: string, cents: nat, notation: Notation)
    requires PlainPrefix(prefix)
    ensures var body := PrintMagnitude(cents, notation);
            && EndsInDigit(prefix + body) && Keep(prefix + body) == Signed(false, body)
            && EndsInDigit(prefix + "-" + body) && Keep(prefix + "-" + body) == Signed(true, body)
            && EndsInDigit("-" + prefix + body) && Keep("-" + prefix + body) == Signed(true, body)
  {
    var body := PrintMagnitude(cents, notation);
    MagnitudeShape(cents, notation);
    hide PrintMagnitude, Keep, DropSigns;
    KeepPrinted(prefix, false, body);
    KeepPrinted(prefix, true, body);
    KeepMinusPrefix(prefix, body);
    assert prefix + Signed(true, body) == prefix + "-" + body;
  }

  /**
   The parser inverts every printer: any whole number of cents, in either notation, with any
   sign style and any plain prefix, parses back to exactly the same amount.
   */
  lemma ParseInvertsPrint(cents: int, notation: Notation, style: SignStyle, prefix: string)
    requires PlainPrefix(prefix)
    ensures ParseText(Print(cents, notation, style, prefix)) == Some(CentsValue(cents))
  {
    hide PrintMagnitude, ParseText, Keep, EndsInDigit, Signed, PlainPrefix, CentsValue;
    var n: nat := if cents < 0 then -cents else cents;
    var body := PrintMagnitude(n, notation);
    PrintedParts(prefix, n, notation);
    if cents >= 0 {
      assert prefix + body + "" == prefix + body;
      if style.Suffix? {
        MarkedAmountParses(prefix + body, n, notation, false, "CR");
        assert prefix + body + " " + "CR" == prefix + body + " CR";
      } else {
        SignedTextParses(prefix + body, n, notation, false);
      }
    } else {
      assert "(" + (prefix + body) + ")" == "(" + prefix + body + ")";
      match style
      case MinusFirst => SignedTextParses("-" + prefix + body, n, notation, true);
      case MinusAfterPrefix => SignedTextParses(prefix + "-" + body, n, notation, true);
      case Parentheses => ParenthesesParse(prefix + body, n, notation);
      case Suffix =>
        MarkedAmountParses(prefix + body, n, notation, false, "DR");
        assert prefix + body + " " + "DR" == prefix + body + " DR";
    }
  }

  lemma ClosingParenthesis(text: string)
    requires text != [] && !IsSpace(text[0]) && text[0] != '(' && text[|text| - 1] == ')'
    ensures ParseText(text) == Finish(text, false)
  {
    StripEnds(text);
    WordEnds(text);
    MarkerEnds(text);
    hide Strip, Finish, IsBlankWord, MarkerAt;
  }

  lemma InnerParentheses(prefix: string, cents: nat, notation: Notation)
    requires PlainPrefix(prefix) && prefix != "" && !IsSpace(prefix[0]) && prefix[0] != '('
    ensures ParseText(prefix + "(" + PrintMagnitude(cents, notation) + ")") == Some(CentsValue(cents))
  {
    var body := PrintMagnitude(cents, notation);
    MagnitudeShape(cents, notation);
    hide PrintMagnitude, Keep, DropSigns;
    ClosingParenthesis(prefix + "(" + body + ")");
    KeepConcat(prefix + "(" + body, ")");
    KeepConcat(prefix + "(", body);
    KeepNone(prefix + "(");
    KeepNone(")");
    KeepAll(body);
    FinishMagnitude(prefix + "(" + body + ")", cents, notation, false, false);
  }

  /** Parentheses right after an opening parenthesis of the prefix: the outer pair still encloses everything. */
  lemma OuterParentheses(rest: string, cents: nat, notation: Notation)
    requires PlainPrefix(rest)
    ensures ParseText("(" + (rest + PrintMagnitude(cents, notation)) + ")") == Some(CentsValue(Negated(true, cents)))
  {
    hide *;
    PrintedParts(rest, cents, notation);
    ParenthesesParse(rest + PrintMagnitude(cents, notation), cents, notation);
  }

  lemma ParseStripped(text: string)
    requires Strip(text) != [] && !IsSpace(Strip(text)[0])
    requires !IsSpace(Strip(text)[|Strip(text)| - 1])
    ensures ParseText(text) == ParseText(Strip(text))
  {
    hide Strip, Finish, IsBlankWord, MarkerAt;
    StripEnds(Strip(text));
  }

  lemma EndKept(s: string)
    requires s != [] && !IsSpace(s[|s| - 1])
    ensures TrimRight(s) == s
  {
  }

  lemma StripPrefixed(prefix: string, tail: string)
    requires tail != [] && !IsSpace(tail[0]) && !IsSpace(tail[|tail| - 1])
    ensures Strip(prefix + tail) == TrimLeft(prefix) + tail
    ensures TrimLeft(prefix) + tail != [] && !IsSpace((TrimLeft(prefix) + tail)[0])
  {
    TrimLeftConcat(prefix, tail);
    var s := TrimLeft(prefix) + tail;
    assert s[|s| - 1] == tail[|tail| - 1];
    hide TrimLeft, IsSpace;
    EndKept(s);
  }

  lemma TrimmedIsPlain(prefix: string)
    requires PlainPrefix(prefix)
    ensures PlainPrefix(TrimLeft(prefix))
    ensures TrimLeft(prefix) != "" ==> PlainPrefix(TrimLeft(prefix)[1..])
  {
    TrimLeftDrops(prefix);
    hide TrimLeft, IsKept;
  }

  /**
   A prefix in front of the parentheses: "$(12.34)" comes back positive.  The sign survives exactly
   if nothing but blanks stands before the parentheses, or if the prefix itself opens with one.
   */
  lemma PrefixedParenthesesParse(prefix: string, cents: nat, notation: Notation)
    requires PlainPrefix(prefix)
    ensures var p := TrimLeft(prefix);
            ParseText(prefix + ("(" + PrintMagnitude(cents, notation) + ")"))
            == Some(CentsValue(Negated(p == "" || p[0] == '(', cents)))
  {
    var p, body := TrimLeft(prefix), PrintMagnitude(cents, notation);
    var tail := "(" + body + ")";
    hide TrimLeft, PrintMagnitude, ParseText, Strip, PlainPrefix, CentsValue;
    StripPrefixed(prefix, tail);
    assert (p + tail)[|p + tail| - 1] == ')';
    ParseStripped(prefix + tail);
    TrimmedIsPlain(prefix);
    if p == "" {
      NoPrefix();
      OuterParentheses("", cents, notation);
      assert p + tail == "(" + ("" + body) + ")";
    } else if p[0] == '(' {
      OpeningIsPlain(p[1..]);
      OuterParentheses(p[1..] + "(", cents, notation);
      assert p + tail == "(" + (p[1..] + "(" + body) + ")";
    } else {
      InnerParentheses(p, cents, notation);
      assert p + tail == p + "(" + body + ")";
    }
  }

  lemma NoPrefix()
    ensures PlainPrefix("")
  {
  }

  lemma OpeningIsPlain(rest: string)
    requires PlainPrefix(rest)
    ensures PlainPrefix(rest + "(")
  {
  }

  // ---- whole units: where the decimal guess goes wrong -------------------------------------------------

  /** A printed magnitude without decimals: what it normalises to, by the number of groups. */
  lemma WholeUnits(n: nat)
    ensures var g := Grouped(n, ',');
            Normalise(g) == if n < 1000 then Digits(n) else Replace(g, ',', '.')
  {
    hide Remove, Replace, Digits, ThreeDigits;
    var g := Grouped(n, ',');
    GroupedMeaning(n, ',');
    assert LastIndex(g, '.') == -1;
    RemoveAbsent(g, '.');
    if n < 1000 {
      assert LastIndex(g, ',') == -1;
    } else {
      assert g[|Grouped(n / 1000, ',')|] == ',';
    }
  }

  lemma WithPoint(s: string, i: nat)
    requires i < |s| && s[i] == '.'
    ensures !AllDigits(s)
  {
    assert !IsDigit(s[i]);
  }

  /** No point at all: the plain number. */
  lemma FloatOfDigits(s: string)
    requires AllDigits(s) && s != []
    ensures Float(s) == Some(NatOf(s) as real)
  {
    hide NatOf, FirstIndex, AllDigits;
    WithoutPoint(s);
    assert FirstIndex(s, '.') == |s| && s[..|s|] == s;
    assert AllDigits("") by { NoDigits(); }
    assert DecimalValue(s, "") == NatOf(s) as real by { NoDigits(); }
  }

  lemma NoDigits()
    ensures AllDigits("") && NatOf("") == 0 && Pow10(0) == 1
  {
  }

  /** Two points: not a number. */
  lemma FloatOfTwoPoints(a: string, b: string, c: string)
    requires AllDigits(a)
    ensures Float(a + "." + (b + "." + c)).None?
  {
    hide DecimalValue, FirstIndex, AllDigits;
    WithoutPoint(a);
    FirstIndexAt(a, '.', b + "." + c);
    SplitAt(a, '.', b + "." + c);
    WithPoint(b + "." + c, |b|);
  }

  /** One separator is read as a decimal point, a thousandth of the amount. */
  lemma OneGroupSeparator(n: nat)
    requires 1000 <= n < 1000000
    ensures Float(Replace(Grouped(n, ','), ',', '.')) == Some(n as real / 1000.0)
  {
    hide Replace, Float, Digits, ThreeDigits, NatOf, DecimalValue;
    var front, three := Digits(n / 1000), ThreeDigits(n % 1000);
    assert Grouped(n, ',') == front + "," + three;
    ReplacePoint(front, three);
    FloatOfDecimal(front, three);
    NatOfDigits(n / 1000);
    NatOfThreeDigits(n % 1000);
    ValueOfThousandths(front, three);
  }

  lemma ValueOfThousandths(whole: string, frac: string)
    requires AllDigits(whole) && AllDigits(frac) && |frac| == 3
    ensures DecimalValue(whole, frac) == (NatOf(whole) * 1000 + NatOf(frac)) as real / 1000.0
  {
    hide NatOf, AllDigits, Pow10;
    PowersOfTen();
  }

  lemma {:induction false} ReplaceConcat(a: string, b: string, c: char, d: char)
    ensures Replace(a + b, c, d) == Replace(a, c, d) + Replace(b, c, d)
  {
    hide Replace;
    var l, r := Replace(a + b, c, d), Replace(a, c, d) + Replace(b, c, d);
    assert |l| == |r|;
    assert forall i :: 0 <= i < |l| ==> l[i] == r[i];
  }

  predicate SplitsAt(g: string, first: string, rest: string) {
    AllDigits(first) && g == first + "," + rest
  }

  /** Every amount of a million or more has a second separator after its first. */
  lemma {:induction false} FirstGroup(n: nat)
    requires n >= 1000000
    ensures exists first, rest :: SplitsAt(Grouped(n, ','), first, rest) && ',' in rest
  {
    hide Digits, ThreeDigits;
    var three := ThreeDigits(n % 1000);
    assert Grouped(n, ',') == Grouped(n / 1000, ',') + "," + three;
    var first, rest := Digits(n / 1000000), ThreeDigits(n / 1000 % 1000);
    if n < 1000000000 {
      assert n / 1000 / 1000 == n / 1000000;
      assert Grouped(n / 1000, ',') == first + "," + rest;
    } else {
      FirstGroup(n / 1000);
      first, rest :| SplitsAt(Grouped(n / 1000, ','), first, rest) && ',' in rest;
    }
    FirstGroupStep(first, rest, three);
    assert SplitsAt(Grouped(n, ','), first, rest + "," + three);
  }

  lemma FirstGroupStep(first: string, rest: string, three: string)
    ensures first + "," + rest + "," + three == first + "," + (rest + "," + three)
    ensures ',' in rest + "," + three
  {
    assert (rest + "," + three)[|rest|] == ',';
  }

  /** Two or more separators are no number at all. */
  lemma ManyGroupSeparators(n: nat)
    requires n >= 1000000
    ensures Float(Replace(Grouped(n, ','), ',', '.')).None?
  {
    hide Grouped, Replace, Float, AllDigits;
    FirstGroup(n);
    var first, rest :| SplitsAt(Grouped(n, ','), first, rest) && ',' in rest;
    var k :| 0 <= k < |rest| && rest[k] == ',';
    SplitReplaced(first, rest, k);
    var points := Replace(rest, ',', '.');
    FloatOfTwoPoints(first, points[..k], points[k + 1..]);
  }

  lemma SplitReplaced(first: string, rest: string, k: nat)
    requires AllDigits(first) && k < |rest| && rest[k] == ','
    ensures var points := Replace(rest, ',', '.');
            Replace(first + "," + rest, ',', '.') == first + "." + (points[..k] + "." + points[k + 1..])
  {
    hide Replace, AllDigits;
    WithoutComma(first);
    ReplaceConcat(first + ",", rest, ',', '.');
    ReplaceConcat(first, ",", ',', '.');
    assert Replace(first, ',', '.') == first;
    assert Replace(",", ',', '.') == ".";
    var points := Replace(rest, ',', '.');
    assert points == points[..k] + "." + points[k + 1..];
  }

  /**
   Without decimals the last comma is taken for a decimal point: a whole number grouped by
   commas comes back below a thousand, shrinks a thousandfold below a million, and is rejected
   from there on.
   */
  lemma WholeUnitsParse(n: nat)
    ensures ParseText(Grouped(n, ',')) ==
            if n < 1000 then Some(n as real) else if n < 1000000 then Some(n as real / 1000.0) else None
  {
    hide Grouped, ParseText, Float, Replace, Digits, Normalise, Finish, NatOf;
    var g := Grouped(n, ',');
    WholeUnits(n);
    GroupedFinish(n);
    if n < 1000 {
      NatOfDigits(n);
      FloatOfDigits(Digits(n));
    } else if n < 1000000 {
      OneGroupSeparator(n);
    } else {
      ManyGroupSeparators(n);
    }
  }

  lemma GroupedFinish(n: nat)
    ensures ParseText(Grouped(n, ',')) == Float(Normalise(Grouped(n, ',')))
  {
    hide ParseText, Normalise, Float, Remove, NatOf, Grouped, Keep, Strip;
    var g := Grouped(n, ',');
    GroupedMeaning(n, ',');
    GroupedEndsInDigit(n, ',');
    DigitEndParses(g);
    StripEnds(g);
    KeepAll(g);
    assert DropSigns(g) == g;
  }

  lemma GroupedEndsInDigit(n: nat, sep: char)
    ensures EndsInDigit(Grouped(n, sep))
  {
    if n >= 1000 {
      var g := Grouped(n, sep);
      assert g[|g| - 1] == ThreeDigits(n % 1000)[2];
    }
  }
}
