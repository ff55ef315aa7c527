/**
 The in-memory aging map: three dictionaries filled in one pass over the open
 invoices, and read by every later stage.  Lookups are specified as plain linear
 scans of the rows the map was built from.
 */
module AgingMap {
  import opened Core
  import opened Text

  /** One open invoice; amounts are whole cents, and may be negative (credit memo). */
  datatype AgingInvoice = AgingInvoice(
    number: string, customerNumber: string, customerName: string,
    outstanding: int, currency: string, ou: string)

  /** A database row of the aging report, with the columns that may be null. */
  datatype AgingRecord = AgingRecord(
    number: string, customerNumber: Option<string>, customerName: Option<string>,
    outstanding: Option<int>, currency: Option<string>, ou: Option<string>)

  function OrEmpty(s: Option<string>): string { if s.Some? then s.value else "" }

  /** The read-only snapshot of a database row: nulls defaulted, number and customer name stripped. */
  function View(r: AgingRecord): AgingInvoice {
    AgingInvoice(Strip(r.number), OrEmpty(r.customerNumber), Strip(OrEmpty(r.customerName)),
                 if r.outstanding.Some? then r.outstanding.value else 0, OrEmpty(r.currency), OrEmpty(r.ou))
  }

  function Views(records: seq<AgingRecord>): (r: seq<AgingInvoice>)
    ensures |r| == |records|
  {
    seq(|records|, i requires 0 <= i < |records| => View(records[i]))
  }

  /** The three indexes of the map and the key each one files a row under. */
  datatype Index = ByInvoice | ByCustomer | ByOu

  function KeyOf(ix: Index, v: AgingInvoice): string {
    match ix
    case ByInvoice => Upper(v.number)
    case ByCustomer => Upper(v.customerName)
    case ByOu => v.ou
  }

  /** The rows filed under k, in insertion order. */
  function Select(ix: Index, rows: seq<AgingInvoice>, k: string): seq<AgingInvoice> {
    if rows == [] then []
    else
      var init, last := rows[..|rows| - 1], rows[|rows| - 1];
      Select(ix, init, k) + (if KeyOf(ix, last) == k then [last] else [])
  }

  lemma {:induction false} SelectMember(ix: Index, rows: seq<AgingInvoice>, k: string, v: AgingInvoice)
    ensures v in Select(ix, rows, k) <==>
            v in rows && k == match ix case ByInvoice => Upper(v.number) case ByCustomer => Upper(v.customerName) case ByOu => v.ou
  {
    if rows != [] {
      SelectMember(ix, rows[..|rows| - 1], k, v);
      assert rows == rows[..|rows| - 1] + [rows[|rows| - 1]];
    }
  }

  /** The key without a trailing run of capital letters ("2343AP" -> "2343"). */
  function StripLetters(s: string): (r: string)
    ensures r <= s
    ensures r == [] || !IsUpperLetter(r[|r| - 1])
    ensures forall i :: |r| <= i < |s| ==> IsUpperLetter(s[i])
  {
    if s != [] && IsUpperLetter(s[|s| - 1]) then StripLetters(s[..|s| - 1]) else s
  }

  /** The rows a query may choose from: exact key if any row anywhere has it, else the stripped key. */
  function Pool(rows: seq<AgingInvoice>, number: string): seq<AgingInvoice> {
    var key := Upper(Strip(number));
    var exact := Select(ByInvoice, rows, key);
    if exact != [] then exact else Select(ByInvoice, rows, StripLetters(key))
  }

  /** The first row of one operating unit: a linear scan. */
  function FirstInOu(rows: seq<AgingInvoice>, ou: string): (r: Option<AgingInvoice>)
    ensures r.None? <==> forall v :: v in rows ==> v.ou != ou
    ensures r.Some? ==> r.value in rows && r.value.ou == ou
  {
    if rows == [] then None
    else if rows[0].ou == ou then Some(rows[0])
    else FirstInOu(rows[1..], ou)
  }

  /**
   Reference definition of an invoice lookup, with no index: the first row of the
   pool in the wanted operating unit, else the first row of the pool.  "" stands for
   an unknown operating unit.
   */
  function Lookup(rows: seq<AgingInvoice>, number: string, ou: string): Option<AgingInvoice> {
    var pool := Pool(rows, number);
    if number == "" || pool == [] then None
    else if ou != "" && FirstInOu(pool, ou).Some? then FirstInOu(pool, ou)
    else Some(pool[0])
  }

  lemma SelectMembers(rows: seq<AgingInvoice>, k: string)
    ensures forall v :: v in Select(ByInvoice, rows, k) <==> v in rows && Upper(v.number) == k
    ensures Select(ByInvoice, rows, k) != [] <==> exists v :: v in rows && Upper(v.number) == k
  {
    var r := Select(ByInvoice, rows, k);
    forall v ensures v in r <==> v in rows && Upper(v.number) == k {
      SelectMember(ByInvoice, rows, k, v);
    }
    hide Upper, Select;
    if r != [] {
      assert r[0] in r;
    }
  }

  /** When a lookup fails: exactly when neither the key nor the stripped key has a row in any unit. */
  lemma LookupFails(rows: seq<AgingInvoice>, number: string, ou: string)
    ensures var key := Upper(Strip(number));
            Lookup(rows, number, ou).None? <==>
              number == "" || forall v | v in rows :: Upper(v.number) != key && Upper(v.number) != StripLetters(key)
  {
    hide Upper, Strip, StripLetters, Select, FirstInOu;
    var key := Upper(Strip(number));
    SelectMembers(rows, key);
    SelectMembers(rows, StripLetters(key));
  }

  /**
   What a successful lookup promises: its row has the key, or the stripped key if no row of
   any unit has the key; and it is in the wanted unit if any row of that key is.
   */
  lemma LookupMeaning(rows: seq<AgingInvoice>, number: string, ou: string)
    ensures var r := Lookup(rows, number, ou);
            var key := Upper(Strip(number));
            r.Some? ==>
              && r.value in rows
              && Upper(r.value.number) in {key, StripLetters(key)}
              && (Upper(r.value.number) != key ==> forall v | v in rows :: Upper(v.number) != key)
              && (ou != "" && r.value.ou != ou ==>
                    forall v | v in rows :: Upper(v.number) == Upper(r.value.number) ==> v.ou != ou)
  {
    hide Upper, Strip, StripLetters, Select, FirstInOu;
    var key := Upper(Strip(number));
    SelectMembers(rows, key);
    SelectMembers(rows, StripLetters(key));
    var pool := Pool(rows, number);
    if pool != [] {
      assert pool[0] in pool;
    }
  }

  /** Row i has the key, and no row before it does that also is in the unit, if a unit is wanted. */
  predicate IsFirst(rows: seq<AgingInvoice>, i: nat, key: string, ou: Option<string>) {
    && i < |rows| && Upper(rows[i].number) == key && (ou.Some? ==> rows[i].ou == ou.value)
    && forall j :: 0 <= j < i && Upper(rows[j].number) == key ==> ou.Some? && rows[j].ou != ou.value
  }

  lemma IsFirstSnoc(rows: seq<AgingInvoice>, i: nat, key: string, ou: Option<string>, last: AgingInvoice)
    requires IsFirst(rows, i, key, ou)
    ensures IsFirst(rows + [last], i, key, ou) && (rows + [last])[i] == rows[i]
  {
    hide Upper;
  }

  /** The last row is the first of its key in the unit if no row before it answers. */
  lemma IsFirstLast(rows: seq<AgingInvoice>, key: string, ou: Option<string>, last: AgingInvoice)
    requires Upper(last.number) == key && (ou.Some? ==> last.ou == ou.value)
    requires forall v :: v in rows && Upper(v.number) == key ==> ou.Some? && v.ou != ou.value
    ensures IsFirst(rows + [last], |rows|, key, ou)
  {
    hide Upper;
  }

  lemma SelectSnoc(rows: seq<AgingInvoice>, last: AgingInvoice, key: string)
    ensures Select(ByInvoice, rows + [last], key)
         == if Upper(last.number) == key then Select(ByInvoice, rows, key) + [last] else Select(ByInvoice, rows, key)
  {
    assert (rows + [last])[..|rows|] == rows;
  }

  lemma {:induction false} SelectFirst(rows: seq<AgingInvoice>, key: string)
    ensures Select(ByInvoice, rows, key) != [] ==>
              exists i: nat :: IsFirst(rows, i, key, None) && rows[i] == Select(ByInvoice, rows, key)[0]
  {
    if rows == [] {
    } else {
      var init, last := rows[..|rows| - 1], rows[|rows| - 1];
      hide Upper, Select, IsFirst;
      assert rows == init + [last];
      SelectSnoc(init, last, key);
      SelectMembers(init, key);
      SelectFirst(init, key);
      if Select(ByInvoice, init, key) != [] {
        var i: nat :| IsFirst(init, i, key, None) && init[i] == Select(ByInvoice, init, key)[0];
        IsFirstSnoc(init, i, key, None, last);
      } else if Upper(last.number) == key {
        IsFirstLast(init, key, None, last);
      }
    }
  }

  lemma {:induction false} FirstInOuSnoc(rows: seq<AgingInvoice>, last: AgingInvoice, ou: string)
    ensures FirstInOu(rows + [last], ou) ==
            if FirstInOu(rows, ou).Some? then FirstInOu(rows, ou) else if last.ou == ou then Some(last) else None
  {
    if rows == [] {
      assert rows + [last] == [last] && [last][1..] == [];
    } else {
      assert (rows + [last])[1..] == rows[1..] + [last];
      FirstInOuSnoc(rows[1..], last, ou);
    }
  }

  /** The row the unit's scan of the filed rows finds is the first of its key and unit in the list itself. */
  ghost predicate ScanFindsFirst(rows: seq<AgingInvoice>, key: string, ou: string) {
    var found := FirstInOu(Select(ByInvoice, rows, key), ou);
    found.Some? ==> exists i: nat :: IsFirst(rows, i, key, Some(ou)) && found == Some(rows[i])
  }

  lemma NoneInOu(rows: seq<AgingInvoice>, key: string, ou: string)
    requires FirstInOu(Select(ByInvoice, rows, key), ou).None?
    ensures forall v :: v in rows && Upper(v.number) == key ==> v.ou != ou
  {
    SelectMembers(rows, key);
    hide Upper, Select, FirstInOu;
  }

  lemma ScanFindsNext(init: seq<AgingInvoice>, last: AgingInvoice, key: string, ou: string)
    requires ScanFindsFirst(init, key, ou)
    ensures ScanFindsFirst(init + [last], key, ou)
  {
    var before := FirstInOu(Select(ByInvoice, init, key), ou);
    SelectSnoc(init, last, key);
    FirstInOuSnoc(Select(ByInvoice, init, key), last, ou);
    hide Upper, FirstInOu, Select;
    if before.Some? {
      var i: nat :| IsFirst(init, i, key, Some(ou)) && before == Some(init[i]);
      IsFirstSnoc(init, i, key, Some(ou), last);
    } else if Upper(last.number) == key && last.ou == ou {
      NoneInOu(init, key, ou);
      IsFirstLast(init, key, Some(ou), last);
    }
  }

  lemma {:induction false} SelectFirstInOu(rows: seq<AgingInvoice>, key: string, ou: string)
    ensures ScanFindsFirst(rows, key, ou)
  {
    if rows != [] {
      var init, last := rows[..|rows| - 1], rows[|rows| - 1];
      SelectFirstInOu(init, key, ou);
      hide ScanFindsFirst;
      ScanFindsNext(init, last, key, ou);
      assert rows == init + [last];
    }
  }

  /** Row i, and every earlier row of its number is in another unit while row i is in the wanted one. */
  predicate ComesFirst(rows: seq<AgingInvoice>, i: nat, ou: string) {
    i < |rows| && forall j :: 0 <= j < i && Upper(rows[j].number) == Upper(rows[i].number) ==>
                    ou != "" && rows[i].ou == ou && rows[j].ou != ou
  }

  /**
   Which of several rows of one number answers: the first row of the wanted unit in the order
   of the rows, or, if none is in that unit or no unit is wanted, the first row of all.
   */
  lemma LookupIsFirst(rows: seq<AgingInvoice>, number: string, ou: string)
    ensures var r := Lookup(rows, number, ou);
            r.Some? ==> exists i: nat :: ComesFirst(rows, i, ou) && rows[i] == r.value
  {
    hide Upper, Strip, StripLetters, Select, FirstInOu;
    var exact := Upper(Strip(number));
    var key := if Select(ByInvoice, rows, exact) != [] then exact else StripLetters(exact);
    if Lookup(rows, number, ou).Some? {
      if ou != "" && FirstInOu(Pool(rows, number), ou).Some? {
        SelectFirstInOu(rows, key, ou);
        var i: nat :| IsFirst(rows, i, key, Some(ou)) && Lookup(rows, number, ou) == Some(rows[i]);
        assert ComesFirst(rows, i, ou);
      } else {
        SelectFirst(rows, key);
        var i: nat :| IsFirst(rows, i, key, None) && Lookup(rows, number, ou) == Some(rows[i]);
        assert ComesFirst(rows, i, ou);
      }
    }
  }

  /** The row of record i, with missing fields defaulted and names trimmed. */
  ghost predicate ShowsRecord(v: AgingInvoice, r: AgingRecord) {
    && v.number == Strip(r.number)
    && v.customerNumber == (if r.customerNumber.Some? then r.customerNumber.value else "")
    && v.customerName == (if r.customerName.Some? then Strip(r.customerName.value) else "")
    && v.outstanding == (if r.outstanding.Some? then r.outstanding.value else 0)
    && v.currency == (if r.currency.Some? then r.currency.value else "")
    && v.ou == (if r.ou.Some? then r.ou.value else "")
  }

  lemma ViewShows(r: AgingRecord)
    ensures ShowsRecord(View(r), r)
  {
    assert Strip("") == "";
  }

  lemma LookupOf(rows: seq<AgingInvoice>, i: nat, number: string, ou: string)
    requires i < |rows| && number != "" && ou != "" && rows[i].ou == ou && Upper(rows[i].number) == Upper(Strip(number))
    requires forall j :: 0 <= j < i && Upper(rows[j].number) == Upper(Strip(number)) ==> rows[j].ou != ou
    ensures Lookup(rows, number, ou) == Some(rows[i])
  {
    hide Upper, Strip, Lookup, StripLetters;
    assert rows[i] in rows;
    LookupFails(rows, number, ou);
    LookupMeaning(rows, number, ou);
    LookupIsFirst(rows, number, ou);
    var k: nat :| ComesFirst(rows, k, ou) && Lookup(rows, number, ou) == Some(rows[k]);
  }

  /**
   From the database to the answer: if record i is the first of its number in the unit, any
   spelling of that number finds exactly that record.
   */
  lemma RecordIsFound(records: seq<AgingRecord>, i: nat, number: string)
    requires i < |records| && number != "" && records[i].ou.Some? && records[i].ou.value != ""
    requires Upper(Strip(records[i].number)) == Upper(Strip(number))
    requires forall j :: 0 <= j < i && Upper(Strip(records[j].number)) == Upper(Strip(number)) ==> records[j].ou != records[i].ou
    ensures var r := Lookup(Views(records), number, records[i].ou.value);
            r.Some? && ShowsRecord(r.value, records[i])
  {
    hide Upper, Strip, Lookup, View;
    forall j | 0 <= j < |records| ensures ShowsRecord(Views(records)[j], records[j]) {
      ViewShows(records[j]);
    }
    LookupOf(Views(records), i, number, records[i].ou.value);
  }

  // ---- stable descending order -------------------------------------------------

  /** Inserts v behind every row that is at least as large: equal rows keep their order. */
  function InsertDesc(v: AgingInvoice, sorted: seq<AgingInvoice>): seq<AgingInvoice> {
    if sorted == [] || sorted[0].outstanding < v.outstanding then [v] + sorted
    else [sorted[0]] + InsertDesc(v, sorted[1..])
  }

  /** sorted(rows, key=outstanding, reverse=True): Python keeps ties in their original order. */
  function SortDesc(rows: seq<AgingInvoice>): seq<AgingInvoice> {
    if rows == [] then [] else InsertDesc(rows[|rows| - 1], SortDesc(rows[..|rows| - 1]))
  }

  ghost predicate Descending(rows: seq<AgingInvoice>) {
    forall i, j :: 0 <= i < j < |rows| ==> rows[i].outstanding >= rows[j].outstanding
  }

  /** The rows of one amount, in order. */
  function OfAmount(rows: seq<AgingInvoice>, amount: int): seq<AgingInvoice> {
    if rows == [] then []
    else (if rows[0].outstanding == amount then [rows[0]] else []) + OfAmount(rows[1..], amount)
  }

  lemma OfAmountStep(v: AgingInvoice, rest: seq<AgingInvoice>, amount: int)
    ensures OfAmount([v] + rest, amount) == if v.outstanding == amount then [v] + OfAmount(rest, amount) else OfAmount(rest, amount)
  {
    assert ([v] + rest)[1..] == rest;
    assert [] + OfAmount(rest, amount) == OfAmount(rest, amount);
  }

  lemma {:induction false} OfAmountConcat(xs: seq<AgingInvoice>, ys: seq<AgingInvoice>, amount: int)
    ensures OfAmount(xs + ys, amount) == OfAmount(xs, amount) + OfAmount(ys, amount)
  {
    if xs == [] {
      assert xs + ys == ys;
    } else {
      hide OfAmount;
      var x, rest := xs[0], xs[1..];
      assert xs == [x] + rest;
      assert xs + ys == [x] + (rest + ys);
      OfAmountStep(x, rest, amount);
      OfAmountStep(x, rest + ys, amount);
      OfAmountConcat(rest, ys, amount);
      Regroup(x, OfAmount(rest, amount), OfAmount(ys, amount));
    }
  }

  lemma Regroup(x: AgingInvoice, a: seq<AgingInvoice>, b: seq<AgingInvoice>)
    ensures [x] + (a + b) == [x] + a + b
  {
  }

  lemma OfAmountSnoc(xs: seq<AgingInvoice>, v: AgingInvoice, amount: int)
    ensures OfAmount(xs + [v], amount) == OfAmount(xs, amount) + (if v.outstanding == amount then [v] else [])
  {
    OfAmountConcat(xs, [v], amount);
    assert [v][1..] == [];
  }

  lemma OfAmountNone(xs: seq<AgingInvoice>, amount: int)
    requires forall v :: v in xs ==> v.outstanding != amount
    ensures OfAmount(xs, amount) == []
  {
  }

  lemma {:induction false} InsertDescPermutes(v: AgingInvoice, sorted: seq<AgingInvoice>)
    ensures multiset(InsertDesc(v, sorted)) == multiset(sorted) + multiset{v}
  {
    if sorted != [] && sorted[0].outstanding >= v.outstanding {
      InsertDescPermutes(v, sorted[1..]);
      assert sorted == [sorted[0]] + sorted[1..];
    }
  }

  lemma {:induction false} InsertDescOrders(v: AgingInvoice, sorted: seq<AgingInvoice>)
    requires Descending(sorted)
    ensures Descending(InsertDesc(v, sorted))
  {
    if sorted != [] && sorted[0].outstanding >= v.outstanding {
      var rest := InsertDesc(v, sorted[1..]);
      InsertDescOrders(v, sorted[1..]);
      InsertDescPermutes(v, sorted[1..]);
      forall w | w in rest ensures sorted[0].outstanding >= w.outstanding {
        assert w in multiset(sorted[1..]) + multiset{v};
      }
      DescendingCons(sorted[0], rest);
    }
  }

  lemma DescendingCons(v: AgingInvoice, rest: seq<AgingInvoice>)
    requires Descending(rest) && forall w :: w in rest ==> v.outstanding >= w.outstanding
    ensures Descending([v] + rest)
  {
  }

  lemma {:induction false} InsertDescStable(v: AgingInvoice, sorted: seq<AgingInvoice>, amount: int)
    requires Descending(sorted)
    ensures OfAmount(InsertDesc(v, sorted), amount)
         == OfAmount(sorted, amount) + (if v.outstanding == amount then [v] else [])
  {
    var r := InsertDesc(v, sorted);
    if sorted == [] || sorted[0].outstanding < v.outstanding {
      assert r[1..] == sorted;
      if v.outstanding == amount {
        OfAmountNone(sorted, amount);
      }
    } else {
      InsertDescStable(v, sorted[1..], amount);
      assert r[1..] == InsertDesc(v, sorted[1..]);
    }
  }

  lemma {:induction false} SortDescOrders(rows: seq<AgingInvoice>)
    ensures Descending(SortDesc(rows))
    ensures multiset(SortDesc(rows)) == multiset(rows)
  {
    if rows != [] {
      var init, last := rows[..|rows| - 1], rows[|rows| - 1];
      SortDescOrders(init);
      InsertDescPermutes(last, SortDesc(init));
      InsertDescOrders(last, SortDesc(init));
      assert rows == init + [last];
    }
  }

  /** Rows of equal amount keep their original order: the sort is stable. */
  lemma {:induction false} SortDescStable(rows: seq<AgingInvoice>, amount: int)
    ensures OfAmount(SortDesc(rows), amount) == OfAmount(rows, amount)
  {
    if rows != [] {
      var init, last := rows[..|rows| - 1], rows[|rows| - 1];
      var sorted := SortDesc(init);
      assert SortDesc(rows) == InsertDesc(last, sorted);
      assert rows == init + [last];
      SortDescStable(init, amount);
      SortDescOrders(init);
      InsertDescStable(last, sorted, amount);
      OfAmountSnoc(init, last, amount);
      hide *;
    }
  }

  function Prefix<T>(xs: seq<T>, limit: nat): seq<T> {
    if limit <= |xs| then xs[..limit] else xs
  }

  /** The invoices offered to the AI for one operating unit. */
  function TopForOu(rows: seq<AgingInvoice>, ou: string, limit: nat): seq<AgingInvoice> {
    Prefix(SortDesc(Select(ByOu, rows, ou)), limit)
  }

  /** The top list is a descending part of the unit's rows, and nothing left out is larger than what is in. */
  lemma TopForOuIsTop(rows: seq<AgingInvoice>, ou: string, limit: nat)
    ensures var top := TopForOu(rows, ou, limit);
            var all := Select(ByOu, rows, ou);
            && |top| == (if limit <= |all| then limit else |all|)
            && Descending(top)
            && multiset(top) <= multiset(all)
            && forall v, w :: v in top && w in multiset(all) - multiset(top) ==> v.outstanding >= w.outstanding
  {
    var top, all := TopForOu(rows, ou, limit), Select(ByOu, rows, ou);
    var sorted := SortDesc(all);
    hide SortDesc, Select;
    SortDescOrders(all);
    SameLength(sorted, all);
    var rest := sorted[|top|..];
    assert sorted == top + rest;
    hide *;
    DescendingSplit(top, rest);
    assert multiset(all) == multiset(top) + multiset(rest);
    assert multiset(all) - multiset(top) == multiset(rest);
  }

  lemma DescendingSplit(top: seq<AgingInvoice>, rest: seq<AgingInvoice>)
    requires Descending(top + rest)
    ensures Descending(top)
    ensures forall v, w :: v in top && w in rest ==> v.outstanding >= w.outstanding
  {
    forall i, j | 0 <= i < j < |top| ensures top[i].outstanding >= top[j].outstanding {
      assert (top + rest)[i] == top[i] && (top + rest)[j] == top[j];
    }
    forall v, w | v in top && w in rest ensures v.outstanding >= w.outstanding {
      var i :| 0 <= i < |top| && top[i] == v;
      var j :| 0 <= j < |rest| && rest[j] == w;
      assert (top + rest)[i] == v && (top + rest)[|top| + j] == w;
    }
  }

  lemma SameLength(xs: seq<AgingInvoice>, ys: seq<AgingInvoice>)
    requires multiset(xs) == multiset(ys)
    ensures |xs| == |ys|
  {
    assert |multiset(xs)| == |xs| && |multiset(ys)| == |ys|;
  }

  // ---- one dictionary as an index of a row list --------------------------------

  type RowsByKey = map<string, seq<AgingInvoice>>

  /** dict.get with an empty list for a missing key. */
  function Get(m: RowsByKey, k: string): seq<AgingInvoice> {
    if k in m then m[k] else []
  }

  /** The dictionary splits exactly these rows by key, each part in insertion order. */
  ghost predicate IsIndex(ix: Index, m: RowsByKey, rows: seq<AgingInvoice>) {
    forall k :: Get(m, k) == Select(ix, rows, k)
  }

  /** dict.setdefault(key, []).append(row). */
  function File(ix: Index, m: RowsByKey, v: AgingInvoice): RowsByKey {
    m[KeyOf(ix, v) := Get(m, KeyOf(ix, v)) + [v]]
  }

  lemma FileKeepsIndex(ix: Index, m: RowsByKey, rows: seq<AgingInvoice>, v: AgingInvoice)
    requires IsIndex(ix, m, rows)
    ensures IsIndex(ix, File(ix, m, v), rows + [v])
  {
    var all := rows + [v];
    assert all[..|all| - 1] == rows && all[|all| - 1] == v;
    forall q ensures Get(File(ix, m, v), q) == Select(ix, all, q) {
      assert Get(m, q) == Select(ix, rows, q);
    }
  }

  ghost predicate Indexed(byInvoice: RowsByKey, nameToRows: RowsByKey, byOu: RowsByKey, rows: seq<AgingInvoice>) {
    IsIndex(ByInvoice, byInvoice, rows) && IsIndex(ByCustomer, nameToRows, rows) && IsIndex(ByOu, byOu, rows)
  }

  lemma IndexedEmpty()
    ensures Indexed(map[], map[], map[], [])
  {
  }

  lemma FileAll(byInvoice: RowsByKey, nameToRows: RowsByKey, byOu: RowsByKey, rows: seq<AgingInvoice>, v: AgingInvoice)
    requires Indexed(byInvoice, nameToRows, byOu, rows)
    ensures Indexed(File(ByInvoice, byInvoice, v), File(ByCustomer, nameToRows, v), File(ByOu, byOu, v), rows + [v])
  {
    FileKeepsIndex(ByInvoice, byInvoice, rows, v);
    FileKeepsIndex(ByCustomer, nameToRows, rows, v);
    FileKeepsIndex(ByOu, byOu, rows, v);
  }

  /** The customer names of some rows in order of first appearance, empty ones skipped. */
  function DistinctNames(rows: seq<AgingInvoice>): seq<string> {
    if rows == [] then []
    else
      var before, name := DistinctNames(rows[..|rows| - 1]), rows[|rows| - 1].customerName;
      if name != "" && name !in before then before + [name] else before
  }

  function CustomersOf(rows: seq<AgingInvoice>, ou: string, limit: nat): seq<string> {
    Prefix(DistinctNames(Select(ByOu, rows, ou)), limit)
  }

  lemma {:induction false} DistinctNamesMeaning(rows: seq<AgingInvoice>, n: string)
    ensures var names := DistinctNames(rows);
            && (forall i, j :: 0 <= i < j < |names| ==> names[i] != names[j])
            && (n in names <==> n != "" && exists v :: v in rows && v.customerName == n)
  {
    if rows != [] {
      var init, last := rows[..|rows| - 1], rows[|rows| - 1];
      DistinctNamesMeaning(init, n);
      assert rows == init + [last];
    }
  }

  /** Names of the unit only, none empty, none twice; and all of them, unless the limit cut the list. */
  lemma CustomersMeaning(rows: seq<AgingInvoice>, ou: string, limit: nat, n: string)
    ensures var names := CustomersOf(rows, ou, limit);
            var known := n != "" && exists v :: v in rows && v.ou == ou && v.customerName == n;
            && |names| <= limit
            && (forall i, j :: 0 <= i < j < |names| ==> names[i] != names[j])
            && (n in names ==> known)
            && (|names| < limit && known ==> n in names)
  {
    var own := Select(ByOu, rows, ou);
    DistinctNamesMeaning(own, n);
    forall v ensures v in own <==> v in rows && v.ou == ou {
      SelectMember(ByOu, rows, ou, v);
    }
    hide DistinctNames, Select;
  }

  /** These are the positions of the rows with the key, in row order, and the rows at them. */
  predicate FiledAt(ix: Index, rows: seq<AgingInvoice>, k: string, filed: seq<AgingInvoice>, at: seq<nat>) {
    && |at| == |filed|
    && (forall i :: 0 <= i < |at| ==> at[i] < |rows| && filed[i] == rows[at[i]] && KeyOf(ix, rows[at[i]]) == k)
    && (forall i, j :: 0 <= i < j < |at| ==> at[i] < at[j])
    && (forall p: nat :: p < |rows| && KeyOf(ix, rows[p]) == k ==> p in at)
  }

  lemma FiledAtSkip(ix: Index, init: seq<AgingInvoice>, last: AgingInvoice, k: string, filed: seq<AgingInvoice>, at: seq<nat>)
    requires FiledAt(ix, init, k, filed, at) && KeyOf(ix, last) != k
    ensures FiledAt(ix, init + [last], k, filed, at)
  {
    hide KeyOf;
    assert forall p: nat :: p < |init| ==> (init + [last])[p] == init[p];
  }

  lemma FiledAtAdd(ix: Index, init: seq<AgingInvoice>, last: AgingInvoice, k: string, filed: seq<AgingInvoice>, at: seq<nat>)
    requires FiledAt(ix, init, k, filed, at) && KeyOf(ix, last) == k
    ensures FiledAt(ix, init + [last], k, filed + [last], at + [|init|])
  {
    hide KeyOf;
    var all, at' := init + [last], at + [|init|];
    assert forall p: nat :: p < |init| ==> all[p] == init[p];
    forall p: nat | p < |all| && KeyOf(ix, all[p]) == k ensures p in at' {
      if p < |init| {
        assert p in at;
      } else {
        assert at'[|at|] == p;
      }
    }
  }

  /** A key's rows are filed in row order. */
  lemma {:induction false} SelectInOrder(ix: Index, rows: seq<AgingInvoice>, k: string) returns (at: seq<nat>)
    ensures FiledAt(ix, rows, k, Select(ix, rows, k), at)
  {
    if rows == [] {
      at := [];
    } else {
      var init, last := rows[..|rows| - 1], rows[|rows| - 1];
      hide FiledAt, KeyOf;
      assert rows == init + [last];
      at := SelectInOrder(ix, init, k);
      if KeyOf(ix, last) == k {
        FiledAtAdd(ix, init, last, k, Select(ix, init, k), at);
        at := at + [|init|];
      } else {
        FiledAtSkip(ix, init, last, k, Select(ix, init, k), at);
        assert Select(ix, init, k) + [] == Select(ix, init, k);
      }
    }
  }

  /** Name a shows up in a row before, or at which, name b has not shown up yet. */
  predicate AppearsFirst(rows: seq<AgingInvoice>, a: string, b: string) {
    exists k :: 0 <= k < |rows| && rows[k].customerName == a && forall m :: 0 <= m <= k ==> rows[m].customerName != b
  }

  lemma AppearsFirstSnoc(rows: seq<AgingInvoice>, last: AgingInvoice, a: string, b: string)
    requires AppearsFirst(rows, a, b) || (last.customerName == a != b && forall v :: v in rows ==> v.customerName != b)
    ensures AppearsFirst(rows + [last], a, b)
  {
    var all := rows + [last];
    if AppearsFirst(rows, a, b) {
      var k :| 0 <= k < |rows| && rows[k].customerName == a && forall m :: 0 <= m <= k ==> rows[m].customerName != b;
      assert all[k].customerName == a && forall m :: 0 <= m <= k ==> all[m] == rows[m];
    } else {
      assert all[|rows|].customerName == a;
    }
  }

  lemma {:induction false} DistinctNamesInOrder(rows: seq<AgingInvoice>, i: nat, j: nat)
    requires i < j < |DistinctNames(rows)|
    ensures AppearsFirst(rows, DistinctNames(rows)[i], DistinctNames(rows)[j])
  {
    var init, last := rows[..|rows| - 1], rows[|rows| - 1];
    var before, names := DistinctNames(init), DistinctNames(rows);
    assert rows == init + [last];
    hide AppearsFirst;
    if j < |before| {
      DistinctNamesInOrder(init, i, j);
      AppearsFirstSnoc(init, last, names[i], names[j]);
    } else {
      NameShowsUp(init, before[i], names[j]);
      AppearsFirstSnoc(init, last, names[i], names[j]);
    }
  }

  lemma NameShowsUp(rows: seq<AgingInvoice>, a: string, b: string)
    requires a in DistinctNames(rows) && b !in DistinctNames(rows) && b != ""
    ensures AppearsFirst(rows, a, b)
  {
    DistinctNamesMeaning(rows, a);
    DistinctNamesMeaning(rows, b);
    hide DistinctNames;
    var v :| v in rows && v.customerName == a;
    var k :| 0 <= k < |rows| && rows[k] == v;
    assert forall m :: 0 <= m <= k ==> rows[m] in rows;
  }

  /** The offered names come in the order in which the unit's rows first show them. */
  lemma CustomersInOrder(rows: seq<AgingInvoice>, ou: string, limit: nat, i: nat, j: nat)
    requires i < j < |CustomersOf(rows, ou, limit)|
    ensures var names := CustomersOf(rows, ou, limit);
            exists k :: 0 <= k < |rows| && rows[k].ou == ou && rows[k].customerName == names[i]
                        && forall m :: 0 <= m <= k && rows[m].ou == ou ==> rows[m].customerName != names[j]
  {
    var own := Select(ByOu, rows, ou);
    var a, b := DistinctNames(own)[i], DistinctNames(own)[j];
    DistinctNamesInOrder(own, i, j);
    var at := SelectInOrder(ByOu, rows, ou);
    hide DistinctNames, Select;
    var k :| 0 <= k < |own| && own[k].customerName == a && forall m :: 0 <= m <= k ==> own[m].customerName != b;
    forall m | 0 <= m <= at[k] && rows[m].ou == ou ensures rows[m].customerName != b {
      assert m in at;
      var n :| 0 <= n < |at| && at[n] == m;
      assert own[n] == rows[m];
    }
    assert rows[at[k]].ou == ou && rows[at[k]].customerName == a;
  }

  // ---- the map itself ------------------------------------------------------------

  class AgingMap {
    var byInvoice: RowsByKey
    var nameToRows: RowsByKey
    var byOu: RowsByKey

    constructor (byInvoice: RowsByKey, nameToRows: RowsByKey, byOu: RowsByKey)
      ensures this.byInvoice == byInvoice && this.nameToRows == nameToRows && this.byOu == byOu
    {
      this.byInvoice, this.nameToRows, this.byOu := byInvoice, nameToRows, byOu;
    }

    ghost predicate Represents(rows: seq<AgingInvoice>)
      reads this
    {
      Indexed(byInvoice, nameToRows, byOu, rows)
    }

    static method Build(records: seq<AgingRecord>) returns (m: AgingMap)
      ensures fresh(m) && m.Represents(Views(records))
    {
      var byInvoice, nameToRows, byOu := FillIndexes(records);
      m := new AgingMap(byInvoice, nameToRows, byOu);
    }

    static method FillIndexes(records: seq<AgingRecord>)
      returns (byInvoice: RowsByKey, nameToRows: RowsByKey, byOu: RowsByKey)
      ensures Indexed(byInvoice, nameToRows, byOu, Views(records))
    {
      byInvoice, nameToRows, byOu := map[], map[], map[];
      IndexedEmpty();
      hide IsIndex, Select, Indexed, View;
      for i := 0 to |records|
        invariant Indexed(byInvoice, nameToRows, byOu, Views(records[..i]))
      {
        var view := View(records[i]);
        FileAll(byInvoice, nameToRows, byOu, Views(records[..i]), view);
        byInvoice := File(ByInvoice, byInvoice, view);
        nameToRows := File(ByCustomer, nameToRows, view);
        byOu := File(ByOu, byOu, view);
        assert Views(records[..i + 1]) == Views(records[..i]) + [view];
      }
      assert records[..|records|] == records;
    }

    static method FindInOu(candidates: seq<AgingInvoice>, ou: string) returns (r: Option<AgingInvoice>)
      ensures r == FirstInOu(candidates, ou)
    {
      for i := 0 to |candidates|
        invariant FirstInOu(candidates, ou) == FirstInOu(candidates[i..], ou)
      {
        if candidates[i].ou == ou {
          return Some(candidates[i]);
        }
        assert candidates[i..][1..] == candidates[i + 1..];
      }
      return None;
    }

    method LookupInvoice(ghost rows: seq<AgingInvoice>, number: string, ou: string) returns (r: Option<AgingInvoice>)
      requires Represents(rows)
      ensures r == Lookup(rows, number, ou)
    {
      if number == "" {
        return None;
      }
      var key := Upper(Strip(number));
      var candidates := Get(byInvoice, key);
      if candidates == [] {
        candidates := Get(byInvoice, StripLetters(key));
      }
      assert candidates == Pool(rows, number);
      if candidates == [] {
        return None;
      }
      if ou != "" {
        r := FindInOu(candidates, ou);
        if r.Some? {
          return r;
        }
      }
      return Some(candidates[0]);
    }

    method InvoicesForOu(ghost rows: seq<AgingInvoice>, ou: string, limit: nat) returns (r: seq<AgingInvoice>)
      requires Represents(rows)
      ensures r == TopForOu(rows, ou, limit)
    {
      r := Prefix(SortDesc(Get(byOu, ou)), limit);
    }

    method InvoicesForCustomer(ghost rows: seq<AgingInvoice>, name: string) returns (r: seq<AgingInvoice>)
      requires Represents(rows)
      ensures r == if name == "" then [] else Select(ByCustomer, rows, Upper(Strip(name)))
      ensures forall v :: v in r <==> v in rows && name != "" && Upper(v.customerName) == Upper(Strip(name))
    {
      forall v ensures v in Select(ByCustomer, rows, Upper(Strip(name))) <==> v in rows && Upper(v.customerName) == Upper(Strip(name)) {
        SelectMember(ByCustomer, rows, Upper(Strip(name)), v);
      }
      hide Upper, Strip, Select;
      if name == "" {
        return [];
      }
      r := Get(nameToRows, Upper(Strip(name)));
    }

    /** Distinct customer names of one operating unit. */
    method CustomersForOu(ghost rows: seq<AgingInvoice>, ou: string, limit: nat) returns (names: seq<string>)
      requires Represents(rows)
      ensures names == CustomersOf(rows, ou, limit)
    {
      var own := Get(byOu, ou);
      var seen: seq<string> := [];
      for i := 0 to |own|
        invariant seen == DistinctNames(own[..i])
      {
        var name := own[i].customerName;
        assert own[..i + 1][..i] == own[..i];
        if name != "" && name !in seen {
          seen := seen + [name];
        }
      }
      assert own[..|own|] == own;
      names := Prefix(seen, limit);
    }
  }
}
