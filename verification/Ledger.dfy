/**
 The durable ledger of ingested statement rows: one table, a unique constraint on
 (account, key), and an insert that skips conflicts.  A row's id is its position; rows
 are never deleted.
 */
module Ledger {
  import opened Core
  import opened RowHash

  datatype LedgerRow = LedgerRow(source: nat, account: Option<nat>, key: string, consumedBy: Option<nat>)

  /** SQL's unique constraint: a null account never conflicts. */
  predicate Conflicts(table: seq<LedgerRow>, row: LedgerRow) {
    row.account.Some? && exists i :: 0 <= i < |table| && table[i].account == row.account && table[i].key == row.key
  }

  /** INSERT ... ON CONFLICT DO NOTHING, one row after another within the statement too. */
  function Insert(table: seq<LedgerRow>, rows: seq<LedgerRow>): seq<LedgerRow> {
    if rows == [] then table
    else
      var before := Insert(table, rows[..|rows| - 1]);
      var row := rows[|rows| - 1];
      if Conflicts(before, row) then before else before + [row]
  }

  function PayloadRow(source: nat, account: Option<nat>, t: Transaction): LedgerRow {
    LedgerRow(source, account, Key(account, t), None)
  }

  function Payload(source: nat, account: Option<nat>, ts: seq<Transaction>): (r: seq<LedgerRow>)
    ensures |r| == |ts|
  {
    seq(|ts|, i requires 0 <= i < |ts| => PayloadRow(source, account, ts[i]))
  }

  /** The deduplication identities present for resolved accounts. */
  function Keys(table: seq<LedgerRow>): set<(nat, string)> {
    if table == [] then {}
    else
      var row := table[|table| - 1];
      Keys(table[..|table| - 1]) + (if row.account.Some? then {(row.account.value, row.key)} else {})
  }

  lemma {:induction false} KeysMember(table: seq<LedgerRow>, account: nat, key: string)
    ensures (account, key) in Keys(table) <==>
              exists i :: 0 <= i < |table| && table[i].account == Some(account) && table[i].key == key
  {
    if table != [] {
      var init, last := table[..|table| - 1], table[|table| - 1];
      KeysMember(init, account, key);
      if last.account == Some(account) && last.key == key {
        assert table[|table| - 1] == last;
      }
      if exists i :: 0 <= i < |init| && init[i].account == Some(account) && init[i].key == key {
        var i :| 0 <= i < |init| && init[i].account == Some(account) && init[i].key == key;
        assert table[i] == init[i];
      }
    }
  }

  predicate Unique(table: seq<LedgerRow>) {
    forall i, j :: 0 <= i < j < |table| && table[i].account.Some? ==>
      table[i].account != table[j].account || table[i].key != table[j].key
  }

  predicate Resolved(rows: seq<LedgerRow>) {
    forall i :: 0 <= i < |rows| ==> rows[i].account.Some?
  }

  lemma ConflictMeansKnown(table: seq<LedgerRow>, row: LedgerRow)
    requires row.account.Some?
    ensures Conflicts(table, row) <==> (row.account.value, row.key) in Keys(table)
  {
    KeysMember(table, row.account.value, row.key);
  }

  /** Inserting adds exactly the identities of the inserted rows. */
  lemma {:induction false} InsertKeys(table: seq<LedgerRow>, rows: seq<LedgerRow>)
    ensures Keys(Insert(table, rows)) == Keys(table) + Keys(rows)
  {
    if rows != [] {
      var init, row := rows[..|rows| - 1], rows[|rows| - 1];
      InsertKeys(table, init);
      var before := Insert(table, init);
      if row.account.Some? {
        ConflictMeansKnown(before, row);
      }
      assert (before + [row])[..|before|] == before;
      hide Conflicts;
    }
  }

  /**
   Inserting keeps the constraint, and leaves every existing row, with its consumption mark,
   where it was; new rows are among the inserted ones.
   */
  lemma {:induction false} InsertMeaning(table: seq<LedgerRow>, rows: seq<LedgerRow>)
    ensures table <= Insert(table, rows)
    ensures Unique(table) ==> Unique(Insert(table, rows))
    ensures forall i :: |table| <= i < |Insert(table, rows)| ==> Insert(table, rows)[i] in rows
  {
    if rows != [] {
      var init, row := rows[..|rows| - 1], rows[|rows| - 1];
      InsertMeaning(table, init);
      var before := Insert(table, init);
      assert forall r :: r in init ==> r in rows;
      if !Conflicts(before, row) {
        UniqueSnoc(before, row);
      }
      hide Conflicts, Unique;
    }
  }

  lemma UniqueSnoc(table: seq<LedgerRow>, row: LedgerRow)
    requires !Conflicts(table, row)
    ensures Unique(table) ==> Unique(table + [row])
  {
  }

  /** Rows all of whose identities are present are all skipped. */
  lemma {:induction false} KnownRowsAddNothing(table: seq<LedgerRow>, rows: seq<LedgerRow>)
    requires Resolved(rows) && Keys(rows) <= Keys(table)
    ensures Insert(table, rows) == table
  {
    if rows != [] {
      var init, row := rows[..|rows| - 1], rows[|rows| - 1];
      KnownRowsAddNothing(table, init);
      ConflictMeansKnown(table, row);
    }
  }

  // ---- whole files --------------------------------------------------------------------------

  datatype File = File(source: nat, account: Option<nat>, transactions: seq<Transaction>)

  function FileRows(f: File): seq<LedgerRow> { Payload(f.source, f.account, f.transactions) }

  function IngestAll(table: seq<LedgerRow>, files: seq<File>): seq<LedgerRow> {
    if files == [] then table
    else Insert(IngestAll(table, files[..|files| - 1]), FileRows(files[|files| - 1]))
  }

  function FilesKeys(files: seq<File>): set<(nat, string)> {
    if files == [] then {}
    else FilesKeys(files[..|files| - 1]) + Keys(FileRows(files[|files| - 1]))
  }

  lemma {:induction false} FilesKeysMember(files: seq<File>, k: (nat, string))
    ensures k in FilesKeys(files) <==> exists i :: 0 <= i < |files| && k in Keys(FileRows(files[i]))
  {
    if files != [] {
      var init, last := files[..|files| - 1], files[|files| - 1];
      FilesKeysMember(init, k);
      hide Keys, FileRows;
      if i :| 0 <= i < |init| && k in Keys(FileRows(init[i])) {
        assert files[i] == init[i];
      }
      if i :| 0 <= i < |files| && k in Keys(FileRows(files[i])) {
        assert i == |init| || files[i] == init[i];
      }
    }
  }

  lemma SameFilesSameKeys(files: seq<File>, others: seq<File>)
    requires forall f :: f in files ==> f in others
    ensures FilesKeys(files) <= FilesKeys(others)
  {
    forall k | k in FilesKeys(files) ensures k in FilesKeys(others) {
      FilesKeysMember(files, k);
      FilesKeysMember(others, k);
      var i :| 0 <= i < |files| && k in Keys(FileRows(files[i]));
      assert files[i] in others;
      var j :| 0 <= j < |others| && others[j] == files[i];
    }
  }

  /** The ledger after any files is the old ledger plus the union of the files' identities. */
  lemma {:induction false} IngestAllMeaning(table: seq<LedgerRow>, files: seq<File>)
    ensures Keys(IngestAll(table, files)) == Keys(table) + FilesKeys(files)
    ensures table <= IngestAll(table, files)
    ensures Unique(table) ==> Unique(IngestAll(table, files))
  {
    if files != [] {
      var init, last := files[..|files| - 1], files[|files| - 1];
      IngestAllMeaning(table, init);
      InsertMeaning(IngestAll(table, init), FileRows(last));
      InsertKeys(IngestAll(table, init), FileRows(last));
      hide Insert, Keys, Unique, FileRows;
    }
  }

  /** The rows without an account, which the constraint does not see. */
  function Nulls(table: seq<LedgerRow>): nat {
    if table == [] then 0
    else Nulls(table[..|table| - 1]) + if table[|table| - 1].account.None? then 1 else 0
  }

  lemma NullsSnoc(table: seq<LedgerRow>, row: LedgerRow)
    ensures Nulls(table + [row]) == Nulls(table) + if row.account.None? then 1 else 0
  {
    assert (table + [row])[..|table|] == table;
  }

  /** Rows of a resolved account add no null rows. */
  lemma {:induction false} InsertKeepsNulls(table: seq<LedgerRow>, rows: seq<LedgerRow>)
    requires Resolved(rows)
    ensures Nulls(Insert(table, rows)) == Nulls(table)
  {
    if rows != [] {
      var init, row := rows[..|rows| - 1], rows[|rows| - 1];
      InsertKeepsNulls(table, init);
      NullsSnoc(Insert(table, init), row);
      hide Conflicts, Nulls;
    }
  }

  lemma {:induction false} IngestKeepsNulls(table: seq<LedgerRow>, files: seq<File>)
    requires forall f | f in files :: f.account.Some?
    ensures Nulls(IngestAll(table, files)) == Nulls(table)
  {
    if files != [] {
      var init, last := files[..|files| - 1], files[|files| - 1];
      assert last in files && forall f | f in init :: f in files;
      IngestKeepsNulls(table, init);
      FileResolved(last);
      hide Nulls, Insert, FileRows;
      InsertKeepsNulls(IngestAll(table, init), FileRows(last));
    }
  }

  lemma FileResolved(f: File)
    requires f.account.Some?
    ensures Resolved(FileRows(f))
  {
  }

  /** A table under the constraint has one row per identity, and its rows without an account. */
  lemma {:induction false} OneRowPerKey(table: seq<LedgerRow>)
    requires Unique(table)
    ensures |table| == |Keys(table)| + Nulls(table)
  {
    if table != [] {
      var init, last := table[..|table| - 1], table[|table| - 1];
      OneRowPerKey(init);
      if last.account.Some? {
        KeysMember(init, last.account.value, last.key);
      }
    }
  }

  /**
   Order and repetition do not matter: two sequences of the same files, from any one ledger
   that keeps the constraint, end with the same identities and the same number of rows.
   */
  lemma IngestionIsOrderFree(table: seq<LedgerRow>, files: seq<File>, others: seq<File>)
    requires Unique(table)
    requires forall f :: f in files <==> f in others
    requires forall f | f in files :: f.account.Some?
    ensures Keys(IngestAll(table, files)) == Keys(IngestAll(table, others))
    ensures |IngestAll(table, files)| == |IngestAll(table, others)|
  {
    hide *;
    IngestAllMeaning(table, files);
    IngestAllMeaning(table, others);
    SameFilesSameKeys(files, others);
    SameFilesSameKeys(others, files);
    assert forall f | f in others :: f in files;
    IngestKeepsNulls(table, files);
    IngestKeepsNulls(table, others);
    OneRowPerKey(IngestAll(table, files));
    OneRowPerKey(IngestAll(table, others));
  }

  /** Ingesting a file again later, after anything else was ingested, adds no row. */
  lemma ReingestAddsNothing(table: seq<LedgerRow>, f: File, between: seq<File>)
    requires f.account.Some?
    ensures var later := IngestAll(Insert(table, FileRows(f)), between); Insert(later, FileRows(f)) == later
  {
    InsertKeys(table, FileRows(f));
    IngestAllMeaning(Insert(table, FileRows(f)), between);
    hide Insert, IngestAll, Keys;
    KnownRowsAddNothing(IngestAll(Insert(table, FileRows(f)), between), FileRows(f));
  }

  // ---- which transactions are kept ---------------------------------------------------------------

  /** Row i of the table holds transaction t of the account. */
  predicate HoldsAt(table: seq<LedgerRow>, i: nat, account: nat, t: Transaction) {
    i < |table| && table[i].account == Some(account) && table[i].key == Key(Some(account), t)
  }

  lemma FileHolds(f: File, t: Transaction)
    requires f.account.Some? && t in f.transactions
    ensures (f.account.value, Key(f.account, t)) in Keys(FileRows(f))
  {
    hide Key;
    var i :| 0 <= i < |f.transactions| && f.transactions[i] == t;
    assert FileRows(f)[i] == PayloadRow(f.source, f.account, t);
    KeysMember(FileRows(f), f.account.value, Key(f.account, t));
  }

  /** Every transaction of an ingested file with an account is in the ledger, whatever was ingested around it. */
  lemma TransactionIsHeld(table: seq<LedgerRow>, files: seq<File>, f: File, t: Transaction) returns (i: nat)
    requires f in files && f.account.Some? && t in f.transactions
    ensures HoldsAt(IngestAll(table, files), i, f.account.value, t)
  {
    hide Key, FileRows, IngestAll;
    var k, after := (f.account.value, Key(f.account, t)), IngestAll(table, files);
    FileHolds(f, t);
    FilesKeysMember(files, k);
    IngestAllMeaning(table, files);
    KeysMember(after, f.account.value, Key(f.account, t));
    i :| 0 <= i < |after| && after[i].account == Some(f.account.value) && after[i].key == Key(f.account, t);
  }

  /**
   Two transactions of one account, from any files and with anything ingested around them, are
   one ledger row if and only if they are the same transaction field by field.
   */
  lemma OneRowForSameTransactions(table: seq<LedgerRow>, files: seq<File>, f: File, g: File, t: Transaction, u: Transaction)
    returns (i: nat, j: nat)
    requires Unique(table) && f in files && g in files && f.account.Some? && g.account == f.account
    requires t in f.transactions && u in g.transactions && BarFree(t) && BarFree(u)
    ensures HoldsAt(IngestAll(table, files), i, f.account.value, t) && HoldsAt(IngestAll(table, files), j, f.account.value, u)
    ensures i == j <==> SameTransaction(t, u)
  {
    hide Key, IngestAll, SameTransaction, BarFree;
    i := TransactionIsHeld(table, files, f, t);
    j := TransactionIsHeld(table, files, g, u);
    IngestAllMeaning(table, files);
    KeysAgreeFieldByField(f.account, t, u);
  }

  /** The account's rows in the table all hold transactions of the list, and t is the same as none of them. */
  ghost predicate IsNew(table: seq<LedgerRow>, account: nat, held: seq<Transaction>, t: Transaction) {
    && (forall i :: 0 <= i < |table| && table[i].account == Some(account) ==>
          exists u :: u in held && table[i].key == Key(Some(account), u))
    && (forall u :: u in held ==> BarFree(u) && !SameTransaction(u, t))
  }

  /** Ingesting a file adds a row for every new transaction in it, marked as not yet consumed. */
  lemma NewTransactionIsAdded(table: seq<LedgerRow>, f: File, held: seq<Transaction>, t: Transaction) returns (i: nat)
    requires f.account.Some? && t in f.transactions && BarFree(t) && IsNew(table, f.account.value, held, t)
    ensures |table| <= i < |Insert(table, FileRows(f))|
    ensures Insert(table, FileRows(f))[i] == LedgerRow(f.source, f.account, Key(f.account, t), None)
  {
    hide Key, SameTransaction, BarFree, Insert, PayloadRow, FileRows;
    var account, rows := f.account.value, FileRows(f);
    var key, after := Key(f.account, t), Insert(table, rows);
    InsertMeaning(table, rows);
    InsertKeys(table, rows);
    FileHolds(f, t);
    KeysMember(after, account, key);
    i :| 0 <= i < |after| && after[i].account == Some(account) && after[i].key == key;
    if i < |table| {
      assert after[i] == table[i];
      var u :| u in held && table[i].key == Key(Some(account), u);
      KeysAgreeFieldByField(Some(account), u, t);
    } else {
      var j :| 0 <= j < |rows| && rows[j] == after[i];
      RowOf(f, j);
    }
  }

  lemma RowOf(f: File, j: nat)
    requires j < |FileRows(f)|
    ensures |FileRows(f)| == |f.transactions|
    ensures FileRows(f)[j] == LedgerRow(f.source, f.account, Key(f.account, f.transactions[j]), None)
  {
    hide Key;
  }

  // ---- the table that is written in place ------------------------------------------------------

  class StatementTable {
    var rows: seq<LedgerRow>

    constructor ()
      ensures rows == []
    {
      rows := [];
    }

    /** Builds the payload in one loop, inserts it in one statement, and reports the counts. */
    method IngestAndParse(source: nat, account: Option<nat>, transactions: seq<Transaction>)
      returns (total: nat, added: nat, duplicate: nat)
      modifies this
      ensures rows == Insert(old(rows), FileRows(File(source, account, transactions)))
      ensures total == |transactions| && added + duplicate == total
      ensures |rows| == |old(rows)| + added
      ensures account.None? ==> added == total
    {
      hide Conflicts, Insert, Payload;
      var payload := BuildPayload(source, account, transactions);
      total := |payload|;
      added := InsertRows(payload);
      if account.None? {
        PayloadAccounts(source, account, transactions);
        NullAccountsAlwaysInsert(old(rows), payload);
      }
      duplicate := total - added;
    }

    static method BuildPayload(source: nat, account: Option<nat>, transactions: seq<Transaction>)
      returns (payload: seq<LedgerRow>)
      ensures payload == Payload(source, account, transactions)
    {
      hide PayloadRow;
      payload := [];
      for i := 0 to |transactions|
        invariant payload == Payload(source, account, transactions[..i])
      {
        payload := payload + [PayloadRow(source, account, transactions[i])];
      }
      assert transactions[..|transactions|] == transactions;
    }

    method InsertRows(payload: seq<LedgerRow>) returns (added: nat)
      modifies this
      ensures rows == Insert(old(rows), payload)
      ensures |rows| == |old(rows)| + added && added <= |payload|
    {
      hide Conflicts;
      added := 0;
      for i := 0 to |payload|
        invariant rows == Insert(old(rows), payload[..i])
        invariant |rows| == |old(rows)| + added && added <= i
      {
        assert payload[..i + 1][..i] == payload[..i];
        if !Conflicts(rows, payload[i]) {
          rows := rows + [payload[i]];
          added := added + 1;
        }
      }
      assert payload[..|payload|] == payload;
    }
  }

  lemma PayloadAccounts(source: nat, account: Option<nat>, ts: seq<Transaction>)
    ensures forall i :: 0 <= i < |ts| ==> Payload(source, account, ts)[i].account == account
  {
  }

  /** Without a resolved account nothing is ever recognised as a duplicate. */
  lemma {:induction false} NullAccountsAlwaysInsert(table: seq<LedgerRow>, rows: seq<LedgerRow>)
    requires forall i :: 0 <= i < |rows| ==> rows[i].account.None?
    ensures Insert(table, rows) == table + rows
  {
    if rows != [] {
      NullAccountsAlwaysInsert(table, rows[..|rows| - 1]);
      assert rows == rows[..|rows| - 1] + [rows[|rows| - 1]];
    }
  }
}
