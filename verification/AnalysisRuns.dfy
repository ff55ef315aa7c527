/**
 Concurrent analysis runs over the ledger, as interleaved steps.  A run takes the advisory
 lock of its file set, reads unconsumed rows file by file, and then, row by row, creates a
 line item and stamps the ledger row; both become visible to others only when a chunk, or
 the error path, commits.  A run's id is its position.
 */
module AnalysisRuns {
  import opened Core
  import opened Ledger
  import opened AdvisoryLock

  /** An ingested source file: its id and the bank account it resolved to. */
  datatype Source = Source(id: nat, account: Option<nat>)

  // ---- loading ------------------------------------------------------------------------------

  /** The query of one file: unconsumed rows of its account, or of the file itself if it has none. */
  predicate Selected(row: LedgerRow, source: Source) {
    row.consumedBy.None? && (if source.account.Some? then row.account == source.account else row.source == source.id)
  }

  /** The rows below n of one query, appended unless already loaded. */
  function LoadBelow(table: seq<LedgerRow>, source: Source, loaded: seq<nat>, n: nat): seq<nat>
    requires n <= |table|
  {
    if n == 0 then loaded
    else
      var before := LoadBelow(table, source, loaded, n - 1);
      if Selected(table[n - 1], source) && n - 1 !in before then before + [n - 1] else before
  }

  lemma {:induction false} LoadBelowMeaning(table: seq<LedgerRow>, source: Source, loaded: seq<nat>, n: nat)
    requires n <= |table| && NoRepeats(loaded)
    ensures var r := LoadBelow(table, source, loaded, n);
            NoRepeats(r) && forall x: nat :: x in r <==> x in loaded || (x < n && Selected(table[x], source))
  {
    if n > 0 {
      LoadBelowMeaning(table, source, loaded, n - 1);
    }
  }

  function LoadFile(table: seq<LedgerRow>, sources: map<string, Source>, name: string, loaded: seq<nat>): seq<nat> {
    if name in sources then LoadBelow(table, sources[name], loaded, |table|) else loaded
  }

  function LoadFiles(table: seq<LedgerRow>, sources: map<string, Source>, names: seq<string>): seq<nat> {
    if names == [] then []
    else LoadFile(table, sources, names[|names| - 1], LoadFiles(table, sources, names[..|names| - 1]))
  }

  /** An unconsumed row of the source's account, or of the source itself if it has no account. */
  predicate OpenFor(row: LedgerRow, source: Source) {
    && row.consumedBy.None?
    && (source.account.Some? ==> row.account == source.account)
    && (source.account.None? ==> row.source == source.id)
  }

  /** Exactly the rows some selected file asks for, each once, even when files share an account. */
  lemma {:induction false} LoadFilesMeaning(table: seq<LedgerRow>, sources: map<string, Source>, names: seq<string>)
    ensures var r := LoadFiles(table, sources, names);
            && NoRepeats(r)
            && forall x: nat :: x in r <==>
                 x < |table| && exists i :: 0 <= i < |names| && names[i] in sources && OpenFor(table[x], sources[names[i]])
  {
    if names != [] {
      var init, last := names[..|names| - 1], names[|names| - 1];
      LoadFilesMeaning(table, sources, init);
      var before := LoadFiles(table, sources, init);
      if last in sources {
        LoadBelowMeaning(table, sources[last], before, |table|);
      }
      forall x: nat ensures x in LoadFiles(table, sources, names) <==>
          x < |table| && exists i :: 0 <= i < |names| && names[i] in sources && OpenFor(table[x], sources[names[i]])
      {
        if x < |table| && last in sources {
          assert Selected(table[x], sources[last]) <==> OpenFor(table[x], sources[last]);
        }
        hide LoadFiles, LoadBelow, Selected, OpenFor, NoRepeats;
        if x < |table| {
          if i :| 0 <= i < |init| && init[i] in sources && OpenFor(table[x], sources[init[i]]) {
            assert names[i] == init[i];
          }
          if i :| 0 <= i < |names| && names[i] in sources && OpenFor(table[x], sources[names[i]]) {
            assert i == |init| || names[i] == init[i];
          }
          assert names[|init|] == last;
        }
      }
    }
  }

  /** The loading loops, with their set of seen ids. */
  method LoadCreditRows(table: seq<LedgerRow>, sources: map<string, Source>, selectedFiles: seq<string>)
    returns (allRows: seq<nat>)
    ensures allRows == LoadFiles(table, sources, selectedFiles)
  {
    allRows := [];
    var seen: set<nat> := {};
    for f := 0 to |selectedFiles|
      invariant allRows == LoadFiles(table, sources, selectedFiles[..f])
      invariant forall x: nat :: x in seen <==> x in allRows
    {
      var name := selectedFiles[f];
      assert selectedFiles[..f + 1][..f] == selectedFiles[..f];
      if name in sources {
        ghost var before := allRows;
        for id := 0 to |table|
          invariant allRows == LoadBelow(table, sources[name], before, id)
          invariant forall x: nat :: x in seen <==> x in allRows
        {
          if Selected(table[id], sources[name]) && id !in seen {
            seen := seen + {id};
            allRows := allRows + [id];
          }
        }
      }
    }
    assert selectedFiles[..|selectedFiles|] == selectedFiles;
  }

  // ---- runs as state machines -------------------------------------------------------------------

  datatype Phase =
    | Waiting                 // created, lock not tried yet
    | Refused                 // lock busy: status ERROR, nothing else done
    | Loading(next: nat)      // files before next are loaded
    | Persisting              // extraction done, line items being created
    | Finished                // completed without raising
    | Failed                  // raised; partial work committed by the error path

  datatype Run = Run(
    files: seq<string>, phase: Phase, locked: bool,
    loaded: seq<nat>,         // rows read, in order
    pending: seq<nat>,        // rows with an extraction result, not yet persisted
    unstamped: Option<nat>,   // line item flushed, ledger row not stamped yet
    flushed: set<nat>,        // line items of the open transaction
    stamped: set<nat>,        // ledger rows stamped in the open transaction
    committed: set<nat>)      // rows with a committed line item of this run

  datatype System = System(
    table: seq<LedgerRow>, sources: map<string, Source>, locks: map<int, nat>, runs: seq<Run>)

  datatype Move =
    | TryLock
    | Load
    | Extract(kept: seq<nat>)
    | Persist
    | Stamp
    | CommitChunk
    | Raise
    | Finish
    | Unlock

  datatype Action =
    | Create(files: seq<string>)
    | Ingest(rows: seq<LedgerRow>)
    | Advance(run: nat, move: Move)

  predicate Active(r: Run) { r.phase.Loading? || r.phase.Persisting? }

  predicate CanMove(r: Run, m: Move) {
    match m
    case TryLock => r.phase.Waiting?
    case Load => r.phase.Loading? && r.phase.next < |r.files|
    case Extract(kept) =>
      // rows of failed chunks and batches are missing from kept
      r.phase.Loading? && r.phase.next >= |r.files| && NoRepeats(kept) && forall x :: x in kept ==> x in r.loaded
    case Persist => r.phase.Persisting? && r.unstamped.None? && r.pending != []
    case Stamp => r.phase.Persisting? && r.unstamped.Some?
    case CommitChunk => r.phase.Persisting? && r.unstamped.None?
    case Raise => Active(r)
    case Finish => r.phase.Persisting? && r.unstamped.None? && r.pending == [] && r.flushed == {} && r.stamped == {}
    case Unlock => r.locked && !Active(r)
  }

  predicate Enabled(s: System, a: Action) {
    match a
    case Create(_) => true
    case Ingest(rows) => forall i :: 0 <= i < |rows| ==> rows[i].consumedBy.None?
    case Advance(i, m) => i < |s.runs| && CanMove(s.runs[i], m)
  }

  function Consume(table: seq<LedgerRow>, rows: set<nat>, run: nat): (t: seq<LedgerRow>)
    ensures |t| == |table|
    ensures forall x :: 0 <= x < |table| ==>
              t[x] == if x in rows then table[x].(consumedBy := Some(run)) else table[x]
  {
    seq(|table|, x requires 0 <= x < |table| => if x in rows then table[x].(consumedBy := Some(run)) else table[x])
  }

  /** The open transaction of a run becomes visible. */
  function Commit(r: Run): Run {
    r.(committed := r.committed + r.flushed, flushed := {}, stamped := {})
  }

  /** The run after its own step. */
  function MovedRun(s: System, r: Run, m: Move, lockFree: bool): Run
    requires CanMove(r, m)
  {
    match m
    case TryLock => if lockFree then r.(phase := Loading(0), locked := true) else r.(phase := Refused)
    case Load =>
      r.(phase := Loading(r.phase.next + 1), loaded := LoadFile(s.table, s.sources, r.files[r.phase.next], r.loaded))
    case Extract(kept) => r.(phase := Persisting, pending := kept)
    case Persist => r.(pending := r.pending[1..], unstamped := Some(r.pending[0]), flushed := r.flushed + {r.pending[0]})
    case Stamp => r.(unstamped := None, stamped := r.stamped + {r.unstamped.value})
    case CommitChunk => Commit(r)
    case Raise => Commit(r).(phase := Failed)
    case Finish => r.(phase := Finished)
    case Unlock => r.(locked := false)
  }

  function Next(hash: string -> int, s: System, a: Action): System
    requires Enabled(s, a)
  {
    match a
    case Create(files) => s.(runs := s.runs + [Run(files, Waiting, false, [], [], None, {}, {}, {})])
    case Ingest(rows) => s.(table := Insert(s.table, rows))
    case Advance(i, m) =>
      var r := s.runs[i];
      var key := LockKey(hash, r.files);
      s.(runs := s.runs[i := MovedRun(s, r, m, key !in s.locks)],
         table := if m.CommitChunk? || m.Raise? then Consume(s.table, r.stamped, i) else s.table,
         locks := if m.TryLock? && key !in s.locks then s.locks[key := i]
                  else if m.Unlock? then s.locks - {key}
                  else s.locks)
  }

  /** Any schedule: actions that are not possible when their turn comes change nothing. */
  function Schedule(hash: string -> int, s0: System, actions: seq<Action>): System {
    if actions == [] then s0
    else
      var s := Schedule(hash, s0, actions[..|actions| - 1]);
      if Enabled(s, actions[|actions| - 1]) then Next(hash, s, actions[|actions| - 1]) else s
  }

  // ---- invariants ------------------------------------------------------------------------------------

  predicate Consumed(table: seq<LedgerRow>, x: nat) { x < |table| && table[x].consumedBy.Some? }

  /** The one row a failed run committed a line item for without marking it: it raised in between. */
  predicate Stranded(r: Run, x: nat) { r.phase.Failed? && r.unstamped == Some(x) }

  /** One run on its own: what it holds, and how its transaction and its rows fit together. */
  predicate RunOk(hash: string -> int, s: System, i: nat)
    requires i < |s.runs|
  {
    var r := s.runs[i];
    && (Active(r) ==> r.locked)
    && (r.locked ==> var key := LockKey(hash, r.files); key in s.locks && s.locks[key] == i)
    && (r.phase.Waiting? || r.phase.Refused? ==> r == Run(r.files, r.phase, false, [], [], None, {}, {}, {}))
    && NoRepeats(r.loaded) && NoRepeats(r.pending)
    && (forall x :: x in r.loaded ==> x < |s.table|)
    && (forall x :: x in r.pending ==> x in r.loaded && x !in r.flushed && x !in r.committed)
    && (forall x | x in r.flushed + r.committed :: x in r.loaded)
    && r.flushed !! r.committed
    && r.flushed == r.stamped + (if r.unstamped.Some? && Active(r) then {r.unstamped.value} else {})
    && (r.unstamped.Some? && Active(r) ==> r.unstamped.value !in r.stamped)
    && (!Active(r) ==> r.flushed == {})
    && (r.phase.Loading? ==> r.committed == {} && r.flushed == {} && r.pending == [] && r.unstamped.None?)
    && (forall x :: x in r.committed ==> Consumed(s.table, x) || Stranded(r, x))
  }

  /** A row stamped by run i has a committed line item of run i. */
  predicate StampsOk(s: System) {
    forall x :: 0 <= x < |s.table| && s.table[x].consumedBy.Some? ==>
      s.table[x].consumedBy.value < |s.runs| && x in s.runs[s.table[x].consumedBy.value].committed
  }

  /**
   Two runs of one key: whatever a run that ended has produced is out of reach of a run now
   active, and of what any other such run produced, except for a row that one of them stranded.
   */
  predicate PairOk(hash: string -> int, r: Run, q: Run) {
    LockKey(hash, r.files) == LockKey(hash, q.files) && !Active(r) ==>
      && (Active(q) ==> forall x :: x in q.loaded && x in r.committed ==> Stranded(r, x))
      && (!Active(q) ==> forall x :: x in r.committed && x in q.committed ==> Stranded(r, x) || Stranded(q, x))
  }

  ghost predicate Inv(hash: string -> int, s: System) {
    && (forall i :: 0 <= i < |s.runs| ==> RunOk(hash, s, i))
    && StampsOk(s)
    && (forall i, j :: 0 <= i < |s.runs| && 0 <= j < |s.runs| && i != j ==> PairOk(hash, s.runs[i], s.runs[j]))
  }

  /** At most one run of a key is between taking and releasing its lock. */
  lemma MutualExclusion(hash: string -> int, s: System, i: nat, j: nat)
    requires Inv(hash, s) && i < |s.runs| && j < |s.runs|
    requires s.runs[i].locked && s.runs[j].locked && LockKey(hash, s.runs[i].files) == LockKey(hash, s.runs[j].files)
    ensures i == j
  {
    assert RunOk(hash, s, i) && RunOk(hash, s, j);
  }

  predicate TableGrows(t: seq<LedgerRow>, t': seq<LedgerRow>) {
    |t| <= |t'| && forall x :: 0 <= x < |t| && t[x].consumedBy.Some? ==> t'[x].consumedBy.Some?
  }

  /** A run that does not move stays sound while the table grows and its lock entry survives. */
  lemma RunOkFramed(hash: string -> int, s: System, s': System, i: nat)
    requires i < |s.runs| && i < |s'.runs| && s'.runs[i] == s.runs[i]
    requires RunOk(hash, s, i) && TableGrows(s.table, s'.table)
    requires s.runs[i].locked ==>
               var key := LockKey(hash, s.runs[i].files); key in s'.locks && s'.locks[key] == s.locks[key]
    ensures RunOk(hash, s', i)
  {
    hide LockKey, NoRepeats;
  }

  lemma MoverTableGrows(hash: string -> int, s: System, a: Action)
    requires Enabled(s, a)
    ensures TableGrows(s.table, Next(hash, s, a).table)
  {
    if a.Ingest? {
      InsertMeaning(s.table, a.rows);
    }
    hide Insert, LockKey, LoadFile;
  }

  /** The run that moved is sound in the new state. */
  lemma MoverOk(hash: string -> int, s: System, a: Action)
    requires Inv(hash, s) && Enabled(s, a) && a.Advance?
    ensures RunOk(hash, Next(hash, s, a), a.run)
  {
    var i := a.run;
    var r := s.runs[i];
    assert RunOk(hash, s, i);
    match a.move
    case Load =>
      var name := r.files[r.phase.next];
      if name in s.sources {
        LoadBelowMeaning(s.table, s.sources[name], r.loaded, |s.table|);
      }
      hide LockKey, LoadBelow;
    case Persist =>
      hide LockKey;
      PersistOk(hash, s, i);
    case CommitChunk =>
      hide LockKey;
      CommitOk(hash, s, i, CommitChunk);
    case Raise =>
      hide LockKey;
      CommitOk(hash, s, i, Raise);
    case TryLock => hide LockKey;
    case Extract(kept) => hide LockKey;
    case Stamp => hide LockKey;
    case Finish => hide LockKey;
    case Unlock => hide LockKey;
  }

  lemma CommitOk(hash: string -> int, s: System, i: nat, m: Move)
    requires m.CommitChunk? || m.Raise?
    requires Enabled(s, Advance(i, m)) && RunOk(hash, s, i)
    ensures RunOk(hash, Next(hash, s, Advance(i, m)), i)
  {
    hide LockKey, NoRepeats;
    var r := s.runs[i];
    var s' := Next(hash, s, Advance(i, m));
    if m.CommitChunk? {
      assert r.flushed == r.stamped;
    }
    forall x | x in r.stamped ensures Consumed(s'.table, x) {
      assert x in r.flushed + r.committed;
    }
  }

  lemma PersistOk(hash: string -> int, s: System, i: nat)
    requires Enabled(s, Advance(i, Persist)) && RunOk(hash, s, i)
    ensures RunOk(hash, Next(hash, s, Advance(i, Persist)), i)
  {
    hide LockKey;
    var r := s.runs[i];
    assert r.pending == [r.pending[0]] + r.pending[1..];
    assert r.pending[0] in r.pending;
    assert r.pending[0] !in r.pending[1..];
    assert forall x :: x in r.pending[1..] ==> x in r.pending;
  }

  lemma StampsStayOk(hash: string -> int, s: System, a: Action)
    requires Inv(hash, s) && Enabled(s, a)
    ensures StampsOk(Next(hash, s, a))
  {
    match a
    case Create(_) =>
    case Ingest(rows) => IngestKeepsStamps(hash, s, rows);
    case Advance(i, m) =>
      assert RunOk(hash, s, i);
      hide LockKey, LoadFile;
  }

  lemma IngestKeepsStamps(hash: string -> int, s: System, rows: seq<LedgerRow>)
    requires StampsOk(s) && Enabled(s, Ingest(rows))
    ensures StampsOk(Next(hash, s, Ingest(rows)))
  {
    InsertMeaning(s.table, rows);
    hide Insert, LockKey, Keys, Unique;
    var table := Insert(s.table, rows);
    forall x | |s.table| <= x < |table| ensures table[x].consumedBy.None? {
      var j :| 0 <= j < |rows| && rows[j] == table[x];
    }
    assert forall x :: 0 <= x < |s.table| ==> table[x] == s.table[x];
  }

  /** Pairs with the moving run on either side. */
  lemma MoverPairs(hash: string -> int, s: System, a: Action, j: nat)
    requires Inv(hash, s) && Enabled(s, a) && a.Advance? && j < |s.runs| && j != a.run
    ensures var s' := Next(hash, s, a);
            PairOk(hash, s'.runs[a.run], s.runs[j]) && PairOk(hash, s.runs[j], s'.runs[a.run])
  {
    var i := a.run;
    var r, q := s.runs[i], s.runs[j];
    assert RunOk(hash, s, i) && RunOk(hash, s, j);
    assert PairOk(hash, r, q) && PairOk(hash, q, r);
    match a.move
    case Load =>
      var name := r.files[r.phase.next];
      if name in s.sources {
        LoadBelowMeaning(s.table, s.sources[name], r.loaded, |s.table|);
      }
      hide LockKey, LoadBelow, NoRepeats;
    case _ =>
      hide LockKey, LoadFile, NoRepeats;
  }

  /** Every step of every run, ingestion and run creation keep the invariant. */
  lemma NextKeepsInv(hash: string -> int, s: System, a: Action)
    requires Inv(hash, s) && Enabled(s, a)
    ensures Inv(hash, Next(hash, s, a))
  {
    var s' := Next(hash, s, a);
    StampsStayOk(hash, s, a);
    MoverTableGrows(hash, s, a);
    forall i | 0 <= i < |s'.runs| ensures RunOk(hash, s', i) {
      NextKeepsRun(hash, s, a, i);
    }
    forall i, j | 0 <= i < |s'.runs| && 0 <= j < |s'.runs| && i != j ensures PairOk(hash, s'.runs[i], s'.runs[j]) {
      NextKeepsPair(hash, s, a, i, j);
    }
    hide *;
  }

  lemma NextKeepsRun(hash: string -> int, s: System, a: Action, i: nat)
    requires Inv(hash, s) && Enabled(s, a) && i < |Next(hash, s, a).runs|
    ensures RunOk(hash, Next(hash, s, a), i)
  {
    var s' := Next(hash, s, a);
    MoverTableGrows(hash, s, a);
    if a.Create? && i == |s.runs| {
      hide LockKey;
    } else if a.Advance? && i == a.run {
      MoverOk(hash, s, a);
    } else {
      assert RunOk(hash, s, i);
      if a.Advance? && a.move.Unlock? {
        assert RunOk(hash, s, a.run);
      }
      assert s'.runs[i] == s.runs[i];
      RunOkFramed(hash, s, s', i);
    }
  }

  lemma NextKeepsPair(hash: string -> int, s: System, a: Action, i: nat, j: nat)
    requires Inv(hash, s) && Enabled(s, a)
    requires i < |Next(hash, s, a).runs| && j < |Next(hash, s, a).runs| && i != j
    ensures PairOk(hash, Next(hash, s, a).runs[i], Next(hash, s, a).runs[j])
  {
    hide LockKey, LoadFile, Consume, StampsOk, RunOk, Insert;
    if a.Create? {
      if i < |s.runs| && j < |s.runs| {
        assert PairOk(hash, s.runs[i], s.runs[j]);
      }
    } else if a.Ingest? {
      assert PairOk(hash, s.runs[i], s.runs[j]);
    } else {
      assert PairOk(hash, s.runs[i], s.runs[j]);
      if i == a.run {
        MoverPairs(hash, s, a, j);
      } else if j == a.run {
        MoverPairs(hash, s, a, i);
      }
    }
  }

  // ---- whole interleavings ------------------------------------------------------------------------------

  /** No runs, no locks, nothing consumed. */
  predicate Initial(s: System) {
    s.runs == [] && s.locks == map[] && forall x :: 0 <= x < |s.table| ==> s.table[x].consumedBy.None?
  }

  lemma {:induction false} ScheduleInv(hash: string -> int, s0: System, actions: seq<Action>)
    requires Initial(s0)
    ensures Inv(hash, Schedule(hash, s0, actions))
  {
    if actions != [] {
      var init, last := actions[..|actions| - 1], actions[|actions| - 1];
      ScheduleInv(hash, s0, init);
      if Enabled(Schedule(hash, s0, init), last) {
        NextKeepsInv(hash, Schedule(hash, s0, init), last);
      }
    }
  }

  /**
   Runs over permutations of one file list, under every interleaving: at most one of them is
   inside the analysis, and no ledger row has a line item from two that finished without raising.
   */
  lemma PermutedRunsExclude(hash: string -> int, s0: System, actions: seq<Action>, i: nat, j: nat)
    requires Initial(s0)
    ensures var s := Schedule(hash, s0, actions);
            i < |s.runs| && j < |s.runs| && i != j && multiset(s.runs[i].files) == multiset(s.runs[j].files) ==>
              && !(Active(s.runs[i]) && Active(s.runs[j]))
              && (s.runs[i].phase.Finished? && s.runs[j].phase.Finished? ==> s.runs[i].committed !! s.runs[j].committed)
  {
    ScheduleInv(hash, s0, actions);
    var s := Schedule(hash, s0, actions);
    if i < |s.runs| && j < |s.runs| && i != j && multiset(s.runs[i].files) == multiset(s.runs[j].files) {
      PermutationsContend(hash, s.runs[i].files, s.runs[j].files);
      assert RunOk(hash, s, i) && RunOk(hash, s, j) && PairOk(hash, s.runs[i], s.runs[j]);
      hide LockKey, NoRepeats;
    }
  }

  /**
   The exact exception: if two ended runs over permuted lists both committed a line item for a
   ledger row, one of them failed right between creating that line item and marking the row.
   */
  lemma SharedRowsWereStranded(hash: string -> int, s0: System, actions: seq<Action>, i: nat, j: nat)
    requires Initial(s0)
    ensures var s := Schedule(hash, s0, actions);
            i < |s.runs| && j < |s.runs| && i != j && multiset(s.runs[i].files) == multiset(s.runs[j].files)
            && !Active(s.runs[i]) && !Active(s.runs[j]) ==>
              forall x :: x in s.runs[i].committed && x in s.runs[j].committed ==>
                Stranded(s.runs[i], x) || Stranded(s.runs[j], x)
  {
    ScheduleInv(hash, s0, actions);
    var s := Schedule(hash, s0, actions);
    if i < |s.runs| && j < |s.runs| && i != j && multiset(s.runs[i].files) == multiset(s.runs[j].files) {
      PermutationsContend(hash, s.runs[i].files, s.runs[j].files);
      assert PairOk(hash, s.runs[i], s.runs[j]);
      hide LockKey, Stranded, Schedule;
    }
  }

  // ---- the exception does occur ----------------------------------------------------------------------

  lemma Take(hash: string -> int, s0: System, actions: seq<Action>, s: System, a: Action)
    requires Schedule(hash, s0, actions) == s && Enabled(s, a)
    ensures Schedule(hash, s0, actions + [a]) == Next(hash, s, a)
  {
    assert (actions + [a])[..|actions|] == actions;
    hide Next, Enabled;
  }

  /** A ledger of one row, and the one file that selects it. */
  function OneRow(): LedgerRow { LedgerRow(0, Some(1), "key", None) }

  function OneSource(): map<string, Source> { map["f" := Source(0, Some(1))] }

  lemma LoadsTheRow()
    ensures LoadFile([OneRow()], OneSource(), "f", []) == [0]
  {
    assert LoadBelow([OneRow()], OneSource()["f"], [], 0) == [];
  }

  /** A run that has created the row's line item and not marked the row yet. */
  function MidRow(): Run { Run(["f"], Persisting, true, [0], [], Some(0), {0}, {}, {}) }

  /** From any state in which the row is there and nobody holds a lock, the next run gets that far. */
  lemma ReachMidRow(hash: string -> int, s0: System, actions: seq<Action>, s: System) returns (more: seq<Action>)
    requires Schedule(hash, s0, actions) == s
    requires s.table == [OneRow()] && s.sources == OneSource() && s.locks == map[]
    ensures Schedule(hash, s0, more)
         == s.(runs := s.runs + [MidRow()], locks := map[LockKey(hash, ["f"]) := |s.runs|])
  {
    hide Schedule, LoadFile, LockKey;
    var i := |s.runs|;
    LoadsTheRow();
    Take(hash, s0, actions, s, Create(["f"]));
    var s1 := Next(hash, s, Create(["f"]));
    Take(hash, s0, actions + [Create(["f"])], s1, Advance(i, TryLock));
    var s2 := Next(hash, s1, Advance(i, TryLock));
    assert s2 == s.(runs := s.runs + [Run(["f"], Loading(0), true, [], [], None, {}, {}, {})], locks := map[LockKey(hash, ["f"]) := i]);
    more := actions + [Create(["f"])] + [Advance(i, TryLock)];
    Take(hash, s0, more, s2, Advance(i, Load));
    var s3 := Next(hash, s2, Advance(i, Load));
    assert s3 == s2.(runs := s.runs + [Run(["f"], Loading(1), true, [0], [], None, {}, {}, {})]);
    Take(hash, s0, more + [Advance(i, Load)], s3, Advance(i, Extract([0])));
    var s4 := Next(hash, s3, Advance(i, Extract([0])));
    assert s4 == s2.(runs := s.runs + [Run(["f"], Persisting, true, [0], [0], None, {}, {}, {})]);
    more := more + [Advance(i, Load)] + [Advance(i, Extract([0]))];
    Take(hash, s0, more, s4, Advance(i, Persist));
    var none: set<nat> := {};
    assert [0][1..] == [] && none + {0} == {0};
    assert Next(hash, s4, Advance(i, Persist)) == s2.(runs := s.runs + [MidRow()]);
    more := more + [Advance(i, Persist)];
  }

  /** There it raises; the error path commits the line item and lets go of the lock. */
  function FailedRun(): Run { Run(["f"], Failed, false, [0], [], Some(0), {}, {}, {0}) }

  function FinishedRun(): Run { Run(["f"], Finished, false, [0], [], None, {}, {}, {0}) }

  lemma RaiseMidRow(hash: string -> int, s0: System, actions: seq<Action>, s: System) returns (more: seq<Action>)
    requires Schedule(hash, s0, actions) == s && |s.runs| == 1 && s.runs[0] == MidRow()
    requires s.table == [OneRow()] && s.locks == map[LockKey(hash, ["f"]) := 0]
    ensures Schedule(hash, s0, more) == s.(runs := [FailedRun()], locks := map[])
  {
    hide Schedule, LockKey, LoadFile;
    Take(hash, s0, actions, s, Advance(0, Raise));
    var s1 := Next(hash, s, Advance(0, Raise));
    var none: set<nat> := {};
    assert none + {0} == {0};
    assert s1 == s.(runs := [Run(["f"], Failed, true, [0], [], Some(0), {}, {}, {0})]);
    more := actions + [Advance(0, Raise)];
    Take(hash, s0, more, s1, Advance(0, Unlock));
    assert Next(hash, s1, Advance(0, Unlock)) == s.(runs := [FailedRun()], locks := map[]);
    more := more + [Advance(0, Unlock)];
  }

  lemma CompleteRow(hash: string -> int, s0: System, actions: seq<Action>, s: System) returns (more: seq<Action>)
    requires Schedule(hash, s0, actions) == s && |s.runs| == 2 && s.runs[1] == MidRow()
    requires s.table == [OneRow()] && s.locks == map[LockKey(hash, ["f"]) := 1]
    ensures Schedule(hash, s0, more)
         == s.(table := [OneRow().(consumedBy := Some(1))], runs := [s.runs[0], FinishedRun()], locks := map[])
  {
    hide Schedule, LockKey, LoadFile;
    Take(hash, s0, actions, s, Advance(1, Stamp));
    var s1 := Next(hash, s, Advance(1, Stamp));
    var none: set<nat> := {};
    assert none + {0} == {0};
    assert s1 == s.(runs := [s.runs[0], Run(["f"], Persisting, true, [0], [], None, {0}, {0}, {})]);
    more := actions + [Advance(1, Stamp)];
    Take(hash, s0, more, s1, Advance(1, CommitChunk));
    var s2 := Next(hash, s1, Advance(1, CommitChunk));
    assert s2 == s.(table := [OneRow().(consumedBy := Some(1))],
                    runs := [s.runs[0], Run(["f"], Persisting, true, [0], [], None, {}, {}, {0})]);
    more := more + [Advance(1, CommitChunk)];
    Take(hash, s0, more, s2, Advance(1, Finish));
    var s3 := Next(hash, s2, Advance(1, Finish));
    assert s3 == s2.(runs := [s.runs[0], Run(["f"], Finished, true, [0], [], None, {}, {}, {0})]);
    more := more + [Advance(1, Finish)];
    Take(hash, s0, more, s3, Advance(1, Unlock));
    assert Next(hash, s3, Advance(1, Unlock)) == s2.(runs := [s.runs[0], FinishedRun()], locks := map[]);
    more := more + [Advance(1, Unlock)];
  }

  /**
   One ledger row, one file, two runs, any hash: the first raises between creating the line item
   and marking the row, as it does whenever the row's evaluation raises; the second completes.
   The row then has a line item of both.
   */
  lemma FailedRunLeavesTwoLineItems(hash: string -> int)
    ensures exists actions ::
              var s := Schedule(hash, System([OneRow()], OneSource(), map[], []), actions);
              && s.runs == [FailedRun(), FinishedRun()] && s.table == [OneRow().(consumedBy := Some(1))]
              && 0 in s.runs[0].committed && 0 in s.runs[1].committed
  {
    var s0 := System([OneRow()], OneSource(), map[], []);
    assert Schedule(hash, s0, []) == s0;
    hide Schedule, LockKey;
    var k := LockKey(hash, ["f"]);
    var actions := ReachMidRow(hash, s0, [], s0);
    actions := RaiseMidRow(hash, s0, actions, s0.(runs := [] + [MidRow()], locks := map[k := 0]));
    var s1 := s0.(runs := [FailedRun()], locks := map[]);
    actions := ReachMidRow(hash, s0, actions, s1);
    var s2 := s1.(runs := [FailedRun()] + [MidRow()], locks := map[k := 1]);
    actions := CompleteRow(hash, s0, actions, s2);
    assert Schedule(hash, s0, actions).runs == [FailedRun(), FinishedRun()];
  }

  /** A run refused the lock has read nothing and produced nothing, and no ledger row names it. */
  lemma RefusedRunsTouchNothing(hash: string -> int, s0: System, actions: seq<Action>, i: nat)
    requires Initial(s0)
    ensures var s := Schedule(hash, s0, actions);
            i < |s.runs| && s.runs[i].phase.Refused? ==>
              && s.runs[i].loaded == [] && s.runs[i].committed == {}
              && forall x :: 0 <= x < |s.table| ==> s.table[x].consumedBy != Some(i)
  {
    ScheduleInv(hash, s0, actions);
    var s := Schedule(hash, s0, actions);
    if i < |s.runs| {
      assert RunOk(hash, s, i);
      hide LockKey, NoRepeats, Schedule;
    }
  }

  /**
   At every commit point of every interleaving, error paths included: a row marked as consumed
   by a run has a committed line item of that run; each run loads a row at most once; and every
   row with a committed line item is marked, but for the one row a failed run raised at.
   */
  lemma ConsumedRowsHaveLineItems(hash: string -> int, s0: System, actions: seq<Action>)
    requires Initial(s0)
    ensures var s := Schedule(hash, s0, actions);
            && StampsOk(s)
            && (forall i :: 0 <= i < |s.runs| ==> NoRepeats(s.runs[i].loaded))
            && (forall i, x :: 0 <= i < |s.runs| && x in s.runs[i].committed ==>
                  Consumed(s.table, x) || Stranded(s.runs[i], x))
  {
    ScheduleInv(hash, s0, actions);
    var s := Schedule(hash, s0, actions);
    forall i | 0 <= i < |s.runs|
      ensures NoRepeats(s.runs[i].loaded)
      ensures forall x :: x in s.runs[i].committed ==> Consumed(s.table, x) || Stranded(s.runs[i], x)
    {
      assert RunOk(hash, s, i);
    }
  }

  /**
   A row is consumed only through an extraction result: whatever a run has committed was among
   the rows its extraction kept, so rows of failed chunks and batches stay unconsumed by it.
   */
  lemma DroppedRowsStayUnconsumed(s: System, i: nat, kept: seq<nat>, hash: string -> int, actions: seq<Action>)
    requires Inv(hash, s) && i < |s.runs| && CanMove(s.runs[i], Extract(kept))
    ensures var later := Schedule(hash, Next(hash, s, Advance(i, Extract(kept))), actions);
            && i < |later.runs|
            && (forall x :: x in later.runs[i].committed ==> x in kept)
            && (forall x :: 0 <= x < |later.table| && later.table[x].consumedBy == Some(i) ==> x in kept)
  {
    var first := Next(hash, s, Advance(i, Extract(kept)));
    NextKeepsInv(hash, s, Advance(i, Extract(kept)));
    assert RunOk(hash, s, i);
    KeptRowsOnly(hash, first, i, kept, actions);
    var later := Schedule(hash, first, actions);
    ScheduleKeepsInv(hash, first, actions);
    assert StampsOk(later);
    hide Schedule, LockKey;
  }

  lemma {:induction false} ScheduleKeepsInv(hash: string -> int, s: System, actions: seq<Action>)
    requires Inv(hash, s)
    ensures Inv(hash, Schedule(hash, s, actions))
  {
    if actions != [] {
      var init, last := actions[..|actions| - 1], actions[|actions| - 1];
      ScheduleKeepsInv(hash, s, init);
      if Enabled(Schedule(hash, s, init), last) {
        NextKeepsInv(hash, Schedule(hash, s, init), last);
      }
    }
  }

  /** After extraction a run's rows, pending, flushed or committed, all come from what was kept. */
  predicate WithinKept(r: Run, kept: seq<nat>) {
    && !r.phase.Waiting? && !r.phase.Loading?
    && (forall x :: x in r.pending ==> x in kept)
    && (forall x :: x in r.flushed ==> x in kept)
    && (forall x :: x in r.committed ==> x in kept)
  }

  lemma {:induction false} KeptRowsOnly(hash: string -> int, s: System, i: nat, kept: seq<nat>, actions: seq<Action>)
    requires i < |s.runs| && WithinKept(s.runs[i], kept)
    ensures var later := Schedule(hash, s, actions); i < |later.runs| && WithinKept(later.runs[i], kept)
  {
    if actions != [] {
      var init, last := actions[..|actions| - 1], actions[|actions| - 1];
      KeptRowsOnly(hash, s, i, kept, init);
      var mid := Schedule(hash, s, init);
      if Enabled(mid, last) && last.Advance? && last.run == i {
        MoveWithinKept(mid, mid.runs[i], last.move, kept);
      }
      hide LockKey, WithinKept, CanMove, MovedRun, Consume, Insert;
    }
  }

  lemma MoveWithinKept(s: System, r: Run, m: Move, kept: seq<nat>)
    requires WithinKept(r, kept) && CanMove(r, m)
    ensures forall lockFree :: WithinKept(MovedRun(s, r, m, lockFree), kept)
  {
    hide LoadFile;
  }
}
