/**
 What a run gets done, under every interleaving: it loads every row its files ask for that stays
 open, and a run that finishes has committed and consumed every row its extraction kept.
 */
module RunProgress {
  import opened Core
  import opened Ledger
  import opened AdvisoryLock
  import opened AnalysisRuns

  // ---- loading ---------------------------------------------------------------------------------

  /** The row belongs to the source's account, or to the source itself if it has no account. */
  predicate BelongsTo(row: LedgerRow, source: Source) {
    (source.account.Some? ==> row.account == source.account) && (source.account.None? ==> row.source == source.id)
  }

  /** One of the first n files asks for row x. */
  predicate Asked(s: System, files: seq<string>, n: nat, x: nat)
    requires n <= |files| && x < |s.table|
  {
    exists k :: 0 <= k < n && files[k] in s.sources && BelongsTo(s.table[x], s.sources[files[k]])
  }

  /**
   As long as run i loads, it holds only rows that the files so far ask for, and of the first
   `known` rows all of these that are still open.
   */
  predicate LoadedSoFar(s: System, i: nat, known: nat) {
    && i < |s.runs| && known <= |s.table| && !s.runs[i].phase.Waiting?
    && var r := s.runs[i];
       r.phase.Loading? ==>
         && r.phase.next <= |r.files|
         && (forall x :: x in r.loaded ==> x < |s.table| && Asked(s, r.files, r.phase.next, x))
         && (forall x: nat :: x < known && s.table[x].consumedBy.None? && Asked(s, r.files, r.phase.next, x) ==> x in r.loaded)
  }

  /** Rows keep their account and source, and consumed rows stay consumed. */
  predicate RowsStay(t: seq<LedgerRow>, t': seq<LedgerRow>) {
    && |t| <= |t'|
    && forall x :: 0 <= x < |t| ==>
         && t'[x].account == t[x].account && t'[x].source == t[x].source
         && (t[x].consumedBy.Some? ==> t'[x].consumedBy.Some?)
  }

  lemma NextKeepsRows(hash: string -> int, s: System, a: Action)
    requires Enabled(s, a)
    ensures var s' := Next(hash, s, a);
            && RowsStay(s.table, s'.table) && s'.sources == s.sources && |s.runs| <= |s'.runs|
            && forall i :: 0 <= i < |s.runs| && !(a.Advance? && a.run == i) ==> s'.runs[i] == s.runs[i]
  {
    match a
    case Ingest(rows) => InsertMeaning(s.table, rows);
    case _ =>
    hide LockKey, MovedRun, CanMove, Insert;
  }

  lemma AskedStays(s: System, s': System, files: seq<string>, n: nat, x: nat)
    requires RowsStay(s.table, s'.table) && s'.sources == s.sources && n <= |files| && x < |s.table|
    ensures Asked(s, files, n, x) <==> Asked(s', files, n, x)
  {
  }

  /** Another run's step, an ingestion or a creation leaves what run i has loaded in order. */
  lemma OthersKeepLoaded(s: System, s': System, i: nat, known: nat)
    requires LoadedSoFar(s, i, known) && RowsStay(s.table, s'.table) && s'.sources == s.sources
    requires i < |s'.runs| && s'.runs[i] == s.runs[i]
    ensures LoadedSoFar(s', i, known)
  {
    var r := s.runs[i];
    if r.phase.Loading? {
      forall x: nat | x < |s.table| ensures Asked(s, r.files, r.phase.next, x) <==> Asked(s', r.files, r.phase.next, x) {
        AskedStays(s, s', r.files, r.phase.next, x);
      }
      hide RowsStay, Asked;
      assert forall x: nat :: x < known && s'.table[x].consumedBy.None? ==> s.table[x].consumedBy.None? by { OpenStays(s.table, s'.table); }
      assert |s.table| <= |s'.table| by { OpenStays(s.table, s'.table); }
    }
  }

  lemma OpenStays(t: seq<LedgerRow>, t': seq<LedgerRow>)
    requires RowsStay(t, t')
    ensures |t| <= |t'|
    ensures forall x :: 0 <= x < |t| && t'[x].consumedBy.None? ==> t[x].consumedBy.None?
  {
  }

  lemma AskedMore(s: System, files: seq<string>, n: nat, x: nat)
    requires n < |files| && x < |s.table|
    ensures Asked(s, files, n + 1, x) <==>
              Asked(s, files, n, x) || (files[n] in s.sources && BelongsTo(s.table[x], s.sources[files[n]]))
  {
  }

  /** Loading the next file adds exactly its open rows. */
  lemma LoadKeepsLoaded(s: System, i: nat, known: nat)
    requires LoadedSoFar(s, i, known) && CanMove(s.runs[i], Load) && NoRepeats(s.runs[i].loaded)
    ensures var r := MovedRun(s, s.runs[i], Load, false);
            && r == MovedRun(s, s.runs[i], Load, true)
            && LoadedSoFar(s.(runs := s.runs[i := r]), i, known)
  {
    var r, n := s.runs[i], s.runs[i].phase.next;
    var after := MovedRun(s, r, Load, false);
    var s' := s.(runs := s.runs[i := after]);
    if r.files[n] in s.sources {
      LoadBelowMeaning(s.table, s.sources[r.files[n]], r.loaded, |s.table|);
    }
    forall x: nat | x < |s.table|
      ensures Asked(s', r.files, n + 1, x) <==>
                Asked(s, r.files, n, x) || (r.files[n] in s.sources && BelongsTo(s.table[x], s.sources[r.files[n]]))
    {
      AskedMore(s, r.files, n, x);
      AskedStays(s, s', r.files, n + 1, x);
    }
    hide LoadBelow, NoRepeats, Asked;
  }

  lemma StepKeepsLoaded(hash: string -> int, s: System, a: Action, i: nat, known: nat)
    requires Inv(hash, s) && Enabled(s, a) && LoadedSoFar(s, i, known)
    ensures LoadedSoFar(Next(hash, s, a), i, known)
  {
    var s' := Next(hash, s, a);
    NextKeepsRows(hash, s, a);
    if a.Advance? && a.run == i {
      assert RunOk(hash, s, i);
      if a.move.Load? {
        LoadKeepsLoaded(s, i, known);
        hide *;
        LoadOnly(hash, s, i);
      } else {
        hide LockKey, LoadFile, Consume, Asked, NoRepeats, RowsStay;
        OpenStays(s.table, s'.table);
      }
    } else {
      hide LockKey, MovedRun, CanMove, Insert, Next, Inv, RunOk;
      OthersKeepLoaded(s, s', i, known);
    }
  }

  lemma LoadOnly(hash: string -> int, s: System, i: nat)
    requires i < |s.runs| && CanMove(s.runs[i], Load) && MovedRun(s, s.runs[i], Load, false) == MovedRun(s, s.runs[i], Load, true)
    ensures Next(hash, s, Advance(i, Load)) == s.(runs := s.runs[i := MovedRun(s, s.runs[i], Load, false)])
  {
    hide LockKey, MovedRun;
  }

  lemma {:induction false} ScheduleKeepsLoaded(hash: string -> int, s: System, actions: seq<Action>, i: nat, known: nat)
    requires Inv(hash, s) && LoadedSoFar(s, i, known)
    ensures LoadedSoFar(Schedule(hash, s, actions), i, known)
  {
    if actions != [] {
      var init, last := actions[..|actions| - 1], actions[|actions| - 1];
      ScheduleKeepsLoaded(hash, s, init, i, known);
      ScheduleKeepsInv(hash, s, init);
      hide Inv, LoadedSoFar, Next, Enabled;
      if Enabled(Schedule(hash, s, init), last) {
        StepKeepsLoaded(hash, Schedule(hash, s, init), last, i, known);
      }
    }
  }

  /**
   Whatever happens between taking the lock and the end of loading, the run then holds only rows
   its files ask for, and every such row that was in the ledger when it took the lock and that
   nobody has consumed.
   */
  lemma RunLoadsWhatStaysOpen(hash: string -> int, s: System, i: nat, actions: seq<Action>)
    requires Inv(hash, s) && i < |s.runs| && s.runs[i].phase.Waiting?
    ensures var later := Schedule(hash, Next(hash, s, Advance(i, TryLock)), actions);
            && i < |later.runs| && |s.table| <= |later.table|
            && var r := later.runs[i];
               r.phase.Loading? && r.phase.next >= |r.files| ==>
                 && (forall x :: x in r.loaded ==> x < |later.table| && Asked(later, r.files, |r.files|, x))
                 && (forall x: nat :: x < |s.table| && later.table[x].consumedBy.None? && Asked(later, r.files, |r.files|, x) ==>
                       x in r.loaded)
  {
    var first := Next(hash, s, Advance(i, TryLock));
    assert RunOk(hash, s, i);
    NextKeepsInv(hash, s, Advance(i, TryLock));
    assert LoadedSoFar(first, i, |s.table|) by { hide LockKey; }
    hide Inv, Next, Schedule;
    ScheduleKeepsLoaded(hash, first, actions, i, |s.table|);
  }

  /** Ingestion during runs adds the new identities as open rows, and touches no row, run or lock there is. */
  lemma IngestionAddsOpenRows(hash: string -> int, s: System, rows: seq<LedgerRow>)
    requires Enabled(s, Ingest(rows))
    ensures var s' := Next(hash, s, Ingest(rows));
            && s'.runs == s.runs && s'.locks == s.locks && s.table <= s'.table
            && Keys(s'.table) == Keys(s.table) + Keys(rows)
            && forall x :: |s.table| <= x < |s'.table| ==> s'.table[x] in rows && s'.table[x].consumedBy.None?
  {
    InsertMeaning(s.table, rows);
    InsertKeys(s.table, rows);
    hide Insert, Keys;
  }

  // ---- finishing -------------------------------------------------------------------------------

  /** Until it fails, an extracted run has every kept row pending, in its open transaction, or committed. */
  predicate HoldsKept(r: Run, kept: seq<nat>) {
    && WithinKept(r, kept)
    && (r.phase.Persisting? || r.phase.Finished? ==> forall x :: x in kept ==> x in r.pending || x in r.flushed || x in r.committed)
    && (r.phase.Finished? ==> r.pending == [] && r.flushed == {})
  }

  lemma MoveHoldsKept(s: System, r: Run, m: Move, kept: seq<nat>, lockFree: bool)
    requires HoldsKept(r, kept) && CanMove(r, m)
    ensures HoldsKept(MovedRun(s, r, m, lockFree), kept)
  {
    hide LoadFile;
    if m.Persist? {
      assert forall x :: x in r.pending ==> x == r.pending[0] || x in r.pending[1..];
    }
  }

  lemma {:induction false} ScheduleHoldsKept(hash: string -> int, s: System, i: nat, kept: seq<nat>, actions: seq<Action>)
    requires i < |s.runs| && HoldsKept(s.runs[i], kept)
    ensures var later := Schedule(hash, s, actions); i < |later.runs| && HoldsKept(later.runs[i], kept)
  {
    if actions != [] {
      var init, last := actions[..|actions| - 1], actions[|actions| - 1];
      ScheduleHoldsKept(hash, s, i, kept, init);
      var mid := Schedule(hash, s, init);
      if Enabled(mid, last) && last.Advance? && last.run == i {
        MoveHoldsKept(mid, mid.runs[i], last.move, kept, LockKey(hash, mid.runs[i].files) !in mid.locks);
      }
      hide LockKey, HoldsKept, CanMove, MovedRun, Consume, Insert;
    }
  }

  /** A run that finishes has committed a line item for every row its extraction kept and no other, and each of them is consumed. */
  lemma FinishedRunsCommitEverything(hash: string -> int, s: System, i: nat, kept: seq<nat>, actions: seq<Action>)
    requires Inv(hash, s) && i < |s.runs| && CanMove(s.runs[i], Extract(kept))
    ensures var later := Schedule(hash, Next(hash, s, Advance(i, Extract(kept))), actions);
            && i < |later.runs|
            && (later.runs[i].phase.Finished? ==>
                  && (forall x :: x in later.runs[i].committed <==> x in kept)
                  && forall x :: x in kept ==> x < |later.table| && later.table[x].consumedBy.Some?)
  {
    var first := Next(hash, s, Advance(i, Extract(kept)));
    NextKeepsInv(hash, s, Advance(i, Extract(kept)));
    assert RunOk(hash, s, i);
    assert HoldsKept(first.runs[i], kept) by { hide LockKey; }
    ScheduleHoldsKept(hash, first, i, kept, actions);
    ScheduleKeepsInv(hash, first, actions);
    hide Schedule, LockKey, Next;
    assert RunOk(hash, Schedule(hash, first, actions), i);
  }
}
