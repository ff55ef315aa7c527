/**
 The mtime-keyed cache of one configuration file, shared by any number of threads while
 other processes rewrite the file.  Each locked block, stat, read and write is one atomic
 step; the steps of different threads interleave freely.
 */
module JsonCache {
  import opened Core

  /** One installed version of the file: its mtime and its parsed contents (None: not valid JSON). */
  datatype Version = Version(mtime: int, data: Option<int>)

  datatype Entry = Entry(mtime: int, data: int)

  /**
   Where a call stands.  `called` and `until` are the versions current when the call began
   and ended: they record history, only to state what "between call and return" means.
   */
  datatype Thread =
    | Called(called: nat)
    | Statted(called: nat, mtime: int)
    | Missed(called: nat, mtime: int)
    | Parsed(called: nat, mtime: int, data: int)
    | Returned(called: nat, until: nat, data: int)
    | Raised(called: nat, until: nat)

  /** All versions ever installed, oldest first; the last one is the file now. */
  datatype System = System(versions: seq<Version>, cache: Option<Entry>, threads: map<nat, Thread>)

  /** The cached data, if it was filed under exactly this mtime. */
  function Hit(cache: Option<Entry>, mtime: int): Option<int> {
    if cache.Some? && cache.value.mtime == mtime then Some(cache.value.data) else None
  }

  function Now(s: System): nat
    requires s.versions != []
  {
    |s.versions| - 1
  }

  datatype Action =
    | Call(thread: nat)
    | Stat(thread: nat)
    | LookUp(thread: nat)
    | Read(thread: nat)
    | Store(thread: nat)
    | Install(version: Version)
    | Invalidate

  predicate At(s: System, t: nat) { t in s.threads }

  /** Which actions are possible; a write may install anything, a repeated mtime included. */
  predicate Enabled(s: System, a: Action) {
    match a
    case Call(t) => At(s, t) ==> s.threads[t].Returned? || s.threads[t].Raised?
    case Stat(t) => At(s, t) && s.threads[t].Called?
    case LookUp(t) => At(s, t) && s.threads[t].Statted?
    case Read(t) => At(s, t) && s.threads[t].Missed?
    case Store(t) => At(s, t) && s.threads[t].Parsed?
    case Install(v) => true
    case Invalidate => true
  }

  function SetThread(s: System, t: nat, thread: Thread): System {
    s.(threads := s.threads[t := thread])
  }

  function Next(s: System, a: Action): System
    requires s.versions != [] && Enabled(s, a)
  {
    var now := s.versions[Now(s)];
    match a
    case Call(t) => SetThread(s, t, Called(Now(s)))
    case Stat(t) => SetThread(s, t, Statted(s.threads[t].called, now.mtime))
    case LookUp(t) =>
      var th := s.threads[t];
      var hit := Hit(s.cache, th.mtime);
      if hit.Some? then SetThread(s, t, Returned(th.called, Now(s), hit.value))
      else SetThread(s, t, Missed(th.called, th.mtime))
    case Read(t) =>
      var th := s.threads[t];
      if now.data.Some? then SetThread(s, t, Parsed(th.called, th.mtime, now.data.value))
      else SetThread(s, t, Raised(th.called, Now(s)))
    case Store(t) =>
      var th := s.threads[t];
      SetThread(s, t, Returned(th.called, Now(s), th.data)).(cache := Some(Entry(th.mtime, th.data)))
    case Install(v) => s.(versions := s.versions + [v])
    case Invalidate => s.(cache := None)
  }

  /** Some version no older than `from`, and installed by now, held this data. */
  predicate HeldSince(s: System, from: nat, data: int) {
    exists i: nat :: from <= i < |s.versions| && s.versions[i].data == Some(data)
  }

  /** The mtime belongs to some version no older than `from`. */
  predicate SeenSince(s: System, from: nat, mtime: int) {
    exists i: nat :: from <= i < |s.versions| && s.versions[i].mtime == mtime
  }

  /** Data filed under an mtime was held by the version with that mtime or by a newer one. */
  predicate FiledSoundly(s: System, mtime: int, data: int) {
    exists i: nat :: i < |s.versions| && s.versions[i].mtime == mtime && HeldSince(s, i, data)
  }

  /**
   An mtime may come back, as long as nothing that was readable since it was last there differs
   from what it now stands for.  Mtimes that never repeat are the simplest case.
   */
  predicate NoStaleRepeat(versions: seq<Version>) {
    forall i, k, j :: 0 <= i <= k <= j < |versions| && i < j ==> RepeatOk(versions[i], versions[k], versions[j])
  }

  predicate RepeatOk(first: Version, between: Version, again: Version) {
    first.mtime == again.mtime && between.data.Some? ==> between.data == again.data
  }

  predicate ThreadOk(s: System, th: Thread) {
    match th
    case Called(from) => from < |s.versions|
    case Statted(from, m) => SeenSince(s, from, m)
    case Missed(from, m) => SeenSince(s, from, m)
    case Parsed(from, m, d) => SeenSince(s, from, m) && HeldSince(s, from, d) && FiledSoundly(s, m, d)
    case Returned(from, until, d) =>
      until < |s.versions| && exists i: nat :: from <= i <= until && s.versions[i].data == Some(d)
    case Raised(from, until) =>
      until < |s.versions| && exists i: nat :: from <= i <= until && s.versions[i].data.None?
  }

  ghost predicate Inv(s: System) {
    && s.versions != []
    && NoStaleRepeat(s.versions)
    && (s.cache.Some? ==> FiledSoundly(s, s.cache.value.mtime, s.cache.value.data))
    && (forall t | t in s.threads :: ThreadOk(s, s.threads[t]))
  }

  /** A hit is sound: whatever is filed under an mtime this call saw was held since the call began. */
  lemma HitIsFresh(s: System, from: nat, mtime: int, data: int)
    requires NoStaleRepeat(s.versions) && SeenSince(s, from, mtime) && FiledSoundly(s, mtime, data)
    ensures HeldSince(s, from, data)
  {
    hide NoStaleRepeat;
    var i: nat :| from <= i < |s.versions| && s.versions[i].mtime == mtime;
    var j: nat :| j < |s.versions| && s.versions[j].mtime == mtime && HeldSince(s, j, data);
    var k: nat :| j <= k < |s.versions| && s.versions[k].data == Some(data);
    if k < from {
      RepeatAt(s.versions, j, k, i);
    }
  }

  lemma RepeatAt(versions: seq<Version>, i: nat, k: nat, j: nat)
    requires NoStaleRepeat(versions) && i <= k <= j < |versions| && i < j
    ensures RepeatOk(versions[i], versions[k], versions[j])
  {
  }

  /** What is read now was held since any earlier version, and may be filed under any mtime already seen. */
  lemma ReadIsSound(s: System, from: nat, mtime: int)
    requires s.versions != [] && SeenSince(s, from, mtime) && s.versions[Now(s)].data.Some?
    ensures HeldSince(s, from, s.versions[Now(s)].data.value)
    ensures FiledSoundly(s, mtime, s.versions[Now(s)].data.value)
  {
    var i: nat :| from <= i < |s.versions| && s.versions[i].mtime == mtime;
    assert HeldSince(s, i, s.versions[Now(s)].data.value);
  }

  /** Installing a version keeps every fact about the past. */
  lemma InstallKeeps(s: System, v: Version, th: Thread)
    requires ThreadOk(s, th)
    ensures ThreadOk(s.(versions := s.versions + [v]), th)
  {
    var s' := s.(versions := s.versions + [v]);
    assert forall i :: 0 <= i < |s.versions| ==> s'.versions[i] == s.versions[i];
    match th
    case Parsed(from, m, d) =>
      InstallKeepsFiled(s, v, m, d);
      var k: nat :| from <= k < |s.versions| && s.versions[k].data == Some(d);
      assert s'.versions[k].data == Some(d);
      var i: nat :| from <= i < |s.versions| && s.versions[i].mtime == m;
      assert s'.versions[i].mtime == m;
    case Statted(from, m) =>
      var i: nat :| from <= i < |s.versions| && s.versions[i].mtime == m;
      assert s'.versions[i].mtime == m;
    case Missed(from, m) =>
      var i: nat :| from <= i < |s.versions| && s.versions[i].mtime == m;
      assert s'.versions[i].mtime == m;
    case Returned(from, until, d) =>
      var k: nat :| from <= k <= until && s.versions[k].data == Some(d);
      assert s'.versions[k].data == Some(d);
    case Raised(from, until) =>
      var k: nat :| from <= k <= until && s.versions[k].data.None?;
      assert s'.versions[k].data.None?;
    case _ =>
  }

  lemma InstallKeepsFiled(s: System, v: Version, mtime: int, data: int)
    requires FiledSoundly(s, mtime, data)
    ensures FiledSoundly(s.(versions := s.versions + [v]), mtime, data)
  {
    var s' := s.(versions := s.versions + [v]);
    var i: nat :| i < |s.versions| && s.versions[i].mtime == mtime && HeldSince(s, i, data);
    var k: nat :| i <= k < |s.versions| && s.versions[k].data == Some(data);
    assert s'.versions[k].data == Some(data);
    assert s'.versions[i].mtime == mtime && HeldSince(s', i, data);
  }

  lemma ThreadOkFramed(s: System, s': System, th: Thread)
    requires s.versions == s'.versions && ThreadOk(s, th)
    ensures ThreadOk(s', th)
  {
    if th.Parsed? {
      FiledFramed(s, s', th.mtime, th.data);
    }
    hide FiledSoundly;
  }

  /** The thread that moved is still sound. */
  lemma MoverOk(s: System, a: Action)
    requires Inv(s) && Enabled(s, a) && !a.Install? && !a.Invalidate?
    ensures ThreadOk(Next(s, a), Next(s, a).threads[a.thread])
  {
    hide NoStaleRepeat;
    var s' := Next(s, a);
    match a
    case Call(t) =>
    case Stat(t) => assert s.versions[Now(s)].mtime == s'.threads[t].mtime;
    case LookUp(t) =>
      var th := s.threads[t];
      assert ThreadOk(s, th);
      if s.cache.Some? && s.cache.value.mtime == th.mtime {
        HitIsFresh(s, th.called, th.mtime, s.cache.value.data);
      }
    case Read(t) =>
      var th := s.threads[t];
      assert ThreadOk(s, th);
      if s.versions[Now(s)].data.Some? {
        ReadIsSound(s, th.called, th.mtime);
        ThreadOkFramed(s, s', Parsed(th.called, th.mtime, s.versions[Now(s)].data.value));
      }
    case Store(t) => assert ThreadOk(s, s.threads[t]);
  }

  /** Every step keeps the invariant, a rewrite as long as it does not make a repeated mtime stale. */
  lemma NextKeepsInv(s: System, a: Action)
    requires Inv(s) && Enabled(s, a) && NoStaleRepeat(Next(s, a).versions)
    ensures Inv(Next(s, a))
  {
    var s' := Next(s, a);
    if a.Install? {
      forall t | t in s'.threads ensures ThreadOk(s', s'.threads[t]) {
        InstallKeeps(s, a.version, s.threads[t]);
      }
      if s.cache.Some? {
        InstallKeepsFiled(s, a.version, s.cache.value.mtime, s.cache.value.data);
      }
      hide ThreadOk, FiledSoundly;
    } else {
      assert s'.versions == s.versions;
      if !a.Invalidate? {
        MoverOk(s, a);
      }
      forall t | t in s'.threads ensures ThreadOk(s', s'.threads[t]) {
        if a.Invalidate? || t != a.thread {
          ThreadOkFramed(s, s', s.threads[t]);
        }
      }
      CacheOk(s, a);
    }
  }

  lemma CacheOk(s: System, a: Action)
    requires Inv(s) && Enabled(s, a) && !a.Install?
    ensures var c := Next(s, a).cache; c.Some? ==> FiledSoundly(Next(s, a), c.value.mtime, c.value.data)
  {
    hide NoStaleRepeat, FiledSoundly;
    var s' := Next(s, a);
    if s'.cache.Some? {
      var c := s'.cache.value;
      if a.Store? {
        assert ThreadOk(s, s.threads[a.thread]);
      }
      FiledFramed(s, s', c.mtime, c.data);
    }
  }

  lemma FiledFramed(s: System, s': System, mtime: int, data: int)
    requires s.versions == s'.versions && FiledSoundly(s, mtime, data)
    ensures FiledSoundly(s', mtime, data)
  {
    var i: nat :| i < |s.versions| && s.versions[i].mtime == mtime && HeldSince(s, i, data);
    assert HeldSince(s', i, data);
  }

  // ---- whole interleavings --------------------------------------------------------------------

  /** The state after a schedule; None if some action was not possible when its turn came. */
  function After(start: System, actions: seq<Action>): Option<System> {
    if actions == [] then Some(start)
    else
      var mid, a := After(start, actions[..|actions| - 1]), actions[|actions| - 1];
      if mid.Some? && mid.value.versions != [] && Enabled(mid.value, a) then Some(Next(mid.value, a)) else None
  }

  /** No thread, and an empty cache. */
  function Fresh(first: Version): System { System([first], None, map[]) }

  /**
   Every value returned so far was the file's contents at some instant between its call and
   its return, and every error raised met unparsable contents at such an instant.
   */
  predicate Linearizable(s: System) {
    && (forall t | t in s.threads && s.threads[t].Returned? ::
          HeldBetween(s.versions, s.threads[t].called, s.threads[t].until, Some(s.threads[t].data)))
    && (forall t | t in s.threads && s.threads[t].Raised? ::
          HeldBetween(s.versions, s.threads[t].called, s.threads[t].until, None))
  }

  predicate HeldBetween(versions: seq<Version>, from: nat, until: nat, data: Option<int>) {
    exists i: nat :: from <= i <= until && i < |versions| && versions[i].data == data
  }

  lemma AfterSnoc(start: System, actions: seq<Action>, s: System, a: Action)
    requires After(start, actions) == Some(s) && s.versions != [] && Enabled(s, a)
    ensures After(start, actions + [a]) == Some(Next(s, a))
  {
    assert (actions + [a])[..|actions|] == actions;
  }

  lemma NextVersions(s: System, a: Action)
    requires s.versions != [] && Enabled(s, a)
    ensures s.versions <= Next(s, a).versions
  {
  }

  lemma PrefixNotStale(versions: seq<Version>, prefix: seq<Version>)
    requires NoStaleRepeat(versions) && prefix <= versions
    ensures NoStaleRepeat(prefix)
  {
    forall i, k, j | 0 <= i <= k <= j < |prefix| && i < j ensures RepeatOk(prefix[i], prefix[k], prefix[j]) {
      assert RepeatOk(versions[i], versions[k], versions[j]);
    }
  }

  lemma {:induction false} AfterKeepsInv(first: Version, actions: seq<Action>, s: System)
    requires After(Fresh(first), actions) == Some(s) && NoStaleRepeat(s.versions)
    ensures Inv(s)
  {
    if actions != [] {
      var init, last := actions[..|actions| - 1], actions[|actions| - 1];
      var mid := After(Fresh(first), init).value;
      NextVersions(mid, last);
      PrefixNotStale(s.versions, mid.versions);
      AfterKeepsInv(first, init, mid);
      NextKeepsInv(mid, last);
    }
  }

  /**
   Sufficiency: after any interleaving of calls, locked sections, reads, rewrites and
   invalidations from an empty cache, if no repeated mtime was stale, all returns linearize.
   */
  lemma ReturnsAreLinearizable(first: Version, actions: seq<Action>, s: System)
    requires After(Fresh(first), actions) == Some(s) && NoStaleRepeat(s.versions)
    ensures Linearizable(s)
  {
    AfterKeepsInv(first, actions, s);
    forall t | t in s.threads ensures ThreadOk(s, s.threads[t]) {}
    hide NoStaleRepeat;
  }

  // ---- and necessity ---------------------------------------------------------------------------

  /** Rewrites the file with the next versions of a list, nothing else happening. */
  lemma {:induction false} InstallUpTo(start: System, actions: seq<Action>, s: System, versions: seq<Version>, n: nat)
    returns (more: seq<Action>)
    requires After(start, actions) == Some(s) && s.versions != [] && s.versions <= versions
    requires |s.versions| <= n <= |versions|
    ensures After(start, more) == Some(s.(versions := versions[..n]))
    decreases n
  {
    hide After;
    if n == |s.versions| {
      assert versions[..n] == s.versions;
      more := actions;
    } else {
      var init := InstallUpTo(start, actions, s, versions, n - 1);
      more := init + [Install(versions[n - 1])];
      InstallOne(start, init, s, versions, n);
    }
  }

  lemma InstallOne(start: System, actions: seq<Action>, s: System, versions: seq<Version>, n: nat)
    requires 1 < n <= |versions| && After(start, actions) == Some(s.(versions := versions[..n - 1]))
    ensures After(start, actions + [Install(versions[n - 1])]) == Some(s.(versions := versions[..n]))
  {
    hide After;
    AfterSnoc(start, actions, s.(versions := versions[..n - 1]), Install(versions[n - 1]));
    assert versions[..n - 1] + [versions[n - 1]] == versions[..n];
  }

  /** The start of a call, undisturbed: a hit returns, anything else is a miss. */
  lemma CallUpToLookUp(start: System, actions: seq<Action>, s: System, t: nat) returns (more: seq<Action>)
    requires After(start, actions) == Some(s) && s.versions != [] && t !in s.threads
    ensures var mtime := s.versions[Now(s)].mtime;
            var hit := Hit(s.cache, mtime);
            After(start, more) == Some(SetThread(s, t, if hit.Some? then Returned(Now(s), Now(s), hit.value)
                                                       else Missed(Now(s), mtime)))
  {
    hide After;
    AfterSnoc(start, actions, s, Call(t));
    var s1 := Next(s, Call(t));
    AfterSnoc(start, actions + [Call(t)], s1, Stat(t));
    var s2 := Next(s1, Stat(t));
    AfterSnoc(start, actions + [Call(t)] + [Stat(t)], s2, LookUp(t));
    more := actions + [Call(t)] + [Stat(t)] + [LookUp(t)];
    SetThrice(s, t, s1.threads[t], s2.threads[t], Next(s2, LookUp(t)).threads[t]);
  }

  lemma SetThrice(s: System, t: nat, a: Thread, b: Thread, c: Thread)
    ensures SetThread(SetThread(SetThread(s, t, a), t, b), t, c) == SetThread(s, t, c)
    ensures SetThread(SetThread(s, t, a), t, b) == SetThread(s, t, b)
  {
    assert s.threads[t := a][t := b] == s.threads[t := b];
    assert s.threads[t := b][t := c] == s.threads[t := c];
  }

  /** The rest of a call that missed, undisturbed: what is readable now is filed and returned. */
  lemma ReadAndStore(start: System, actions: seq<Action>, s: System, t: nat) returns (more: seq<Action>)
    requires After(start, actions) == Some(s) && s.versions != [] && t in s.threads && s.threads[t].Missed?
    requires s.versions[Now(s)].data.Some?
    ensures var th, d := s.threads[t], s.versions[Now(s)].data.value;
            After(start, more) == Some(SetThread(s, t, Returned(th.called, Now(s), d)).(cache := Some(Entry(th.mtime, d))))
  {
    hide After;
    AfterSnoc(start, actions, s, Read(t));
    var s1 := Next(s, Read(t));
    AfterSnoc(start, actions + [Read(t)], s1, Store(t));
    more := actions + [Read(t)] + [Store(t)];
    SetThrice(s, t, s1.threads[t], Next(s1, Store(t)).threads[t], s.threads[t]);
  }

  /** A thread stats version i, finds nothing, and is still there when version k is installed. */
  lemma MissAtI(versions: seq<Version>, i: nat, k: nat) returns (actions: seq<Action>)
    requires i <= k < |versions|
    ensures After(Fresh(versions[0]), actions) == Some(System(versions[..k + 1], None, map[0 := Missed(i, versions[i].mtime)]))
  {
    var start := Fresh(versions[0]);
    assert After(start, []) == Some(start) && versions[..1] == [versions[0]];
    hide After;
    actions := InstallUpTo(start, [], start, versions, i + 1);
    var s0 := start.(versions := versions[..i + 1]);
    actions := CallUpToLookUp(start, actions, s0, 0);
    var s1 := SetThread(s0, 0, Missed(i, versions[i].mtime));
    actions := InstallUpTo(start, actions, s1, versions, k + 1);
  }

  /** It then reads version k, and files k's contents under i's mtime. */
  lemma FillCache(versions: seq<Version>, i: nat, k: nat) returns (actions: seq<Action>)
    requires i <= k < |versions| && versions[k].data.Some?
    ensures After(Fresh(versions[0]), actions) == Some(Filled(versions, i, k))
  {
    hide After;
    actions := MissAtI(versions, i, k);
    var d := versions[k].data.value;
    actions := ReadAndStore(Fresh(versions[0]), actions, System(versions[..k + 1], None, map[0 := Missed(i, versions[i].mtime)]), 0);
    assert map[0 := Missed(i, versions[i].mtime)][0 := Returned(i, k, d)] == map[0 := Returned(i, k, d)];
  }

  function Filled(versions: seq<Version>, i: nat, k: nat): System
    requires i <= k < |versions| && versions[k].data.Some?
  {
    var d := versions[k].data.value;
    System(versions[..k + 1], Some(Entry(versions[i].mtime, d)), map[0 := Returned(i, k, d)])
  }

  /** Another thread begins its call at version j, sees the same mtime, and is given k's contents. */
  lemma StaleHit(versions: seq<Version>, i: nat, k: nat, j: nat) returns (actions: seq<Action>, s: System)
    requires i <= k <= j < |versions| && versions[k].data.Some? && versions[i].mtime == versions[j].mtime
    ensures After(Fresh(versions[0]), actions) == Some(s) && s.versions == versions
    ensures 1 in s.threads && s.threads[1] == Returned(j, j, versions[k].data.value)
  {
    hide After;
    var start := Fresh(versions[0]);
    actions := FillCache(versions, i, k);
    var filled := Filled(versions, i, k);
    actions := InstallUpTo(start, actions, filled, versions, j + 1);
    var s0 := filled.(versions := versions[..j + 1]);
    actions := CallUpToLookUp(start, actions, s0, 1);
    s := SetThread(s0, 1, Returned(j, j, versions[k].data.value));
    actions := InstallUpTo(start, actions, s, versions, |versions|);
    s := s.(versions := versions[..|versions|]);
  }

  /**
   The exact condition.  For every history of the file: all schedules that install it linearize
   if and only if no repeated mtime is stale.  When one is, a schedule from an empty cache
   returns overwritten contents to a call made after they were gone.
   */
  lemma LinearizableExactly(versions: seq<Version>)
    requires versions != []
    ensures NoStaleRepeat(versions) <==>
              forall actions ::
                var s := After(Fresh(versions[0]), actions);
                s.Some? && s.value.versions == versions ==> Linearizable(s.value)
  {
    if NoStaleRepeat(versions) {
      forall actions
        ensures var s := After(Fresh(versions[0]), actions);
                s.Some? && s.value.versions == versions ==> Linearizable(s.value)
      {
        var s := After(Fresh(versions[0]), actions);
        if s.Some? && s.value.versions == versions {
          ReturnsAreLinearizable(versions[0], actions, s.value);
        }
      }
    } else {
      var i, k, j :| 0 <= i <= k <= j < |versions| && i < j && !RepeatOk(versions[i], versions[k], versions[j]);
      var actions, s := StaleHit(versions, i, k, j);
      StaleIsNotLinearizable(s, j);
      assert After(Fresh(versions[0]), actions) == Some(s);
    }
  }

  lemma StaleIsNotLinearizable(s: System, j: nat)
    requires 1 in s.threads && s.threads[1].Returned? && j < |s.versions|
    requires s.threads[1].called == j == s.threads[1].until && s.versions[j].data != Some(s.threads[1].data)
    ensures !Linearizable(s)
  {
  }

  /** The smallest stale history: one rewrite within the resolution of the mtime. */
  lemma RepeatedMtimeReturnsStaleData(mtime: int, before: int, now: int)
    requires before != now
    ensures exists actions, s ::
              && After(Fresh(Version(mtime, Some(before))), actions) == Some(s)
              && s.versions == [Version(mtime, Some(before)), Version(mtime, Some(now))]
              && 1 in s.threads && s.threads[1] == Returned(1, 1, before) && !Linearizable(s)
  {
    var versions := [Version(mtime, Some(before)), Version(mtime, Some(now))];
    var actions, s := StaleHit(versions, 0, 0, 1);
    StaleIsNotLinearizable(s, 1);
    assert After(Fresh(versions[0]), actions) == Some(s);
  }

  // ---- what invalidation is good for ------------------------------------------------------------------

  /** Nothing happens but rewrites, invalidations, and the steps of one call of thread t. */
  predicate Alone(actions: seq<Action>, t: nat) {
    forall a <- actions :: a.Install? || a.Invalidate? || a in {Stat(t), LookUp(t), Read(t), Store(t)}
  }

  /** The call reads for itself: the cache is empty until it has the data, and the data was there since the call. */
  predicate ReadsItself(s: System, t: nat) {
    && s.versions != [] && t in s.threads
    && match s.threads[t]
       case Called(from) => from <= Now(s) && s.cache.None?
       case Statted(from, _) => from <= Now(s) && s.cache.None?
       case Missed(from, _) => from <= Now(s)
       case Parsed(from, _, d) => HeldBetween(s.versions, from, Now(s), Some(d))
       case Returned(from, until, d) => HeldBetween(s.versions, from, until, Some(d))
       case Raised(from, until) => HeldBetween(s.versions, from, until, None)
  }

  lemma HeldLonger(versions: seq<Version>, v: Version, from: nat, until: nat, data: Option<int>)
    requires HeldBetween(versions, from, until, data)
    ensures HeldBetween(versions + [v], from, until, data) && HeldBetween(versions + [v], from, until + 1, data)
  {
    var i: nat :| from <= i <= until && i < |versions| && versions[i].data == data;
    assert (versions + [v])[i] == versions[i];
  }

  lemma NextReadsItself(s: System, a: Action, t: nat)
    requires ReadsItself(s, t) && Enabled(s, a)
    requires a.Install? || a.Invalidate? || a in {Stat(t), LookUp(t), Read(t), Store(t)}
    ensures ReadsItself(Next(s, a), t)
  {
    match a
    case Install(v) =>
      match s.threads[t] {
        case Parsed(from, _, d) => HeldLonger(s.versions, v, from, Now(s), Some(d));
        case Returned(from, until, d) => HeldLonger(s.versions, v, from, until, Some(d));
        case Raised(from, until) => HeldLonger(s.versions, v, from, until, None);
        case _ =>
      }
    case Read(t) => assert s.versions[Now(s)].data == s.versions[|s.versions| - 1].data;
    case _ =>
  }

  /**
   After an invalidation a call that no other thread interferes with returns contents the file had
   between call and return, and raises only on contents that did not parse, for every history of
   the file, stale repeats included.
   */
  lemma {:induction false} InvalidationForcesARead(s: System, t: nat, actions: seq<Action>)
    requires s.versions != [] && Enabled(s, Call(t)) && Alone(actions, t)
    ensures var later := After(Next(Next(s, Invalidate), Call(t)), actions);
            later.Some? ==> ReadsItself(later.value, t)
  {
    if actions != [] {
      var init, a := actions[..|actions| - 1], actions[|actions| - 1];
      assert actions == init + [a];
      InvalidationForcesARead(s, t, init);
      var mid := After(Next(Next(s, Invalidate), Call(t)), init);
      hide Next, ReadsItself, Enabled;
      if mid.Some? && mid.value.versions != [] && Enabled(mid.value, a) {
        NextReadsItself(mid.value, a, t);
      }
    }
  }


  // ---- the in-process cache object ------------------------------------------------------------

  /** The module-level dictionary, path to (mtime, parsed data), and its three locked blocks. */
  class Cache {
    var entries: map<string, Entry>

    constructor ()
      ensures entries == map[]
    {
      entries := map[];
    }

    function Get(path: string): Option<Entry>
      reads this
    {
      if path in entries then Some(entries[path]) else None
    }

    method LookUpEntry(path: string, mtime: int) returns (hit: Option<int>)
      ensures hit == Hit(Get(path), mtime)
    {
      if path in entries && entries[path].mtime == mtime {
        return Some(entries[path].data);
      }
      return None;
    }

    method StoreEntry(path: string, mtime: int, data: int)
      modifies this
      ensures Get(path) == Some(Entry(mtime, data))
      ensures forall p :: p != path ==> Get(p) == old(Get(p))
    {
      entries := entries[path := Entry(mtime, data)];
    }

    /** Drops one path, or every path. */
    method InvalidateEntries(path: Option<string>)
      modifies this
      ensures forall p :: Get(p) == if path == None || path == Some(p) then None else old(Get(p))
    {
      entries := if path.None? then map[] else entries - {path.value};
    }
  }
}
