/**
 Overlapping sessions on one row.  Every operation reads the row, decides and posts on what it
 read, and then writes back only the columns it changed; nothing is compared again at the
 commit.  Without overlap this is Lifecycle's atomic step; with overlap the version check and
 the approval gate can both be passed twice.
 */
module ApprovalRace {
  import opened Core
  import opened Rounding
  import opened Allocation
  import opened Evaluator
  import opened LineItem
  import opened Lifecycle

  /** A session loads the row, and later decides, posts and commits. */
  datatype Move = Load(who: nat) | Finish(who: nat, event: Event)

  /** The committed row, what each open session loaded, the passed gates and everything posted. */
  datatype Desk = Desk(row: Row, loaded: map<nat, Row>, gates: nat, posts: seq<Reference>)

  /** The committed row after a session writes the columns in which `after` differs from what it loaded. */
  function Flush(row: Row, before: Row, after: Row): Row {
    row.(currency := if after.currency == before.currency then row.currency else after.currency,
         rule := if after.rule == before.rule then row.rule else after.rule,
         matched := if after.matched == before.matched then row.matched else after.matched,
         state := if after.state == before.state then row.state else after.state,
         hitl := if after.hitl == before.hitl then row.hitl else after.hitl,
         manuallyMapped := if after.manuallyMapped == before.manuallyMapped then row.manuallyMapped else after.manuallyMapped,
         receipt := if after.receipt == before.receipt then row.receipt else after.receipt,
         reference := if after.reference == before.reference then row.reference else after.reference,
         version := if after.version == before.version then row.version else after.version)
  }

  function Next(rnd: Rounding, desk: Desk, move: Move): Desk {
    match move
    case Load(who) => desk.(loaded := desk.loaded[who := desk.row])
    case Finish(who, e) =>
      if who !in desk.loaded then desk
      else
        var effect := Step(rnd, desk.loaded[who], e);
        Desk(Flush(desk.row, desk.loaded[who], effect.row), desk.loaded - {who},
             desk.gates + (if effect.gated then 1 else 0), desk.posts + effect.posted)
  }

  function Run(rnd: Rounding, start: Row, moves: seq<Move>): Desk {
    if moves == [] then Desk(start, map[], 0, [])
    else Next(rnd, Run(rnd, start, moves[..|moves| - 1]), moves[|moves| - 1])
  }

  /** The move commits a session whose approval passes the gate. */
  predicate Passes(rnd: Rounding, desk: Desk, move: Move) {
    move.Finish? && move.who in desk.loaded && Step(rnd, desk.loaded[move.who], move.event).gated
  }

  /** The open sessions that loaded the row before any approval had been committed. */
  function Early(rnd: Rounding, start: Row, moves: seq<Move>): set<nat> {
    if moves == [] then {}
    else
      var init, move := moves[..|moves| - 1], moves[|moves| - 1];
      var before := Early(rnd, start, init);
      if move.Load? && Run(rnd, start, init).gates == 0 then before + {move.who} else before - {move.who}
  }

  // ---- without overlap ----------------------------------------------------------------------

  /** Every session commits before the row it loaded has changed. */
  predicate Serial(rnd: Rounding, start: Row, moves: seq<Move>) {
    moves == []
    || (var init, move := moves[..|moves| - 1], moves[|moves| - 1];
        var desk := Run(rnd, start, init);
        Serial(rnd, start, init)
        && (move.Finish? && move.who in desk.loaded ==> desk.loaded[move.who] == desk.row))
  }

  /** The events of the sessions that commit. */
  function Events(rnd: Rounding, start: Row, moves: seq<Move>): seq<Event> {
    if moves == [] then []
    else
      var init, move := moves[..|moves| - 1], moves[|moves| - 1];
      var before := Events(rnd, start, init);
      if move.Finish? && move.who in Run(rnd, start, init).loaded then before + [move.event] else before
  }

  lemma StepKeepsConstants(rnd: Rounding, row: Row, e: Event)
    ensures var after := Step(rnd, row, e).row;
            Flush(row, row, after) == after
  {
    hide MapInvoices, RecheckedRow, Confirm;
    match e
    case RecheckEvent(aging, remittance, ouMismatch) => RecheckKeeps(rnd, row, aging, remittance, ouMismatch);
    case ConfirmEvent(aging, numbers) => ConfirmKeeps(rnd, row, aging, numbers);
    case ApproveEvent(breakup, expected, oracle) => MapInvoicesSets(row.(hitl := Some(Approved)), breakup, oracle);
    case RetryEvent(oracle) => MapInvoicesSets(row, MatchedReferences(row.matched), oracle);
    case _ =>
  }

  /** A schedule without lost updates is a life: the same row, gates and postings as its events one by one. */
  lemma {:induction false} SerialSchedulesAreLives(rnd: Rounding, start: Row, moves: seq<Move>)
    requires Serial(rnd, start, moves)
    ensures var desk := Run(rnd, start, moves);
            Live(rnd, start, Events(rnd, start, moves)) == Life(desk.row, desk.gates, desk.posts)
  {
    if moves != [] {
      var init, move := moves[..|moves| - 1], moves[|moves| - 1];
      SerialSchedulesAreLives(rnd, start, init);
      var desk, before := Run(rnd, start, init), Events(rnd, start, init);
      if move.Finish? && move.who in desk.loaded {
        var events := before + [move.event];
        assert events[..|events| - 1] == before;
        StepKeepsConstants(rnd, desk.row, move.event);
        hide Step, Flush;
      }
    }
  }

  // ---- with overlap ---------------------------------------------------------------------------

  lemma GatedMeaning(rnd: Rounding, row: Row, e: Event)
    ensures var effect := Step(rnd, row, e);
            effect.gated ==> row.reference.None? && effect.row.reference.Some?
  {
    hide MapInvoices, RecheckedRow, Confirm, CategoryOf;
    if e.ApproveEvent? {
      GateMeaning(row);
      MapInvoicesSets(row.(hitl := Some(Approved)), e.breakup, e.approveOracle);
    }
  }

  /** Once an approval is committed the row keeps an outcome, and so does what later sessions load. */
  ghost predicate Settled(desk: Desk, early: set<nat>) {
    && (desk.gates > 0 ==> desk.row.reference.Some?)
    && forall who <- desk.loaded :: who in early || desk.loaded[who].reference.Some?
  }

  lemma {:induction false} ScheduleSettled(rnd: Rounding, start: Row, moves: seq<Move>)
    ensures Settled(Run(rnd, start, moves), Early(rnd, start, moves))
  {
    if moves != [] {
      var init, move := moves[..|moves| - 1], moves[|moves| - 1];
      ScheduleSettled(rnd, start, init);
      var desk := Run(rnd, start, init);
      if move.Finish? && move.who in desk.loaded {
        GatedMeaning(rnd, desk.loaded[move.who], move.event);
        StepKeepsOutcome(rnd, desk.loaded[move.who], move.event);
      }
      hide Step;
    }
  }

  /**
   Over every schedule of every operation: an approval passes the gate only in a session that
   loaded the row before the first passed approval was committed.  Two approvals that both
   pass therefore overlap.
   */
  lemma ApprovalsPassOnlyEarly(rnd: Rounding, start: Row, moves: seq<Move>, move: Move)
    requires Passes(rnd, Run(rnd, start, moves), move)
    ensures move.who in Early(rnd, start, moves)
  {
    ScheduleSettled(rnd, start, moves);
    GatedMeaning(rnd, Run(rnd, start, moves).loaded[move.who], move.event);
    hide Step, Run, Early;
  }

  predicate ApprovalsOnly(moves: seq<Move>) {
    forall m <- moves :: m.Load? || m.event.ApproveEvent?
  }

  /** Before the first passed approval the row is untouched, and early sessions hold it as it was. */
  ghost predicate Pristine(start: Row, desk: Desk, early: set<nat>) {
    && (desk.gates == 0 ==> desk.row == start)
    && forall who <- early :: who in desk.loaded && desk.loaded[who] == start
  }

  lemma {:induction false} SchedulePristine(rnd: Rounding, start: Row, moves: seq<Move>)
    requires ApprovalsOnly(moves)
    ensures Pristine(start, Run(rnd, start, moves), Early(rnd, start, moves))
  {
    if moves != [] {
      var init, move := moves[..|moves| - 1], moves[|moves| - 1];
      SchedulePristine(rnd, start, init);
      hide MapInvoices, CategoryOf;
    }
  }

  /**
   Over every schedule of loads and approvals of a ready row, an approval passes the gate if
   and only if its session loaded the row before the first passed one was committed and its
   author saw the version the row had: what a second commit does to the version changes nothing.
   */
  lemma ApprovalsPassExactly(rnd: Rounding, start: Row, moves: seq<Move>, move: Move)
    requires ApprovalsOnly(moves + [move]) && move.Finish?
    requires CategoryOf(start) == GroupReadyForOracle
    ensures Passes(rnd, Run(rnd, start, moves), move)
            <==> move.who in Early(rnd, start, moves) && VersionAccepted(start, move.event.approveExpected)
  {
    assert (moves + [move])[|moves|] == move;
    assert forall m <- moves :: m in moves + [move];
    SchedulePristine(rnd, start, moves);
    if Passes(rnd, Run(rnd, start, moves), move) {
      ApprovalsPassOnlyEarly(rnd, start, moves, move);
    }
    hide Run, Early, CategoryOf, MapInvoices;
  }

  lemma RunAppend(rnd: Rounding, row: Row, moves: seq<Move>, move: Move)
    ensures Run(rnd, row, moves + [move]) == Next(rnd, Run(rnd, row, moves), move)
  {
    hide Next;
    assert (moves + [move])[..|moves|] == moves;
  }

  /** Two sessions load the same row and then commit in turn. */
  function BothLoad(first: Event, second: Event): seq<Move> {
    [Load(0), Load(1)] + [Finish(0, first)] + [Finish(1, second)]
  }

  lemma LoadTwice(rnd: Rounding, row: Row)
    ensures Run(rnd, row, [Load(0), Load(1)]) == Desk(row, map[0 := row, 1 := row], 0, [])
  {
    assert [Load(0)][..0] == [] && [Load(0), Load(1)][..1] == [Load(0)];
    assert Run(rnd, row, []) == Desk(row, map[], 0, []);
    assert Run(rnd, row, [Load(0)]) == Desk(row, map[0 := row], 0, []);
  }

  lemma BothLoadRun(rnd: Rounding, row: Row, first: Event, second: Event)
    ensures var desk := Run(rnd, row, BothLoad(first, second));
            var one, two := Step(rnd, row, first), Step(rnd, row, second);
            && desk.row == Flush(Flush(row, row, one.row), row, two.row)
            && desk.gates == (if one.gated then 1 else 0) + (if two.gated then 1 else 0)
            && desk.posts == one.posted + two.posted
  {
    hide Step, Flush, Run;
    LoadTwice(rnd, row);
    RunAppend(rnd, row, [Load(0), Load(1)], Finish(0, first));
    RunAppend(rnd, row, [Load(0), Load(1)] + [Finish(0, first)], Finish(1, second));
    var one := Run(rnd, row, [Load(0), Load(1)] + [Finish(0, first)]);
    assert 0 in map[0 := row, 1 := row] && 1 in one.loaded && one.loaded[1] == row;
    assert [] + Step(rnd, row, first).posted == Step(rnd, row, first).posted;
  }

  lemma ReadyApproval(row: Row, version: Option<nat>, oracle: Oracle)
    requires CategoryOf(row) == GroupReadyForOracle && row.matched != []
    requires VersionAccepted(row, version) && oracle.receiptOk
    ensures var effect := Approve(row, [], version, oracle);
            && effect.gated && effect.posted == MatchedReferences(row.matched) != []
            && effect.row == row.(hitl := Some(Approved), receipt := Some(Success),
                                  reference := effect.row.reference, state := AfterMapping(effect.row),
                                  version := row.version + 1)
            && (oracle.refused == {} ==> effect.row.reference == Some(Success))
            && (0 in oracle.refused ==> effect.row.reference == Some(Failed))
  {
    hide CategoryOf;
    assert 0 in oracle.refused ==> !AllAccepted(MatchedReferences(row.matched), oracle.refused);
  }

  /**
   Two people approve any ready row, both with its current version, and the second loads it
   before the first commits: both pass, every reference is posted twice, and the version moves by one.
   With the first accepted and the second refused by Oracle, success is overwritten by failure.
   */
  lemma OverlappingApprovalsPostTwice(rnd: Rounding, row: Row, second: Oracle)
    requires CategoryOf(row) == GroupReadyForOracle && row.matched != [] && second.receiptOk
    ensures var seen := Some(row.version);
            var desk := Run(rnd, row, BothLoad(ApproveEvent([], seen, Oracle(true, {})), ApproveEvent([], seen, second)));
            && desk.gates == 2
            && desk.posts == MatchedReferences(row.matched) + MatchedReferences(row.matched)
            && desk.row.version == row.version + 1
            && (0 in second.refused ==> desk.row.reference == Some(Failed))
  {
    hide Run, CategoryOf, Approve, MatchedReferences;
    var seen := Some(row.version);
    BothLoadRun(rnd, row, ApproveEvent([], seen, Oracle(true, {})), ApproveEvent([], seen, second));
    hide BothLoad;
    ReadyApproval(row, seen, Oracle(true, {}));
    ReadyApproval(row, seen, second);
    GateMeaning(row);
  }

  /**
   An overlapping rejection goes unnoticed as well, and the columns of both sessions survive: the
   row is rejected, its references are posted, and it counts as processed.
   */
  lemma OverlappingRejectionKeepsThePosting(rnd: Rounding, row: Row)
    requires CategoryOf(row) == GroupReadyForOracle && row.matched != [] && row.state == ReviewApprove
    ensures var seen := Some(row.version);
            var desk := Run(rnd, row, BothLoad(ApproveEvent([], seen, Oracle(true, {})), RejectEvent(seen)));
            && desk.row == row.(hitl := Some(Rejected), receipt := Some(Success), reference := Some(Success),
                                state := RejectedRow, version := row.version + 1)
            && desk.posts == MatchedReferences(row.matched) && CategoryOf(desk.row) == GroupProcessed
  {
    hide Run, Approve, MatchedReferences;
    var seen := Some(row.version);
    BothLoadRun(rnd, row, ApproveEvent([], seen, Oracle(true, {})), RejectEvent(seen));
    hide BothLoad;
    ReadyApproval(row, seen, Oracle(true, {}));
    GateMeaning(row);
    assert MatchedReferences(row.matched) + [] == MatchedReferences(row.matched);
  }
}
