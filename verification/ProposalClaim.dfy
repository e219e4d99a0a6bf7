/**
  The autorun tick as a transaction of separate steps, interleaved freely with
  other ticks, cancels, workers and new proposals. `rows` is the committed
  state, which every statement reads; a tick's own update stays invisible and
  holds the row until it commits. `key` maps a repository to its advisory lock.
 */
module ProposalClaim {
  datatype TaskStatus = Pending | Queued | Running | Cancelled | Finished

  datatype Row = Row(repo: string, proposal: bool, status: TaskStatus, createdAt: int)

  datatype Phase = Locked | Counted | Selected(id: string) | Updated(id: string)

  datatype Tick = Tick(repo: string, phase: Phase)

  datatype Db = Db(rows: map<string, Row>, ticks: map<nat, Tick>)

  datatype Step =
    | Lock(tick: nat, repo: string)
    | CountActive(tick: nat)
    | Select(tick: nat, id: string)
    | Update(tick: nat)
    | Commit(tick: nat)
    | Abort(tick: nat)
    | Cancel(id: string)
    | StartRun(id: string)
    | Finish(id: string)
    | NewTask(id: string, row: Row)

  predicate IsActive(row: Row) {
    row.proposal && (row.status == Queued || row.status == Running)
  }

  predicate HasActiveProposal(db: Db, repo: string) {
    exists id | id in db.rows :: db.rows[id].repo == repo && IsActive(db.rows[id])
  }

  predicate IsPendingOf(row: Row, repo: string) {
    row.repo == repo && row.proposal && row.status == Pending
  }

  predicate HasPending(db: Db, repo: string) {
    exists id | id in db.rows :: IsPendingOf(db.rows[id], repo)
  }

  /** A row that `findFirst` ordered by creation time may return. */
  predicate IsOldestPending(db: Db, repo: string, id: string) {
    && id in db.rows && IsPendingOf(db.rows[id], repo)
    && forall other | other in db.rows && IsPendingOf(db.rows[other], repo) ::
         db.rows[id].createdAt <= db.rows[other].createdAt
  }

  /** An uncommitted update keeps other writers off its row. */
  predicate RowFree(db: Db, id: string) {
    forall t | t in db.ticks :: db.ticks[t].phase != Updated(id)
  }

  predicate InPhase(db: Db, t: nat, phase: Phase) {
    t in db.ticks && db.ticks[t].phase == phase
  }

  predicate LockFree(db: Db, key: string -> int, repo: string) {
    forall t | t in db.ticks :: key(db.ticks[t].repo) != key(repo)
  }

  predicate Enabled(db: Db, key: string -> int, step: Step) {
    match step
    case Lock(t, repo) => t !in db.ticks && LockFree(db, key, repo)
    case CountActive(t) => InPhase(db, t, Locked)
    case Select(t, id) =>
      InPhase(db, t, Counted) && (HasPending(db, db.ticks[t].repo) ==> IsOldestPending(db, db.ticks[t].repo, id))
    case Update(t) => t in db.ticks && db.ticks[t].phase.Selected?
    case Commit(t) => t in db.ticks && db.ticks[t].phase.Updated?
    case Abort(t) => t in db.ticks
    case Cancel(id) => id in db.rows && RowFree(db, id) && db.rows[id].status != Finished
    case StartRun(id) => id in db.rows && RowFree(db, id) && db.rows[id].status == Queued
    case Finish(id) => id in db.rows && RowFree(db, id) && db.rows[id].status == Running
    case NewTask(id, row) => id !in db.rows && (row.proposal ==> row.status == Pending)
  }

  function End(db: Db, t: nat): Db {
    db.(ticks := db.ticks - {t})
  }

  function Move(db: Db, t: nat, phase: Phase): Db
    requires t in db.ticks
  {
    db.(ticks := db.ticks[t := db.ticks[t].(phase := phase)])
  }

  function SetStatus(db: Db, id: string, status: TaskStatus): Db {
    if id in db.rows then db.(rows := db.rows[id := db.rows[id].(status := status)]) else db
  }

  /** One step; a tick with nothing (safe) to claim ends without a write. */
  function Perform(db: Db, step: Step): Db {
    match step
    case Lock(t, repo) => db.(ticks := db.ticks[t := Tick(repo, Locked)])
    case CountActive(t) =>
      if t !in db.ticks then db
      else if HasActiveProposal(db, db.ticks[t].repo) then End(db, t)
      else Move(db, t, Counted)
    case Select(t, id) =>
      if t !in db.ticks then db
      else if HasPending(db, db.ticks[t].repo) then Move(db, t, Selected(id))
      else End(db, t)
    case Update(t) =>
      if t !in db.ticks || !db.ticks[t].phase.Selected? then db
      else
        var id := db.ticks[t].phase.id;
        if id in db.rows && db.rows[id].status == Pending then Move(db, t, Updated(id)) else End(db, t)
    case Commit(t) =>
      if t !in db.ticks || !db.ticks[t].phase.Updated? then db
      else End(SetStatus(db, db.ticks[t].phase.id, Queued), t)
    case Abort(t) => End(db, t)
    case Cancel(id) => SetStatus(db, id, Cancelled)
    case StartRun(id) => SetStatus(db, id, Running)
    case Finish(id) => SetStatus(db, id, Finished)
    case NewTask(id, row) => db.(rows := db.rows[id := row])
  }

  /** A run; a step that is not enabled is skipped. */
  function Run(db: Db, key: string -> int, steps: seq<Step>): Db
    decreases |steps|
  {
    if steps == [] then db
    else Run(if Enabled(db, key, steps[0]) then Perform(db, steps[0]) else db, key, steps[1..])
  }

  // ---------------------------------------------------------------- invariant

  /** No two rows of one repository are queued or running proposals. */
  ghost predicate OneActive(db: Db) {
    forall id, other :: ActiveIn(db, id) && ActiveIn(db, other) && db.rows[id].repo == db.rows[other].repo ==>
      id == other
  }

  predicate ActiveIn(db: Db, id: string) {
    id in db.rows && IsActive(db.rows[id])
  }

  ghost predicate LocksHeld(db: Db, key: string -> int) {
    forall t, u :: t in db.ticks && u in db.ticks && t != u ==> key(db.ticks[t].repo) != key(db.ticks[u].repo)
  }

  /** What a tick knows in each phase. */
  ghost predicate TickOk(db: Db, tick: Tick) {
    && (tick.phase != Locked ==> !HasActiveProposal(db, tick.repo))
    && (tick.phase.Selected? || tick.phase.Updated? ==>
          var id := tick.phase.id; id in db.rows && db.rows[id].repo == tick.repo && db.rows[id].proposal)
    && (tick.phase.Updated? ==> db.rows[tick.phase.id].status == Pending)
  }

  ghost predicate TicksOk(db: Db) {
    forall t :: t in db.ticks ==> TickOk(db, db.ticks[t])
  }

  ghost predicate Inv(db: Db, key: string -> int) {
    OneActive(db) && LocksHeld(db, key) && TicksOk(db)
  }

  /** A write to one row that makes no inactive row active and spares rows under update. */
  lemma RowWriteKeeps(db: Db, key: string -> int, id: string, status: TaskStatus)
    requires Inv(db, key) && id in db.rows && RowFree(db, id)
    requires IsActive(db.rows[id].(status := status)) ==> IsActive(db.rows[id])
    ensures Inv(SetStatus(db, id, status), key)
  {
    var r := SetStatus(db, id, status);
    assert forall i :: i in r.rows && IsActive(r.rows[i]) ==>
      IsActive(db.rows[i]) && r.rows[i].repo == db.rows[i].repo;
    forall t | t in r.ticks
      ensures TickOk(r, r.ticks[t])
    {
      assert TickOk(db, db.ticks[t]);
    }
  }

  lemma NewTaskKeeps(db: Db, key: string -> int, id: string, row: Row)
    requires Inv(db, key) && id !in db.rows && !IsActive(row)
    ensures Inv(db.(rows := db.rows[id := row]), key)
  {
  }

  lemma MoveKeeps(db: Db, key: string -> int, t: nat, phase: Phase)
    requires Inv(db, key) && t in db.ticks && TickOk(db, Tick(db.ticks[t].repo, phase))
    ensures Inv(Move(db, t, phase), key)
  {
  }

  lemma EndKeeps(db: Db, key: string -> int, t: nat)
    requires Inv(db, key)
    ensures Inv(End(db, t), key)
  {
  }

  /** The commit is where a proposal becomes active: its repository had none, and no other tick works there. */
  lemma CommitKeeps(db: Db, key: string -> int, t: nat)
    requires Inv(db, key) && t in db.ticks && db.ticks[t].phase.Updated?
    ensures Inv(Perform(db, Commit(t)), key)
  {
  }

  lemma StepKeeps(db: Db, key: string -> int, step: Step)
    requires Inv(db, key) && Enabled(db, key, step)
    ensures Inv(Perform(db, step), key)
  {
    match step
    case Lock(t, repo) =>
      var r := Perform(db, step);
      forall u | u in r.ticks
        ensures TickOk(r, r.ticks[u])
      {
        assert u != t ==> TickOk(db, db.ticks[u]);
      }
    case CountActive(t) =>
      if HasActiveProposal(db, db.ticks[t].repo) { EndKeeps(db, key, t); } else { MoveKeeps(db, key, t, Counted); }
    case Select(t, id) =>
      assert TickOk(db, db.ticks[t]);
      if HasPending(db, db.ticks[t].repo) { MoveKeeps(db, key, t, Selected(id)); } else { EndKeeps(db, key, t); }
    case Update(t) =>
      var id := db.ticks[t].phase.id;
      assert TickOk(db, db.ticks[t]);
      if db.rows[id].status == Pending { MoveKeeps(db, key, t, Updated(id)); } else { EndKeeps(db, key, t); }
    case Commit(t) => CommitKeeps(db, key, t);
    case Abort(t) => EndKeeps(db, key, t);
    case Cancel(id) => RowWriteKeeps(db, key, id, Cancelled);
    case StartRun(id) => RowWriteKeeps(db, key, id, Running);
    case Finish(id) => RowWriteKeeps(db, key, id, Finished);
    case NewTask(id, row) => NewTaskKeeps(db, key, id, row);
  }

  // -------------------------------------------------------------- main results

  lemma {:induction false} RunKeeps(db: Db, key: string -> int, steps: seq<Step>)
    requires Inv(db, key)
    ensures Inv(Run(db, key, steps), key)
    decreases |steps|
  {
    if steps != [] {
      if Enabled(db, key, steps[0]) {
        StepKeeps(db, key, steps[0]);
        RunKeeps(Perform(db, steps[0]), key, steps[1..]);
      } else {
        RunKeeps(db, key, steps[1..]);
      }
    }
  }

  /** Two proposals of one repository that are both queued or running are the same row. */
  ghost predicate OneQueuedOrRunning(db: Db) {
    forall id, other ::
      && id in db.rows && other in db.rows && db.rows[id].repo == db.rows[other].repo
      && db.rows[id].proposal && (db.rows[id].status == Queued || db.rows[id].status == Running)
      && db.rows[other].proposal && (db.rows[other].status == Queued || db.rows[other].status == Running)
      ==> id == other
  }

  lemma OneActiveMeans(db: Db)
    ensures OneActive(db) <==> OneQueuedOrRunning(db)
  {
    if OneQueuedOrRunning(db) {
      forall id, other | ActiveIn(db, id) && ActiveIn(db, other) && db.rows[id].repo == db.rows[other].repo
        ensures id == other
      {
      }
    }
    if OneActive(db) {
      forall id, other |
        && id in db.rows && other in db.rows && db.rows[id].repo == db.rows[other].repo
        && db.rows[id].proposal && (db.rows[id].status == Queued || db.rows[id].status == Running)
        && db.rows[other].proposal && (db.rows[other].status == Queued || db.rows[other].status == Running)
        ensures id == other
      {
        assert ActiveIn(db, id) && ActiveIn(db, other);
      }
    }
  }

  /** Under every interleaving, a repository has at most one queued or running proposal. */
  lemma OneActiveProposalPerRepo(db: Db, key: string -> int, steps: seq<Step>)
    requires db.ticks == map[] && OneQueuedOrRunning(db)
    ensures OneQueuedOrRunning(Run(db, key, steps))
  {
    OneActiveMeans(db);
    RunKeeps(db, key, steps);
    OneActiveMeans(Run(db, key, steps));
  }

  /** It stays true when the claims that are written but not committed yet are counted too. */
  lemma PendingCommitsCountToo(db: Db, key: string -> int, id: string, other: string)
    requires Inv(db, key) && id in db.rows && other in db.rows && db.rows[id].repo == db.rows[other].repo
    requires (db.rows[id].proposal && db.rows[id].status in {Queued, Running}) || !RowFree(db, id)
    requires (db.rows[other].proposal && db.rows[other].status in {Queued, Running}) || !RowFree(db, other)
    ensures id == other
  {
  }

  /** Only a pending row ever becomes queued, whatever happened between a tick's select and its commit. */
  lemma OnlyPendingIsQueued(db: Db, key: string -> int, step: Step, id: string)
    requires Inv(db, key) && Enabled(db, key, step) && id in db.rows
    ensures id in Perform(db, step).rows
    ensures Perform(db, step).rows[id].status == Queued && db.rows[id].status != Queued ==>
      db.rows[id].status == Pending
    ensures db.rows[id].status == Cancelled ==> Perform(db, step).rows[id].status == Cancelled
  {
  }

  /** A cancelled task stays cancelled over every run. */
  lemma {:induction false} CancelledStaysCancelled(db: Db, key: string -> int, steps: seq<Step>, id: string)
    requires Inv(db, key) && id in db.rows && db.rows[id].status == Cancelled
    ensures id in Run(db, key, steps).rows && Run(db, key, steps).rows[id].status == Cancelled
    decreases |steps|
  {
    if steps != [] {
      if Enabled(db, key, steps[0]) {
        StepKeeps(db, key, steps[0]);
        OnlyPendingIsQueued(db, key, steps[0], id);
        CancelledStaysCancelled(Perform(db, steps[0]), key, steps[1..], id);
      } else {
        CancelledStaysCancelled(db, key, steps[1..], id);
      }
    }
  }

  /** A cancel between select and update wins: the tick ends and nothing is queued. */
  lemma CancelBeatsClaim(db: Db, key: string -> int, t: nat, id: string)
    requires InPhase(db, t, Selected(id)) && Enabled(db, key, Cancel(id))
    ensures Perform(Perform(db, Cancel(id)), Update(t)) == End(Perform(db, Cancel(id)), t)
  {
  }

  lemma ClaimIs(db: Db, t: nat, id: string)
    requires InPhase(db, t, Counted) && id in db.rows && IsPendingOf(db.rows[id], db.ticks[t].repo)
    ensures Perform(Perform(Perform(db, Select(t, id)), Update(t)), Commit(t)) == End(SetStatus(db, id, Queued), t)
  {
    assert HasPending(db, db.ticks[t].repo);
    var d1 := Perform(db, Select(t, id));
    assert d1 == Move(db, t, Selected(id));
    var d2 := Perform(d1, Update(t));
    assert d2 == Move(d1, t, Updated(id));
  }

  /** The count lets a tick go on exactly when the repository has no proposal queued or running. */
  lemma CountExact(db: Db, t: nat)
    requires InPhase(db, t, Locked)
    ensures var after := Perform(db, CountActive(t));
      && after.rows == db.rows
      && (if exists id :: id in db.rows && db.rows[id].repo == db.ticks[t].repo && db.rows[id].proposal
                          && (db.rows[id].status == Queued || db.rows[id].status == Running)
          then after.ticks == db.ticks - {t}
          else after.ticks == db.ticks[t := Tick(db.ticks[t].repo, Counted)])
  {
    if id :| id in db.rows && db.rows[id].repo == db.ticks[t].repo && db.rows[id].proposal
             && (db.rows[id].status == Queued || db.rows[id].status == Running) {
      assert HasActiveProposal(db, db.ticks[t].repo);
    }
  }

  /**
    From a passed count on, an undisturbed tick that may select `id` queues it and
    changes nothing else: a pending proposal of the repository, none of which is older.
   */
  lemma ClaimQueues(db: Db, key: string -> int, t: nat, id: string)
    requires InPhase(db, t, Counted) && Enabled(db, key, Select(t, id))
    requires exists i :: i in db.rows && db.rows[i].repo == db.ticks[t].repo && db.rows[i].proposal
                         && db.rows[i].status == Pending
    ensures var after := Perform(Perform(Perform(db, Select(t, id)), Update(t)), Commit(t));
      && id in db.rows && db.rows[id].repo == db.ticks[t].repo && db.rows[id].proposal
      && db.rows[id].status == Pending
      && (forall i ::
            (i in db.rows && db.rows[i].repo == db.ticks[t].repo && db.rows[i].proposal && db.rows[i].status == Pending)
            ==> db.rows[id].createdAt <= db.rows[i].createdAt)
      && after.rows == db.rows[id := db.rows[id].(status := Queued)] && after.ticks == db.ticks - {t}
  {
    assert HasPending(db, db.ticks[t].repo);
    assert IsOldestPending(db, db.ticks[t].repo, id);
    forall i | i in db.rows && IsPendingOf(db.rows[i], db.ticks[t].repo)
      ensures db.rows[id].createdAt <= db.rows[i].createdAt
    {
    }
    ClaimIs(db, t, id);
  }

  /** The lock is what does it: two ticks that have both counted before either commits claim two proposals. */
  lemma WithoutLockTwoClaims(repo: string)
    ensures var rows := map["a" := Row(repo, true, Pending, 1), "b" := Row(repo, true, Pending, 2)];
      var both := Db(rows, map[1 := Tick(repo, Counted), 2 := Tick(repo, Counted)]);
      var d1 := Perform(Perform(Perform(both, Select(1, "a")), Update(1)), Commit(1));
      var d2 := Perform(Perform(Perform(d1, Select(2, "b")), Update(2)), Commit(2));
      (forall key :: !LocksHeld(both, key)) && !OneQueuedOrRunning(d2)
  {
    var rows := map["a" := Row(repo, true, Pending, 1), "b" := Row(repo, true, Pending, 2)];
    var both := Db(rows, map[1 := Tick(repo, Counted), 2 := Tick(repo, Counted)]);
    assert both.ticks[1].repo == both.ticks[2].repo;
    ClaimIs(both, 1, "a");
    var d1 := End(SetStatus(both, "a", Queued), 1);
    assert d1.ticks[2] == Tick(repo, Counted) && d1.rows["b"] == rows["b"];
    ClaimIs(d1, 2, "b");
    var d2 := End(SetStatus(d1, "b", Queued), 2);
    assert d2.rows["a"].status == Queued && d2.rows["b"].status == Queued && "a" != "b";
  }
}
