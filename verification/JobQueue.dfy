/**
 * The background job queue (internal/jobs/jobs.go) over its run table and the
 * partial unique index created in internal/db/db.go.
 *
 * Every SQL statement is one atomic step.  Workers, clients, the scheduler, the
 * janitor, crashes and recovery interleave freely: a run of the system is any
 * sequence of enabled events.
 */
module JobQueue {
  import opened Prelude

  datatype Status = Planned | Running | Done | Errored | Cancelled

  datatype JobRun = JobRun(jobId: int, status: Status, payload: Option<string>, retries: nat, created: int)

  type Rows = map<int, JobRun>

  predicate Active(r: JobRun) {
    r.status == Planned || r.status == Running
  }

  /** NULL payloads never collide: the index treats them as distinct. */
  predicate SameWork(a: JobRun, b: JobRun) {
    a.jobId == b.jobId && a.payload.Some? && a.payload == b.payload
  }

  predicate UniqueIndex(rows: Rows) {
    forall i, j | i in rows && j in rows && i != j && Active(rows[i]) && Active(rows[j]) ::
      !SameWork(rows[i], rows[j])
  }

  // ---------------------------------------------------------------- statements

  function SetStatus(rows: Rows, ids: set<int>, status: Status): Rows {
    map id | id in rows :: if id in ids then rows[id].(status := status) else rows[id]
  }

  /** UPDATE job_runs SET status = ... over the matched ids; None when the index rejects it. */
  function Update(rows: Rows, ids: set<int>, status: Status): Option<Rows> {
    var updated := SetStatus(rows, ids, status);
    if UniqueIndex(updated) then Some(updated) else None
  }

  function WithStatus(rows: Rows, status: Status): set<int> {
    set id | id in rows && rows[id].status == status
  }

  function PlannedRun(jobId: int, payload: Option<string>, retries: nat, now: int): JobRun {
    JobRun(jobId, Planned, payload, retries, now)
  }

  // ------------------------------------------------------------- state machine

  datatype Worker =
    | Idle
    | Looking(attempt: nat)
    | Selected(attempt: nat, runId: int, jobId: int, payload: Option<string>)
    | Executing(runId: int, jobId: int, payload: Option<string>)

  datatype Phase = Booting | Reset | Marking(todo: set<int>) | Up

  const DEQUEUE_ATTEMPTS := 3

  /** `executed` lists the runs claimed since the manager started. */
  datatype State = State(rows: Rows, lastId: nat, tasks: set<int>, phase: Phase,
                         workers: map<int, Worker>, executed: seq<int>)
  {
    function WorkerAt(w: int): Worker {
      if w in workers then workers[w] else Idle
    }

    function WithWorker(w: int, worker: Worker): State {
      this.(workers := workers[w := worker])
    }
  }

  datatype Event =
    | Insert(jobId: int, payload: Option<string>, retries: nat, now: int)
    | Cancel(runId: int)
    | Janitor(cutoff: int)
    | Poll(w: int)
    | NoCandidate(w: int)
    | Select(w: int, runId: int)
    | Claim(w: int)
    | Finish(w: int, ok: bool)
    | Crash(tasks: set<int>)
    | ResetZombies
    | ListOrphans
    | MarkOrphan(runId: int)
    | StartWorkers

  ghost predicate Enabled(s: State, e: Event) {
    match e
    case Insert(_, _, _, _) => true
    case Cancel(_) => true
    case Janitor(_) => true
    case Poll(w) => s.phase == Up && s.WorkerAt(w).Idle?
    case NoCandidate(w) => s.WorkerAt(w).Looking? && WithStatus(s.rows, Planned) == {}
    case Select(w, id) => s.WorkerAt(w).Looking? && Oldest(s.rows, id)
    case Claim(w) => s.WorkerAt(w).Selected?
    case Finish(w, _) => s.WorkerAt(w).Executing?
    // Start registers the built-in janitor before recovery, so some task is registered.
    case Crash(tasks) => tasks != {}
    case ResetZombies => s.phase == Booting
    case ListOrphans => s.phase == Reset
    case MarkOrphan(id) => s.phase.Marking? && id in s.phase.todo
    case StartWorkers => s.phase == Marking({})
  }

  /** SELECT ... WHERE status = 'planned' ORDER BY created_at LIMIT 1. */
  predicate Oldest(rows: Rows, id: int) {
    && id in rows && rows[id].status == Planned
    && forall j | j in rows && rows[j].status == Planned :: rows[id].created <= rows[j].created
  }

  function Apply(s: State, e: Event): State {
    match e
    case Insert(jobId, payload, retries, now) =>
      var rows := s.rows[s.lastId + 1 := PlannedRun(jobId, payload, retries, now)];
      if UniqueIndex(rows) then s.(rows := rows, lastId := s.lastId + 1) else s
    case Cancel(id) =>
      if id in s.rows && s.rows[id].status == Planned then Written(s, {id}, Cancelled) else s
    case Janitor(cutoff) =>
      s.(rows := map id | id in s.rows && s.rows[id].created >= cutoff :: s.rows[id])
    case Poll(w) => s.WithWorker(w, Looking(0))
    case NoCandidate(w) => s.WithWorker(w, Idle)
    case Select(w, id) =>
      if s.WorkerAt(w).Looking? && id in s.rows
      then s.WithWorker(w, Selected(s.WorkerAt(w).attempt, id, s.rows[id].jobId, s.rows[id].payload))
      else s
    case Claim(w) => ApplyClaim(s, w)
    case Finish(w, ok) =>
      // The UPDATE names only the id: nothing in it checks the row's status.
      if s.WorkerAt(w).Executing?
      then Written(s, {s.WorkerAt(w).runId}, if ok then Done else Errored).WithWorker(w, Idle)
      else s
    case Crash(tasks) => s.(tasks := tasks, phase := Booting, workers := map[], executed := [])
    case ResetZombies => Written(s, WithStatus(s.rows, Running), Planned).(phase := Reset)
    case ListOrphans => s.(phase := Marking(Orphans(s.rows, s.tasks)))
    case MarkOrphan(id) =>
      if s.phase.Marking?
      then Written(s, {id}, Errored).(phase := Marking(s.phase.todo - {id}))
      else s
    case StartWorkers => s.(phase := Up)
  }

  /** A status UPDATE; a rejected one leaves the table alone. */
  function Written(s: State, ids: set<int>, status: Status): State {
    match Update(s.rows, ids, status)
    case Some(rows) => s.(rows := rows)
    case None => s
  }

  function Orphans(rows: Rows, tasks: set<int>): set<int> {
    if tasks == {} then {} else set id | id in WithStatus(rows, Planned) && rows[id].jobId !in tasks
  }

  /** The compare-and-swap UPDATE ... WHERE id = ? AND status = 'planned'. */
  function ApplyClaim(s: State, w: int): State {
    var k := s.WorkerAt(w);
    if !k.Selected? then s
    else if k.runId in s.rows && s.rows[k.runId].status == Planned && Update(s.rows, {k.runId}, Running).Some? then
      s.(rows := SetStatus(s.rows, {k.runId}, Running), executed := s.executed + [k.runId])
       .WithWorker(w, Executing(k.runId, k.jobId, k.payload))
    else s.WithWorker(w, AfterMiss(k.attempt))
  }

  function AfterMiss(attempt: nat): Worker {
    if attempt + 1 < DEQUEUE_ATTEMPTS then Looking(attempt + 1) else Idle
  }

  ghost predicate Valid(s: State, es: seq<Event>)
    decreases |es|
  {
    es == [] || (Enabled(s, es[0]) && Valid(Apply(s, es[0]), es[1..]))
  }

  ghost function Exec(s: State, es: seq<Event>): State
    decreases |es|
  {
    if es == [] then s else Exec(Apply(s, es[0]), es[1..])
  }

  // ----------------------------------------------------------------- invariant

  ghost predicate IdsIssued(s: State) {
    && (forall id | id in s.rows :: 0 < id <= s.lastId)
    && (forall i | 0 <= i < |s.executed| :: 0 < s.executed[i] <= s.lastId)
  }

  /** A worker's copy of a run agrees with the row, unless the janitor removed the row. */
  ghost predicate CopiesAgree(s: State) {
    forall w | w in s.workers && (s.workers[w].Selected? || s.workers[w].Executing?) ::
      var k := s.workers[w];
      && 0 < k.runId <= s.lastId
      && (k.runId in s.rows ==> s.rows[k.runId].jobId == k.jobId && s.rows[k.runId].payload == k.payload)
  }

  ghost predicate OwnsRow(s: State, w: int) {
    && w in s.workers && s.workers[w].Executing?
    && s.workers[w].runId in s.executed
    && (s.workers[w].runId in s.rows ==> s.rows[s.workers[w].runId].status == Running)
  }

  ghost predicate Ownership(s: State) {
    && (forall w | w in s.workers && s.workers[w].Executing? :: OwnsRow(s, w))
    && (forall v, w | v in s.workers && w in s.workers && v != w && s.workers[v].Executing? && s.workers[w].Executing? ::
          s.workers[v].runId != s.workers[w].runId)
  }

  ghost predicate Held(s: State, id: int) {
    exists w :: w in s.workers && s.workers[w].Executing? && s.workers[w].runId == id
  }

  ghost predicate RunningIsHeld(s: State) {
    && (s.phase != Booting ==> forall id | id in s.rows && s.rows[id].status == Running :: Held(s, id))
    && (s.phase != Up ==> s.workers == map[] && s.executed == [])
  }

  ghost predicate ExecutedOnce(s: State) {
    && NoDup(s.executed)
    && forall id | id in s.executed && id in s.rows :: s.rows[id].status != Planned
  }

  ghost predicate Inv(s: State) {
    && UniqueIndex(s.rows) && IdsIssued(s) && CopiesAgree(s)
    && Ownership(s) && RunningIsHeld(s) && ExecutedOnce(s)
  }

  /** A database just opened: no manager has started on it. */
  ghost predicate Opened(s: State) {
    && UniqueIndex(s.rows) && IdsIssued(s) && s.tasks != {}
    && s.phase == Booting && s.workers == map[] && s.executed == []
  }

  // --------------------------------------------------------------- preservation

  /** Moving rows between the two active states, or out of them, cannot meet a duplicate. */
  lemma {:induction false} UpdateAccepted(rows: Rows, ids: set<int>, status: Status)
    requires UniqueIndex(rows)
    requires forall id | id in ids && id in rows :: Active(rows[id]) || (status != Planned && status != Running)
    ensures Update(rows, ids, status).Some?
  {
    var updated := SetStatus(rows, ids, status);
    forall i, j | i in updated && j in updated && i != j && Active(updated[i]) && Active(updated[j])
      ensures !SameWork(updated[i], updated[j])
    {
      assert Active(rows[i]) && Active(rows[j]);
      assert !SameWork(rows[i], rows[j]);
    }
  }

  lemma {:induction false} InsertPreserves(s: State, e: Event)
    requires Inv(s) && e.Insert?
    ensures Inv(Apply(s, e))
  {
    var t := Apply(s, e);
    HoldersStay(s, t);
    forall id | id in t.executed && id in t.rows ensures t.rows[id].status != Planned {
      var i :| 0 <= i < |s.executed| && s.executed[i] == id;
    }
  }

  lemma {:induction false} CancelPreserves(s: State, id: int)
    requires Inv(s)
    ensures Inv(Apply(s, Cancel(id)))
  {
    UpdateAccepted(s.rows, {id}, Cancelled);
    HoldersStay(s, Apply(s, Cancel(id)));
  }

  lemma {:induction false} JanitorPreserves(s: State, cutoff: int)
    requires Inv(s)
    ensures Inv(Apply(s, Janitor(cutoff)))
  {
    HoldersStay(s, Apply(s, Janitor(cutoff)));
  }

  /** A change that leaves the workers alone and starts no run keeps every holder a holder. */
  lemma {:induction false} HoldersStay(s: State, t: State)
    requires Ownership(s) && RunningIsHeld(s)
    requires t.workers == s.workers && t.executed == s.executed && t.phase == s.phase
    requires forall id | id in t.rows && t.rows[id].status == Running :: id in s.rows && s.rows[id].status == Running
    requires forall id | id in s.executed && id in t.rows :: id in s.rows ==> s.rows[id].status == Running ==> t.rows[id].status == Running
    requires forall id | id in s.executed && id in t.rows :: id in s.rows
    ensures Ownership(t) && RunningIsHeld(t)
  {
    forall id | t.phase != Booting && id in t.rows && t.rows[id].status == Running ensures Held(t, id) {
      assert Held(s, id);
    }
    forall w | w in t.workers && t.workers[w].Executing? ensures OwnsRow(t, w) {
      assert OwnsRow(s, w);
    }
  }

  lemma {:induction false} DequeuePreserves(s: State, e: Event)
    requires Inv(s) && Enabled(s, e) && (e.Poll? || e.NoCandidate? || e.Select?)
    ensures Inv(Apply(s, e))
  {
    var t := Apply(s, e);
    forall id | t.phase != Booting && id in t.rows && t.rows[id].status == Running ensures Held(t, id) {
      var w :| w in s.workers && s.workers[w].Executing? && s.workers[w].runId == id;
      assert t.workers[w] == s.workers[w];
    }
    forall w | w in t.workers && t.workers[w].Executing? ensures OwnsRow(t, w) {
      assert OwnsRow(s, w);
    }
  }

  lemma {:induction false} ClaimPreserves(s: State, w: int)
    requires Inv(s) && Enabled(s, Claim(w))
    ensures Inv(Apply(s, Claim(w)))
  {
    var k := s.WorkerAt(w);
    if k.runId in s.rows && s.rows[k.runId].status == Planned {
      ClaimWon(s, w);
    } else {
      ClaimLost(s, w);
    }
  }

  lemma {:induction false} ClaimLost(s: State, w: int)
    requires Inv(s) && Enabled(s, Claim(w)) && Apply(s, Claim(w)) == s.WithWorker(w, AfterMiss(s.WorkerAt(w).attempt))
    ensures Inv(Apply(s, Claim(w)))
  {
    var t := Apply(s, Claim(w));
    forall id | t.phase != Booting && id in t.rows && t.rows[id].status == Running ensures Held(t, id) {
      var v :| v in s.workers && s.workers[v].Executing? && s.workers[v].runId == id;
      assert t.workers[v] == s.workers[v];
    }
    forall v | v in t.workers && t.workers[v].Executing? ensures OwnsRow(t, v) {
      assert OwnsRow(s, v);
    }
  }

  lemma {:induction false} ClaimWon(s: State, w: int)
    requires Inv(s) && Enabled(s, Claim(w))
    requires var k := s.WorkerAt(w); k.runId in s.rows && s.rows[k.runId].status == Planned
    ensures Inv(Apply(s, Claim(w)))
    ensures Apply(s, Claim(w)).executed == s.executed + [s.WorkerAt(w).runId]
  {
    var t := Apply(s, Claim(w));
    var k := s.WorkerAt(w);
    UpdateAccepted(s.rows, {k.runId}, Running);
    assert t.rows == SetStatus(s.rows, {k.runId}, Running) && UniqueIndex(t.rows);
    assert t.workers == s.workers[w := Executing(k.runId, k.jobId, k.payload)];
    assert k.runId !in s.executed;
    ClaimWonOwnership(s, t, w);
  }

  lemma {:induction false} ClaimWonOwnership(s: State, t: State, w: int)
    requires Ownership(s) && RunningIsHeld(s) && s.phase == t.phase && s.phase == Up
    requires s.WorkerAt(w).Selected? && t.executed == s.executed + [s.WorkerAt(w).runId]
    requires var k := s.WorkerAt(w);
      && k.runId !in s.executed
      && t.rows == SetStatus(s.rows, {k.runId}, Running) && t.workers == s.workers[w := Executing(k.runId, k.jobId, k.payload)]
    ensures Ownership(t) && RunningIsHeld(t)
  {
    forall id | id in t.rows && t.rows[id].status == Running ensures Held(t, id) {
      if id == s.WorkerAt(w).runId {
        assert t.workers[w].runId == id;
      } else {
        var v :| v in s.workers && s.workers[v].Executing? && s.workers[v].runId == id;
        assert t.workers[v] == s.workers[v];
      }
    }
    forall v | v in t.workers && t.workers[v].Executing? ensures OwnsRow(t, v) {
      if v != w { assert OwnsRow(s, v); }
    }
    forall v, u | v in t.workers && u in t.workers && v != u && t.workers[v].Executing? && t.workers[u].Executing?
      ensures t.workers[v].runId != t.workers[u].runId
    {
      if v == w { assert OwnsRow(s, u); }
      if u == w { assert OwnsRow(s, v); }
    }
  }

  lemma {:induction false} FinishPreserves(s: State, w: int, ok: bool)
    requires Inv(s) && Enabled(s, Finish(w, ok))
    ensures Inv(Apply(s, Finish(w, ok)))
  {
    var t := Apply(s, Finish(w, ok));
    var own := s.workers[w].runId;
    assert OwnsRow(s, w);
    UpdateAccepted(s.rows, {own}, if ok then Done else Errored);
    forall id | t.phase != Booting && id in t.rows && t.rows[id].status == Running ensures Held(t, id) {
      var v :| v in s.workers && s.workers[v].Executing? && s.workers[v].runId == id;
      assert t.workers[v] == s.workers[v];
    }
    forall v | v in t.workers && t.workers[v].Executing? ensures OwnsRow(t, v) {
      assert OwnsRow(s, v);
    }
  }

  lemma {:induction false} RecoveryPreserves(s: State, e: Event)
    requires Inv(s) && Enabled(s, e)
    requires e.Crash? || e.ResetZombies? || e.ListOrphans? || e.MarkOrphan? || e.StartWorkers?
    ensures Inv(Apply(s, e))
  {
    match e
    case ResetZombies => UpdateAccepted(s.rows, WithStatus(s.rows, Running), Planned);
    case MarkOrphan(id) => UpdateAccepted(s.rows, {id}, Errored);
    case _ =>
  }

  lemma {:induction false} StepPreserves(s: State, e: Event)
    requires Inv(s) && Enabled(s, e)
    ensures Inv(Apply(s, e))
  {
    match e
    case Insert(_, _, _, _) => InsertPreserves(s, e);
    case Cancel(id) => CancelPreserves(s, id);
    case Janitor(cutoff) => JanitorPreserves(s, cutoff);
    case Poll(_) => DequeuePreserves(s, e);
    case NoCandidate(_) => DequeuePreserves(s, e);
    case Select(_, _) => DequeuePreserves(s, e);
    case Claim(w) => ClaimPreserves(s, w);
    case Finish(w, ok) => FinishPreserves(s, w, ok);
    case _ => RecoveryPreserves(s, e);
  }

  lemma {:induction false} RunPreserves(s: State, es: seq<Event>)
    requires Inv(s) && Valid(s, es)
    ensures Inv(Exec(s, es))
    decreases |es|
  {
    if es != [] {
      StepPreserves(s, es[0]);
      RunPreserves(Apply(s, es[0]), es[1..]);
    }
  }

  // -------------------------------------------------------------- main results

  /**
   * Whatever the interleaving: a run is claimed at most once per manager
   * lifetime, no two workers hold the same run, the holder works on the row's
   * own job and payload, a running row has a holder once recovery is past, and
   * no two active runs carry the same work.
   */
  lemma {:induction false} RunsAreExclusive(s0: State, es: seq<Event>)
    requires Opened(s0) && Valid(s0, es)
    ensures var s := Exec(s0, es);
      && NoDup(s.executed)
      && UniqueIndex(s.rows)
      && (forall v, w | v != w && s.WorkerAt(v).Executing? && s.WorkerAt(w).Executing? ::
            s.WorkerAt(v).runId != s.WorkerAt(w).runId)
      && (forall w | s.WorkerAt(w).Executing? && s.WorkerAt(w).runId in s.rows ::
            var row := s.rows[s.WorkerAt(w).runId];
            row.status == Running && row.jobId == s.WorkerAt(w).jobId && row.payload == s.WorkerAt(w).payload)
      && (s.phase == Up ==> forall id | id in s.rows && s.rows[id].status == Running ::
            exists w :: s.WorkerAt(w).Executing? && s.WorkerAt(w).runId == id)
  {
    RunPreserves(s0, es);
    var s := Exec(s0, es);
    forall w | s.WorkerAt(w).Executing? ensures OwnsRow(s, w) {
      assert w in s.workers;
    }
    forall id | s.phase == Up && id in s.rows && s.rows[id].status == Running
      ensures exists w :: s.WorkerAt(w).Executing? && s.WorkerAt(w).runId == id
    {
      var w :| w in s.workers && s.workers[w].Executing? && s.workers[w].runId == id;
      assert s.WorkerAt(w).Executing? && s.WorkerAt(w).runId == id;
    }
  }

  /**
   * The unguarded finish UPDATE: the only row it can touch is the one its own
   * worker has running, and if that row is gone it touches nothing.
   */
  lemma {:induction false} FinishTouchesOwnRow(s0: State, es: seq<Event>, w: int, ok: bool)
    requires Opened(s0) && Valid(s0, es) && Enabled(Exec(s0, es), Finish(w, ok))
    ensures var s := Exec(s0, es); var t := Apply(s, Finish(w, ok)); var own := s.WorkerAt(w).runId;
      && t.rows.Keys == s.rows.Keys
      && (forall id | id in s.rows && id != own :: t.rows[id] == s.rows[id])
      && (own in s.rows ==>
            s.rows[own].status == Running && t.rows[own] == s.rows[own].(status := if ok then Done else Errored))
      && (forall v | v != w && s.WorkerAt(v).Executing? :: s.WorkerAt(v).runId != own)
  {
    RunPreserves(s0, es);
    var s := Exec(s0, es);
    assert OwnsRow(s, w);
    UpdateAccepted(s.rows, {s.WorkerAt(w).runId}, if ok then Done else Errored);
    forall v | v != w && s.WorkerAt(v).Executing? ensures s.WorkerAt(v).runId != s.WorkerAt(w).runId {
      assert v in s.workers && w in s.workers;
    }
  }

  /** The rows and new status of the UPDATE an event issues, if it issues one. */
  ghost function StatusUpdate(s: State, e: Event): Option<(set<int>, Status)> {
    match e
    case Cancel(id) => if id in s.rows && s.rows[id].status == Planned then Some(({id}, Cancelled)) else None
    case Claim(w) =>
      var k := s.WorkerAt(w);
      if k.Selected? && k.runId in s.rows && s.rows[k.runId].status == Planned then Some(({k.runId}, Running)) else None
    case Finish(w, ok) =>
      if s.WorkerAt(w).Executing? then Some(({s.WorkerAt(w).runId}, if ok then Done else Errored)) else None
    case ResetZombies => Some((WithStatus(s.rows, Running), Planned))
    case MarkOrphan(id) => Some(({id}, Errored))
    case _ => None
  }

  /** No status UPDATE, crash recovery included, is ever rejected by the index. */
  lemma {:induction false} StatusUpdatesAreAccepted(s0: State, es: seq<Event>, e: Event)
    requires Opened(s0) && Valid(s0, es) && Enabled(Exec(s0, es), e)
    requires StatusUpdate(Exec(s0, es), e).Some?
    ensures var s := Exec(s0, es); var (ids, status) := StatusUpdate(s, e).value;
      Update(s.rows, ids, status).Some? && Apply(s, e).rows == SetStatus(s.rows, ids, status)
  {
    RunPreserves(s0, es);
    var s := Exec(s0, es);
    var (ids, status) := StatusUpdate(s, e).value;
    UpdateAccepted(s.rows, ids, status);
  }

  ghost predicate DuplicateActive(rows: Rows, jobId: int, payload: Option<string>) {
    payload.Some? && exists id :: id in rows && Active(rows[id]) && rows[id].jobId == jobId && rows[id].payload == payload
  }

  /** An INSERT is refused exactly when the same work is already planned or running. */
  lemma {:induction false} InsertRefusedIffDuplicate(s: State, jobId: int, payload: Option<string>, retries: nat, now: int)
    requires Inv(s)
    ensures Apply(s, Insert(jobId, payload, retries, now)) == s <==> DuplicateActive(s.rows, jobId, payload)
    ensures UniqueIndex(s.rows[s.lastId + 1 := PlannedRun(jobId, payload, retries, now)]) <==> !DuplicateActive(s.rows, jobId, payload)
  {
    var rows := s.rows[s.lastId + 1 := PlannedRun(jobId, payload, retries, now)];
    assert s.lastId + 1 !in s.rows;
    if id :| id in s.rows && Active(s.rows[id]) && s.rows[id].jobId == jobId && s.rows[id].payload == payload && payload.Some? {
      assert id in rows && SameWork(rows[id], rows[s.lastId + 1]);
    } else {
      assert UniqueIndex(rows);
    }
  }

  /** The status changes there are, each with the statement that makes it. */
  ghost predicate Moves(s: State, e: Event, id: int, was: Status, now: Status) {
    || (was == Planned && now == Cancelled && e == Cancel(id))
    || (was == Planned && now == Running && e.Claim? && s.WorkerAt(e.w).Selected? && s.WorkerAt(e.w).runId == id)
    || (was == Running && now == Done && e.Finish? && e.ok && s.WorkerAt(e.w).Executing? && s.WorkerAt(e.w).runId == id)
    || (was == Running && now == Errored && e.Finish? && !e.ok && s.WorkerAt(e.w).Executing? && s.WorkerAt(e.w).runId == id)
    || (was == Running && now == Planned && e.ResetZombies?)
    || (now == Errored && e == MarkOrphan(id))
  }

  /** Only the status of the row changes, and only so. */
  ghost predicate Lives(s: State, e: Event, was: JobRun, now: JobRun, id: int) {
    && now.jobId == was.jobId && now.payload == was.payload && now.retries == was.retries && now.created == was.created
    && (forall x: Status | Moves(s, e, id, was.status, x) :: now.status == x)
    && (now.status != was.status ==> Moves(s, e, id, was.status, now.status))
  }

  lemma {:induction false} ClaimMoves(s: State, w: int, id: int)
    requires Inv(s) && Enabled(s, Claim(w)) && id in s.rows
    ensures id in Apply(s, Claim(w)).rows && Lives(s, Claim(w), s.rows[id], Apply(s, Claim(w)).rows[id], id)
  {
    var own := s.WorkerAt(w).runId;
    if own in s.rows && s.rows[own].status == Planned { UpdateAccepted(s.rows, {own}, Running); }
  }

  lemma {:induction false} FinishMoves(s: State, w: int, ok: bool, id: int)
    requires Inv(s) && Enabled(s, Finish(w, ok)) && id in s.rows
    ensures id in Apply(s, Finish(w, ok)).rows && Lives(s, Finish(w, ok), s.rows[id], Apply(s, Finish(w, ok)).rows[id], id)
  {
    assert OwnsRow(s, w);
    UpdateAccepted(s.rows, {s.WorkerAt(w).runId}, if ok then Done else Errored);
  }

  lemma {:induction false} RecoveryMoves(s: State, e: Event, id: int)
    requires Inv(s) && Enabled(s, e) && id in s.rows && (e.Cancel? || e.ResetZombies? || e.MarkOrphan?)
    ensures id in Apply(s, e).rows && Lives(s, e, s.rows[id], Apply(s, e).rows[id], id)
  {
    match e
    case Cancel(i) => UpdateAccepted(s.rows, {i}, Cancelled);
    case ResetZombies => UpdateAccepted(s.rows, WithStatus(s.rows, Running), Planned);
    case MarkOrphan(i) => UpdateAccepted(s.rows, {i}, Errored);
    case _ =>
  }

  /**
   * The life of a row: it leaves the table exactly when the janitor finds it
   * older than its cutoff, only its status ever changes, and the status changes
   * exactly in these ways.
   */
  lemma {:induction false} StatusMoves(s: State, e: Event, id: int)
    requires Inv(s) && Enabled(s, e) && id in s.rows
    ensures id in Apply(s, e).rows <==> !(e.Janitor? && s.rows[id].created < e.cutoff)
    ensures id in Apply(s, e).rows ==> Lives(s, e, s.rows[id], Apply(s, e).rows[id], id)
  {
    match e
    case Claim(w) => ClaimMoves(s, w, id);
    case Finish(w, ok) => FinishMoves(s, w, ok, id);
    case Cancel(_) => RecoveryMoves(s, e, id);
    case ResetZombies => RecoveryMoves(s, e, id);
    case MarkOrphan(_) => RecoveryMoves(s, e, id);
    case _ =>
  }

  /** A look finds a planned run that none was created before, copied as it stands, or nothing exactly when none is planned. */
  lemma {:induction false} SelectIff(s: State, w: int, id: int)
    requires s.WorkerAt(w).Looking?
    ensures Enabled(s, Select(w, id)) <==>
      && id in s.rows && s.rows[id].status == Planned
      && forall j | j in s.rows && s.rows[j].status == Planned :: s.rows[id].created <= s.rows[j].created
    ensures Enabled(s, NoCandidate(w)) <==> forall j | j in s.rows :: s.rows[j].status != Planned
    ensures Enabled(s, Select(w, id)) ==>
      var k := Apply(s, Select(w, id)).WorkerAt(w);
      k.Selected? && k.runId == id && k.jobId == s.rows[id].jobId && k.payload == s.rows[id].payload
  {
    var planned := WithStatus(s.rows, Planned);
    assert forall j :: j in planned <==> j in s.rows && s.rows[j].status == Planned;
    if planned != {} { NonEmpty(planned); }
  }

  /** A new row comes from an insert, under the next id, planned, and as the client gave it. */
  lemma {:induction false} NewRowsArePlanned(s: State, e: Event, id: int)
    requires Inv(s) && Enabled(s, e) && id !in s.rows && id in Apply(s, e).rows
    ensures e.Insert? && id == s.lastId + 1 && Apply(s, e).lastId == id
    ensures Apply(s, e).rows[id] == JobRun(e.jobId, Planned, e.payload, e.retries, e.now)
  {
    assert e.Insert?;
  }

  // ------------------------------------------------------------ crash recovery

  /** What recovery has done so far to the runs that were active when the server died. */
  ghost predicate Recovering(before: Rows, s: State) {
    forall id | id in before && Active(before[id]) ::
      && id in s.rows && s.rows[id].jobId == before[id].jobId && s.rows[id].payload == before[id].payload
      && match s.phase
         case Booting => Active(s.rows[id])
         case Reset => s.rows[id].status == Planned
         case Marking(todo) => s.rows[id].status ==
             if before[id].jobId in s.tasks || id in todo then Planned else Errored
         case Up => s.rows[id].status == if before[id].jobId in s.tasks then Planned else Errored
  }

  ghost predicate MarksOnlyOrphans(before: Rows, s: State) {
    s.phase.Marking? ==> forall id | id in s.phase.todo && id in before && Active(before[id]) ::
      before[id].jobId !in s.tasks
  }

  predicate RecoveryEvent(e: Event) {
    e.Insert? || e.ResetZombies? || e.ListOrphans? || e.MarkOrphan? || e.StartWorkers?
  }

  lemma {:induction false} RecoveryStep(before: Rows, s: State, e: Event)
    requires Inv(s) && Enabled(s, e) && RecoveryEvent(e) && s.tasks != {}
    requires Recovering(before, s) && MarksOnlyOrphans(before, s)
    ensures Recovering(before, Apply(s, e)) && MarksOnlyOrphans(before, Apply(s, e))
    ensures Apply(s, e).tasks == s.tasks
  {
    match e
    case ResetZombies => UpdateAccepted(s.rows, WithStatus(s.rows, Running), Planned);
    case MarkOrphan(id) => UpdateAccepted(s.rows, {id}, Errored);
    case _ =>
  }

  /**
   * Kill the server in any reachable state, start it again, let clients enqueue
   * while it recovers: when the workers start, every run that was planned or
   * running is planned again if its job still has a task, and errored if not.
   */
  lemma {:induction false} CrashLosesNoRun(s0: State, es: seq<Event>, tasks: set<int>, recovery: seq<Event>)
    requires Opened(s0) && Valid(s0, es + [Crash(tasks)]) && tasks != {}
    requires Valid(Exec(s0, es + [Crash(tasks)]), recovery)
    requires forall i | 0 <= i < |recovery| ::
      recovery[i].Insert? || recovery[i].ResetZombies? || recovery[i].ListOrphans? || recovery[i].MarkOrphan? || recovery[i].StartWorkers?
    requires Exec(Exec(s0, es + [Crash(tasks)]), recovery).phase == Up
    ensures var dead := Exec(s0, es); var live := Exec(Exec(s0, es + [Crash(tasks)]), recovery);
      forall id | id in dead.rows && Active(dead.rows[id]) ::
        && id in live.rows
        && live.rows[id].payload == dead.rows[id].payload
        && live.rows[id].status == if dead.rows[id].jobId in tasks then Planned else Errored
  {
    ExecSplit(s0, es, [Crash(tasks)]);
    var dead := Exec(s0, es);
    assert Exec(dead, [Crash(tasks)]) == Apply(dead, Crash(tasks));
    RunPreserves(s0, es);
    StepPreserves(dead, Crash(tasks));
    RecoveryRun(dead.rows, Apply(dead, Crash(tasks)), recovery);
  }

  lemma {:induction false} RecoveryRun(before: Rows, s: State, es: seq<Event>)
    requires Inv(s) && Valid(s, es) && s.tasks != {}
    requires forall i | 0 <= i < |es| :: RecoveryEvent(es[i])
    requires Recovering(before, s) && MarksOnlyOrphans(before, s)
    ensures Recovering(before, Exec(s, es)) && Exec(s, es).tasks == s.tasks
    decreases |es|
  {
    if es != [] {
      RecoveryStep(before, s, es[0]);
      StepPreserves(s, es[0]);
      RecoveryRun(before, Apply(s, es[0]), es[1..]);
    }
  }

  lemma {:induction false} ExecSplit(s: State, es: seq<Event>, fs: seq<Event>)
    ensures Exec(s, es + fs) == Exec(Exec(s, es), fs)
    ensures Valid(s, es + fs) <==> Valid(s, es) && Valid(Exec(s, es), fs)
    decreases |es|
  {
    if es == [] {
      assert es + fs == fs;
    } else {
      assert (es + fs)[1..] == es[1..] + fs;
      ExecSplit(Apply(s, es[0]), es[1..], fs);
    }
  }

  // ------------------------------------------------- upgrade of an old database

  predicate Superseded(rows: Rows, id: int)
    requires id in rows
  {
    && Active(rows[id])
    && exists j | j in rows :: j < id && Active(rows[j]) && SameWork(rows[j], rows[id])
  }

  /** DELETE every active duplicate but the oldest id of its (job, payload) group. */
  function Deduped(rows: Rows): Rows {
    map id | id in rows && !Superseded(rows, id) :: rows[id]
  }

  /**
   * The clean-up makes the index installable on any table, leaves inactive rows
   * and NULL-payload rows alone, and keeps an active representative of all the
   * work it deletes; a second clean-up finds nothing to delete.
   */
  lemma {:induction false} DedupeInstallsIndex(rows: Rows)
    requires forall id | id in rows :: 0 < id
    ensures UniqueIndex(Deduped(rows)) && Deduped(Deduped(rows)) == Deduped(rows)
    ensures forall id | id in rows && (!Active(rows[id]) || rows[id].payload.None?) :: id in Deduped(rows)
    ensures forall id | id in rows && Active(rows[id]) && id !in Deduped(rows) ::
      exists j :: j in Deduped(rows) && j < id && Active(rows[j]) && SameWork(rows[j], rows[id])
  {
    var d := Deduped(rows);
    forall i, j | i in d && j in d && i < j && Active(d[i]) && Active(d[j]) ensures !SameWork(d[i], d[j]) {
      assert !Superseded(rows, j);
    }
    forall id | id in rows && Active(rows[id]) && id !in d
      ensures exists j :: j in d && j < id && Active(rows[j]) && SameWork(rows[j], rows[id])
    {
      OldestSurvives(rows, id);
    }
    forall id | id in d ensures !Superseded(d, id) {}
    assert Deduped(d) == d;
  }

  lemma {:induction false} OldestSurvives(rows: Rows, id: int)
    requires forall k | k in rows :: 0 < k
    requires id in rows && Superseded(rows, id)
    ensures exists j :: j in Deduped(rows) && j < id && Active(rows[j]) && SameWork(rows[j], rows[id])
    decreases id
  {
    var j :| j in rows && j < id && Active(rows[j]) && SameWork(rows[j], rows[id]);
    if Superseded(rows, j) {
      OldestSurvives(rows, j);
    }
  }
}
