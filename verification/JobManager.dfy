/**
 * The Manager's operations as code over its mutable state.  Each one is a run of
 * the JobQueue machine; between two of its statements other workers and clients
 * may do anything the machine allows.
 */
module JobManager {
  import opened Prelude
  import opened JobQueue

  /** Events of everyone but worker w, while the process lives. */
  ghost predicate Apart(w: int, es: seq<Event>) {
    forall i | 0 <= i < |es| ::
      && !es[i].Crash?
      && ((es[i].Poll? || es[i].NoCandidate? || es[i].Select? || es[i].Claim? || es[i].Finish?) ==> es[i].w != w)
  }

  ghost predicate Reaches(s: State, t: State) {
    exists es :: Valid(s, es) && Exec(s, es) == t
  }

  ghost predicate ReachesApart(w: int, s: State, t: State) {
    exists es :: Apart(w, es) && Valid(s, es) && Exec(s, es) == t
  }

  lemma {:induction false} ReachesChain(s: State, t: State, u: State)
    requires Reaches(s, t) && Reaches(t, u)
    ensures Reaches(s, u)
  {
    var es :| Valid(s, es) && Exec(s, es) == t;
    var fs :| Valid(t, fs) && Exec(t, fs) == u;
    ExecSplit(s, es, fs);
  }

  lemma {:induction false} ReachesStep(s: State, e: Event)
    requires Enabled(s, e)
    ensures Reaches(s, Apply(s, e))
  {
    var es := [e];
    assert es[1..] == [];
    assert Valid(Apply(s, e), es[1..]) && Exec(Apply(s, e), es[1..]) == Apply(s, e);
    assert Valid(s, es) && Exec(s, es) == Apply(s, e);
  }

  // ------------------------------------------------------- what a worker does

  predicate ByWorker(w: int, e: Event) {
    (e.Poll? || e.NoCandidate? || e.Select? || e.Claim? || e.Finish?) && e.w == w
  }

  /** The statements of worker w among those of everyone. */
  function Own(w: int, es: seq<Event>): seq<Event> {
    if es == [] then [] else Own(w, es[..|es| - 1]) + if ByWorker(w, es[|es| - 1]) then [es[|es| - 1]] else []
  }

  /** From s to t, worker w issues exactly these statements, whatever the others do in between. */
  ghost predicate Does(w: int, s: State, t: State, own: seq<Event>) {
    exists es :: NoCrash(es) && Valid(s, es) && Exec(s, es) == t && Own(w, es) == own
  }

  ghost predicate NoCrash(es: seq<Event>) {
    forall i | 0 <= i < |es| :: !es[i].Crash?
  }

  lemma {:induction false} OwnJoin(w: int, a: seq<Event>, b: seq<Event>)
    ensures Own(w, a + b) == Own(w, a) + Own(w, b)
  {
    if b == [] {
      assert a + b == a;
    } else {
      var n := |b| - 1;
      OwnJoin(w, a, b[..n]);
      assert (a + b)[..|a| + n] == a + b[..n] && (a + b)[|a| + n] == b[n];
    }
  }

  lemma {:induction false} DoesThen(w: int, s: State, t: State, u: State, a: seq<Event>, b: seq<Event>)
    requires Does(w, s, t, a) && Does(w, t, u, b)
    ensures Does(w, s, u, a + b)
  {
    var es :| NoCrash(es) && Valid(s, es) && Exec(s, es) == t && Own(w, es) == a;
    var fs :| NoCrash(fs) && Valid(t, fs) && Exec(t, fs) == u && Own(w, fs) == b;
    ExecSplit(s, es, fs);
    OwnJoin(w, es, fs);
  }

  lemma {:induction false} DoesStep(w: int, s: State, e: Event)
    requires Inv(s) && Enabled(s, e) && ByWorker(w, e)
    ensures Inv(Apply(s, e)) && Does(w, s, Apply(s, e), [e])
  {
    StepPreserves(s, e);
    assert [e][1..] == [] && [e][..0] == [];
    assert Valid(Apply(s, e), [e][1..]) && Exec(Apply(s, e), [e][1..]) == Apply(s, e);
    assert Valid(s, [e]) && Exec(s, [e]) == Apply(s, e) && Own(w, [e]) == [e];
  }

  lemma {:induction false} OwnNothing(w: int, es: seq<Event>)
    requires Apart(w, es)
    ensures Own(w, es) == []
  {
    if es != [] { OwnNothing(w, es[..|es| - 1]); }
  }

  /** While the others act, worker w does nothing and is left alone. */
  lemma {:induction false} Waits(w: int, s: State, t: State)
    requires Inv(s) && ReachesApart(w, s, t)
    ensures Inv(t) && Does(w, s, t, []) && KeptFor(w, s, t)
  {
    var es :| Apart(w, es) && Valid(s, es) && Exec(s, es) == t;
    OwnNothing(w, es);
    RunPreserves(s, es);
    ApartFrame(w, s, es);
  }

  /** The statements of lost and won claims on these runs. */
  function Tries(w: int, tried: seq<int>): seq<Event> {
    if tried == [] then [] else Tries(w, tried[..|tried| - 1]) + [Select(w, tried[|tried| - 1]), Claim(w)]
  }

  lemma {:induction false} TryAgain(w: int, s: State, t: State, u: State, tried: seq<int>, id: int)
    requires Does(w, s, t, [Poll(w)] + Tries(w, tried)) && Does(w, t, u, [Select(w, id), Claim(w)])
    ensures Does(w, s, u, [Poll(w)] + Tries(w, tried + [id]))
  {
    DoesThen(w, s, t, u, [Poll(w)] + Tries(w, tried), [Select(w, id), Claim(w)]);
    assert (tried + [id])[..|tried|] == tried;
    assert [Poll(w)] + Tries(w, tried) + [Select(w, id), Claim(w)] == [Poll(w)] + Tries(w, tried + [id]);
  }

  lemma {:induction false} Stepped(s: State, e: Event)
    requires Inv(s) && Enabled(s, e)
    ensures Inv(Apply(s, e)) && Reaches(s, Apply(s, e))
  {
    StepPreserves(s, e);
    ReachesStep(s, e);
  }

  lemma {:induction false} ClaimedIsNew(before: seq<int>, after: seq<int>, id: int)
    requires NoDup(after) && after != [] && before <= after[..|after| - 1] && after[|after| - 1] == id
    ensures id !in before
  {
    forall i | 0 <= i < |before| ensures before[i] != id {
      assert after[i] == before[i];
    }
  }

  ghost predicate KeptFor(w: int, s: State, t: State) {
    t.WorkerAt(w) == s.WorkerAt(w) && (s.phase == Up ==> t.phase == Up) && s.executed <= t.executed && t.tasks == s.tasks
  }

  lemma {:induction false} ApartStep(w: int, s: State, e: Event)
    requires Apart(w, [e]) && Enabled(s, e)
    ensures KeptFor(w, s, Apply(s, e))
  {
    assert [e][0] == e;
    match e
    case Claim(v) => assert v != w;
    case _ =>
  }

  /** Other parties cannot move worker w, leave the Up phase or forget a claim. */
  lemma {:induction false} ApartFrame(w: int, s: State, es: seq<Event>)
    requires Apart(w, es) && Valid(s, es)
    ensures KeptFor(w, s, Exec(s, es))
    decreases |es|
  {
    if es != [] {
      ApartStep(w, s, es[0]);
      ApartFrame(w, Apply(s, es[0]), es[1..]);
    }
  }

  lemma {:induction false} Interfered(w: int, s: State, t: State)
    requires Inv(s) && ReachesApart(w, s, t)
    ensures Inv(t) && Reaches(s, t)
    ensures KeptFor(w, s, t)
  {
    var es :| Apart(w, es) && Valid(s, es) && Exec(s, es) == t;
    RunPreserves(s, es);
    ApartFrame(w, s, es);
  }

  lemma {:induction false} OldestExists(rows: Rows, ids: set<int>)
    requires ids != {} && forall id | id in ids :: id in rows
    ensures exists m :: m in ids && forall j | j in ids :: rows[m].created <= rows[j].created
  {
    NonEmpty(ids);
    var x :| x in ids;
    if ids != {x} {
      OldestExists(rows, ids - {x});
      var m :| m in ids - {x} && forall j | j in ids - {x} :: rows[m].created <= rows[j].created;
      var best := if rows[m].created <= rows[x].created then m else x;
      assert forall j | j in ids :: rows[best].created <= rows[j].created;
    } else {
      assert forall j | j in ids :: rows[x].created <= rows[j].created;
    }
  }

  datatype InsertResult = Inserted(runId: int) | Duplicate(runId: int) | Refused

  datatype Dequeued = Dequeued(runId: int, jobId: int, payload: Option<string>)

  /** What recovery makes of the table when nobody interferes. */
  function Recovered(rows: Rows, tasks: set<int>): Rows {
    map id | id in rows ::
      if !Active(rows[id]) then rows[id]
      else rows[id].(status := if rows[id].jobId in tasks then Planned else Errored)
  }

  lemma {:induction false} RecoveredInTwoUpdates(rows: Rows, tasks: set<int>)
    requires tasks != {}
    ensures var reset := SetStatus(rows, WithStatus(rows, Running), Planned);
      SetStatus(reset, Orphans(reset, tasks), Errored) == Recovered(rows, tasks)
  {
    var reset := SetStatus(rows, WithStatus(rows, Running), Planned);
    var marked := SetStatus(reset, Orphans(reset, tasks), Errored);
    assert marked.Keys == Recovered(rows, tasks).Keys;
    forall id | id in rows ensures marked[id] == Recovered(rows, tasks)[id] {
      assert reset[id].status == Planned <==> Active(rows[id]);
    }
  }

  /** What inserting a planned run does, and when the index refuses it. */
  lemma {:induction false} InsertFacts(s: State, jobId: int, payload: Option<string>, retries: nat, now: int)
    requires Inv(s)
    ensures s.lastId + 1 !in s.rows
    ensures var t := s.(lastId := s.lastId + 1, rows := s.rows[s.lastId + 1 := PlannedRun(jobId, payload, retries, now)]);
      && (UniqueIndex(t.rows) <==> !DuplicateActive(s.rows, jobId, payload))
      && (UniqueIndex(t.rows) ==> Inv(t) && Reaches(s, t))
    ensures Reaches(s, s)
  {
    Stepped(s, Insert(jobId, payload, retries, now));
    InsertRefusedIffDuplicate(s, jobId, payload, retries, now);
    assert Valid(s, []) && Exec(s, []) == s;
  }

  class Manager {
    var rows: Rows
    var lastId: nat
    var tasks: set<int>
    var phase: Phase
    var workers: map<int, Worker>
    ghost var executed: seq<int>

    ghost function Model(): State
      reads this
    {
      State(rows, lastId, tasks, phase, workers, executed)
    }

    constructor (rows: Rows, lastId: nat, tasks: set<int>)
      requires UniqueIndex(rows) && tasks != {} && forall id | id in rows :: 0 < id <= lastId
      ensures Opened(Model()) && this.rows == rows && this.lastId == lastId && this.tasks == tasks
    {
      this.rows, this.lastId, this.tasks := rows, lastId, tasks;
      phase, workers, executed := Booting, map[], [];
    }

    /** Everyone else's steps between two statements of worker w; callers know only the contract. */
    method Interfere(w: int)
      modifies this
      ensures ReachesApart(w, old(Model()), Model())
    {
      assert Apart(w, []) && Valid(Model(), []) && Exec(Model(), []) == Model();
    }

    /** INSERT INTO job_runs, subject to the unique index. */
    method TryInsert(jobId: int, payload: Option<string>, retries: nat, now: int) returns (accepted: bool)
      requires Inv(Model())
      modifies this
      ensures Inv(Model()) && Reaches(old(Model()), Model())
      ensures Model() == if !accepted then old(Model()) else old(Model()).(lastId := old(lastId) + 1,
        rows := old(rows)[old(lastId) + 1 := JobRun(jobId, Planned, payload, retries, now)])
      ensures accepted ==> old(lastId) + 1 !in old(rows)
      ensures !accepted <==> DuplicateActive(old(rows), jobId, payload)
    {
      InsertFacts(Model(), jobId, payload, retries, now);
      var inserted := rows[lastId + 1 := PlannedRun(jobId, payload, retries, now)];
      accepted := UniqueIndex(inserted);
      if accepted {
        rows, lastId := inserted, lastId + 1;
      }
    }

    method InsertPlannedRun(jobId: int, payload: Option<string>, retries: nat, now: int, client: int)
      returns (r: InsertResult)
      requires Inv(Model())
      modifies this
      ensures Inv(Model()) && Reaches(old(Model()), Model())
      ensures r.Inserted? ==>
        && r.runId == old(lastId) + 1 && r.runId !in old(rows)
        && Model() == old(Model()).(lastId := r.runId, rows := old(rows)[r.runId := JobRun(jobId, Planned, payload, retries, now)])
      ensures r.Duplicate? ==>
        && r.runId in rows && Active(rows[r.runId]) && rows[r.runId].jobId == jobId && rows[r.runId].payload == payload
      ensures !r.Inserted? <==> DuplicateActive(old(rows), jobId, payload)
      ensures !r.Inserted? ==> ReachesApart(client, old(Model()), Model()) && (r.Duplicate? <==> DuplicateActive(rows, jobId, payload))
    {
      ghost var s := Model();
      var accepted := TryInsert(jobId, payload, retries, now);
      if accepted {
        return Inserted(lastId);
      }
      Interfere(client);
      Interfered(client, s, Model());
      // SELECT id ... WHERE job_id = ? AND payload IS ? AND status IN (planned, running) LIMIT 1
      if id :| id in rows && Active(rows[id]) && rows[id].jobId == jobId && rows[id].payload == payload {
        return Duplicate(id);
      }
      return Refused;
    }

    /** Others may act between reading the run and the insert, which happens in state `atInsert`. */
    method RetryRun(runId: int, now: int, client: int) returns (r: InsertResult, ghost atInsert: State)
      requires Inv(Model())
      modifies this
      ensures Inv(Model()) && Reaches(old(Model()), Model())
      ensures !(runId in old(rows) && old(rows)[runId].status in {Errored, Cancelled}) ==> r == Refused && Model() == old(Model())
      ensures runId in old(rows) && old(rows)[runId].status in {Errored, Cancelled} ==>
        && ReachesApart(client, old(Model()), atInsert) && Reaches(atInsert, Model())
        && (!r.Inserted? <==> DuplicateActive(atInsert.rows, old(rows)[runId].jobId, old(rows)[runId].payload))
      ensures runId in old(rows) && old(rows)[runId].status in {Errored, Cancelled} && !r.Inserted? ==>
        && ReachesApart(client, atInsert, Model())
        && (r.Duplicate? <==> DuplicateActive(rows, old(rows)[runId].jobId, old(rows)[runId].payload))
      ensures r.Inserted? ==>
        && runId in old(rows) && r.runId in rows
        && rows[r.runId] == JobRun(old(rows)[runId].jobId, Planned, old(rows)[runId].payload, old(rows)[runId].retries + 1, now)
      ensures r.Duplicate? ==>
        && runId in old(rows) && r.runId in rows && Active(rows[r.runId])
        && rows[r.runId].jobId == old(rows)[runId].jobId && rows[r.runId].payload == old(rows)[runId].payload
    {
      assert Valid(Model(), []) && Exec(Model(), []) == Model();
      atInsert := Model();
      if runId !in rows || rows[runId].status !in {Errored, Cancelled} {
        return Refused, atInsert;
      }
      ghost var s := Model();
      var run := rows[runId];
      Interfere(client);
      Interfered(client, s, Model());
      atInsert := Model();
      r := InsertPlannedRun(run.jobId, run.payload, run.retries + 1, now, client);
      ReachesChain(s, atInsert, Model());
    }

    method CancelRun(runId: int) returns (ok: bool)
      requires Inv(Model())
      modifies this
      ensures Inv(Model()) && Reaches(old(Model()), Model())
      ensures ok <==> runId in old(rows) && old(rows)[runId].status == Planned
      ensures Model() == if ok then old(Model()).(rows := old(rows)[runId := old(rows)[runId].(status := Cancelled)])
                               else old(Model())
    {
      ghost var s := Model();
      Stepped(s, Cancel(runId));
      ok := runId in rows && rows[runId].status == Planned;
      if ok {
        UpdateAccepted(rows, {runId}, Cancelled);
        rows := SetStatus(rows, {runId}, Cancelled);
        assert rows == s.rows[runId := s.rows[runId].(status := Cancelled)];
      }
    }

    /** SELECT id ... WHERE status = 'planned' ORDER BY created_at LIMIT 1. */
    method SelectCandidate(w: int) returns (found: bool)
      requires Inv(Model()) && Model().WorkerAt(w).Looking?
      modifies this
      ensures Inv(Model()) && unchanged(`rows, `phase, `executed, `tasks)
      ensures found ==> Model().WorkerAt(w).Selected? && Model().WorkerAt(w).attempt == old(Model()).WorkerAt(w).attempt
      ensures found ==> Oldest(rows, Model().WorkerAt(w).runId) && Does(w, old(Model()), Model(), [Select(w, Model().WorkerAt(w).runId)])
      ensures !found ==> Model().WorkerAt(w).Idle? && WithStatus(rows, Planned) == {} && Does(w, old(Model()), Model(), [NoCandidate(w)])
    {
      ghost var s := Model();
      var candidates := WithStatus(rows, Planned);
      if candidates == {} {
        DoesStep(w, s, NoCandidate(w));
        workers := workers[w := Idle];
        return false;
      }
      OldestExists(rows, candidates);
      var runId :| runId in candidates && forall j | j in candidates :: rows[runId].created <= rows[j].created;
      DoesStep(w, s, Select(w, runId));
      workers := workers[w := Selected(workers[w].attempt, runId, rows[runId].jobId, rows[runId].payload)];
      return true;
    }

    /** UPDATE ... SET status = 'running' WHERE id = ? AND status = 'planned', and the affected-row count. */
    method TryClaim(w: int) returns (won: bool)
      requires Inv(Model()) && Model().WorkerAt(w).Selected?
      modifies this
      ensures Inv(Model()) && Does(w, old(Model()), Model(), [Claim(w)]) && unchanged(`phase, `tasks)
      ensures won <==> var k := old(Model()).WorkerAt(w); k.runId in old(rows) && old(rows)[k.runId].status == Planned
      ensures won ==> var k := old(Model()).WorkerAt(w);
        && Model().WorkerAt(w) == Executing(k.runId, k.jobId, k.payload)
        && executed == old(executed) + [k.runId] && k.runId in rows && rows[k.runId].status == Running
      ensures !won ==> unchanged(`rows, `executed) && Model().WorkerAt(w) == AfterMiss(old(Model()).WorkerAt(w).attempt)
    {
      ghost var s := Model();
      DoesStep(w, s, Claim(w));
      var k := workers[w];
      won := k.runId in rows && rows[k.runId].status == Planned;
      if won {
        UpdateAccepted(rows, {k.runId}, Running);
        rows := SetStatus(rows, {k.runId}, Running);
        executed := executed + [k.runId];
        workers := workers[w := Executing(k.runId, k.jobId, k.payload)];
      } else {
        workers := workers[w := AfterMiss(k.attempt)];
      }
      assert Model() == Apply(s, Claim(w));
    }

    /** The finish UPDATE, which names only the run id. */
    method FinishRun(w: int, ok: bool)
      requires Inv(Model()) && Model().WorkerAt(w).Executing?
      modifies this
      ensures Inv(Model()) && Does(w, old(Model()), Model(), [Finish(w, ok)]) && unchanged(`phase, `tasks, `executed)
      ensures Model().WorkerAt(w).Idle?
      ensures var own := old(Model()).WorkerAt(w).runId;
        && rows.Keys == old(rows).Keys
        && (forall id | id in rows && id != own :: rows[id] == old(rows)[id])
        && (own in rows ==> rows[own] == old(rows)[own].(status := if ok then Done else Errored))
    {
      ghost var s := Model();
      DoesStep(w, s, Finish(w, ok));
      assert OwnsRow(s, w);
      var own := workers[w].runId;
      UpdateAccepted(rows, {own}, if ok then Done else Errored);
      rows := SetStatus(rows, {own}, if ok then Done else Errored);
      workers := workers[w := Idle];
      assert Model() == Apply(s, Finish(w, ok));
    }

    ghost predicate ClaimedBy(w: int, run: Dequeued)
      reads this
    {
      && Model().WorkerAt(w) == Executing(run.runId, run.jobId, run.payload)
      && run.runId in rows && rows[run.runId].status == Running
    }

    /** The SELECT of one round; others may act before it. */
    method NextCandidate(w: int, attempt: nat) returns (found: bool)
      requires Inv(Model()) && phase == Up && Model().WorkerAt(w) == Looking(attempt)
      modifies this
      ensures Inv(Model()) && phase == Up && unchanged(`tasks) && old(executed) <= executed
      ensures found ==> var k := Model().WorkerAt(w); k.Selected? && k.attempt == attempt && Does(w, old(Model()), Model(), [Select(w, k.runId)])
      ensures !found ==> Model().WorkerAt(w).Idle? && Does(w, old(Model()), Model(), [NoCandidate(w)])
    {
      ghost var s := Model();
      Interfere(w);
      ghost var a := Model();
      Waits(w, s, a);
      found := SelectCandidate(w);
      ghost var own := if found then [Select(w, Model().WorkerAt(w).runId)] else [NoCandidate(w)];
      DoesThen(w, s, a, Model(), [], own);
      assert [] + own == own;
    }

    /** The compare-and-swap of one round; others may act before it. */
    method ClaimCandidate(w: int) returns (won: bool)
      requires Inv(Model()) && phase == Up && Model().WorkerAt(w).Selected?
      modifies this
      ensures Inv(Model()) && phase == Up && unchanged(`tasks) && old(executed) <= executed
      ensures Does(w, old(Model()), Model(), [Claim(w)])
      ensures var k := old(Model()).WorkerAt(w);
        if won then ClaimedBy(w, Dequeued(k.runId, k.jobId, k.payload)) && k.runId !in old(executed)
        else Model().WorkerAt(w) == AfterMiss(k.attempt)
    {
      ghost var s := Model();
      var k := workers[w];
      Interfere(w);
      ghost var a := Model();
      Waits(w, s, a);
      won := TryClaim(w);
      DoesThen(w, s, a, Model(), [], [Claim(w)]);
      assert [] + [Claim(w)] == [Claim(w)];
      if won { ClaimedIsNew(s.executed, executed, k.runId); }
    }

    /** One round of the dequeue loop. */
    method DequeueAttempt(w: int, attempt: nat) returns (found: bool, run: Option<Dequeued>, ghost runId: int)
      requires Inv(Model()) && phase == Up && Model().WorkerAt(w) == Looking(attempt)
      modifies this
      ensures Inv(Model()) && phase == Up && unchanged(`tasks) && old(executed) <= executed
      ensures !found ==> run.None? && Model().WorkerAt(w).Idle? && Does(w, old(Model()), Model(), [NoCandidate(w)])
      ensures found ==> Does(w, old(Model()), Model(), [Select(w, runId), Claim(w)])
      ensures found && run.None? ==> Model().WorkerAt(w) == AfterMiss(attempt)
      ensures run.Some? ==> ClaimedBy(w, run.value) && run.value.runId == runId && runId !in old(executed)
    {
      ghost var s := Model();
      runId := 0;
      found := NextCandidate(w, attempt);
      if !found { return false, None, 0; }
      ghost var a := Model();
      var k := workers[w];
      runId := k.runId;
      var won := ClaimCandidate(w);
      DoesThen(w, s, a, Model(), [Select(w, runId)], [Claim(w)]);
      assert [Select(w, runId)] + [Claim(w)] == [Select(w, runId), Claim(w)];
      run := if won then Some(Dequeued(k.runId, k.jobId, k.payload)) else None;
    }

    /** What a dequeue issues: a poll, its tries, and unless the last try won or was the third, a look that found nothing. */
    ghost predicate Dequeues(w: int, s: State, t: State, run: Option<Dequeued>, tried: seq<int>) {
      if run.Some? then
        0 < |tried| <= 3 && tried[|tried| - 1] == run.value.runId && Does(w, s, t, [Poll(w)] + Tries(w, tried))
      else if |tried| == 3 then Does(w, s, t, [Poll(w)] + Tries(w, tried))
      else |tried| < 3 && Does(w, s, t, [Poll(w)] + Tries(w, tried) + [NoCandidate(w)])
    }

    /**
     * Select a candidate, then claim it by compare-and-swap, at most three
     * times.  A returned run was never claimed before in this lifetime.
     */
    method AtomicDequeue(w: int) returns (run: Option<Dequeued>, ghost tried: seq<int>)
      requires Inv(Model()) && phase == Up && Model().WorkerAt(w).Idle?
      modifies this
      ensures Inv(Model()) && phase == Up && unchanged(`tasks) && old(executed) <= executed
      ensures Dequeues(w, old(Model()), Model(), run, tried)
      ensures run.None? ==> Model().WorkerAt(w).Idle?
      ensures run.Some? ==> ClaimedBy(w, run.value) && run.value.runId !in old(executed)
    {
      ghost var s := Model();
      DoesStep(w, s, Poll(w));
      workers := workers[w := Looking(0)];
      tried := [];
      assert [Poll(w)] + Tries(w, tried) == [Poll(w)];
      var attempt := 0;
      while attempt < DEQUEUE_ATTEMPTS
        invariant 0 <= attempt == |tried| <= DEQUEUE_ATTEMPTS
        invariant Inv(Model()) && phase == Up && s.executed <= executed && tasks == s.tasks
        invariant Does(w, s, Model(), [Poll(w)] + Tries(w, tried))
        invariant Model().WorkerAt(w) == if attempt < DEQUEUE_ATTEMPTS then Looking(attempt) else Idle
      {
        ghost var a := Model();
        var found, claimed;
        ghost var runId;
        found, claimed, runId := DequeueAttempt(w, attempt);
        if !found {
          DoesThen(w, s, a, Model(), [Poll(w)] + Tries(w, tried), [NoCandidate(w)]);
          return None, tried;
        }
        TryAgain(w, s, a, Model(), tried, runId);
        tried := tried + [runId];
        if claimed.Some? { return claimed, tried; }
        attempt := attempt + 1;
      }
      return None, tried;
    }

    /** The task runs while others act; the janitor may delete the row meanwhile. */
    method RunTask(w: int, succeeds: bool)
      requires Inv(Model()) && phase == Up && Model().WorkerAt(w).Executing?
      modifies this
      ensures Inv(Model()) && phase == Up && unchanged(`tasks) && old(executed) <= executed && Model().WorkerAt(w).Idle?
      ensures var k := old(Model()).WorkerAt(w); var ok := k.jobId in tasks && succeeds;
        && Does(w, old(Model()), Model(), [Finish(w, ok)])
        && (k.runId in rows ==> rows[k.runId].jobId == k.jobId && rows[k.runId].status == if ok then Done else Errored)
    {
      ghost var s := Model();
      var k := workers[w];
      Interfere(w);
      ghost var a := Model();
      Waits(w, s, a);
      assert OwnsRow(a, w);
      var ok := k.jobId in tasks && succeeds;
      FinishRun(w, ok);
      DoesThen(w, s, a, Model(), [], [Finish(w, ok)]);
      assert [] + [Finish(w, ok)] == [Finish(w, ok)];
    }

    /**
     * One turn of runWorker.  `succeeds` is the task's result; a panic counts as
     * failure, and so does a job that has no registered task.
     */
    method WorkOnce(w: int, succeeds: bool) returns (run: Option<Dequeued>, ghost tried: seq<int>, ghost claimed: State)
      requires Inv(Model()) && phase == Up && Model().WorkerAt(w).Idle?
      modifies this
      ensures Inv(Model()) && phase == Up && Model().WorkerAt(w).Idle?
      ensures Dequeues(w, old(Model()), claimed, run, tried)
      ensures run.None? ==> Model() == claimed
      ensures run.Some? ==> run.value.runId !in old(executed) && run.value.runId in executed
      ensures run.Some? ==> var ok := run.value.jobId in tasks && succeeds;
        && Does(w, claimed, Model(), [Finish(w, ok)])
        && (run.value.runId in rows ==> rows[run.value.runId].status == if ok then Done else Errored)
    {
      run, tried := AtomicDequeue(w);
      claimed := Model();
      if run.Some? {
        assert OwnsRow(claimed, w);
        RunTask(w, succeeds);
      }
    }

    method ResetRunning()
      requires Inv(Model()) && phase == Booting
      modifies this
      ensures Inv(Model()) && Reaches(old(Model()), Model()) && phase == Reset && unchanged(`lastId, `tasks)
      ensures rows == SetStatus(old(rows), WithStatus(old(rows), Running), Planned)
    {
      Stepped(Model(), ResetZombies);
      UpdateAccepted(rows, WithStatus(rows, Running), Planned);
      rows := SetStatus(rows, WithStatus(rows, Running), Planned);
      phase := Reset;
    }

    method MarkOrphaned(id: int)
      requires Inv(Model()) && phase.Marking? && id in phase.todo
      modifies this
      ensures Inv(Model()) && Reaches(old(Model()), Model()) && unchanged(`lastId, `tasks)
      ensures phase == Marking(old(phase).todo - {id}) && rows == SetStatus(old(rows), {id}, Errored)
    {
      Stepped(Model(), MarkOrphan(id));
      UpdateAccepted(rows, {id}, Errored);
      rows := SetStatus(rows, {id}, Errored);
      phase := Marking(phase.todo - {id});
    }

    method ListPlanned() returns (todo: set<int>)
      requires Inv(Model()) && phase == Reset
      modifies this
      ensures Inv(Model()) && Reaches(old(Model()), Model()) && unchanged(`rows, `lastId, `tasks)
      ensures phase == Marking(todo) && todo == Orphans(rows, tasks)
    {
      Stepped(Model(), ListOrphans);
      todo := Orphans(rows, tasks);
      phase := Marking(todo);
    }

    method LaunchWorkers()
      requires Inv(Model()) && phase == Marking({})
      modifies this
      ensures Inv(Model()) && Reaches(old(Model()), Model()) && unchanged(`rows, `lastId, `tasks) && phase == Up
    {
      Stepped(Model(), StartWorkers);
      phase := Up;
    }

    method MarkAll(todo: set<int>)
      requires Inv(Model()) && phase == Marking(todo)
      modifies this
      ensures Inv(Model()) && Reaches(old(Model()), Model()) && unchanged(`lastId, `tasks)
      ensures phase == Marking({}) && rows == SetStatus(old(rows), todo, Errored)
    {
      ghost var s := Model();
      var left := todo;
      assert rows == SetStatus(rows, {}, Errored);
      assert Valid(s, []) && Exec(s, []) == s;
      while left != {}
        invariant left <= todo && phase == Marking(left)
        invariant Inv(Model()) && Reaches(s, Model()) && unchanged(`lastId, `tasks)
        invariant rows == SetStatus(s.rows, todo - left, Errored)
        decreases left
      {
        NonEmpty(left);
        var id :| id in left;
        ghost var b := Model();
        MarkOrphaned(id);
        assert SetStatus(SetStatus(s.rows, todo - left, Errored), {id}, Errored)
            == SetStatus(s.rows, todo - (left - {id}), Errored);
        left := left - {id};
        ReachesChain(s, b, Model());
      }
      assert todo - {} == todo;
    }

    /** zombieRecovery, statement by statement, then the workers start. */
    method ZombieRecovery()
      requires Inv(Model()) && phase == Booting && tasks != {}
      modifies this
      ensures Inv(Model()) && Reaches(old(Model()), Model()) && phase == Up
      ensures rows == Recovered(old(rows), tasks) && unchanged(`lastId, `tasks)
    {
      ghost var s := Model();
      ResetRunning();
      ghost var a := Model();
      var todo := ListPlanned();
      ghost var b := Model();
      MarkAll(todo);
      ghost var c := Model();
      LaunchWorkers();
      ReachesChain(s, a, b);
      ReachesChain(s, b, c);
      ReachesChain(s, c, Model());
      RecoveredInTwoUpdates(s.rows, tasks);
    }
  }
}
