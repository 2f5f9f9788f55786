/**
 * Uploads resumed after the server died (internal/server/chunked_upload.go and
 * frontend/src/workers/uploadWorker.js).  A client that finds every chunk
 * recorded sends nothing and calls no /finish; it only polls the status.
 */
module ChunkedUploadResume {
  import opened ChunkedUpload
  import opened ChunkedUploadSafety
  import opened Prelude
  import opened Slicing
  import opened UploadServer

  /** A chunk request whose list is full starts a finalisation; it is gone when the server dies. */
  ghost predicate Prompts(p: Params, s: State, e: Event, prompted: bool)
    requires Enabled(p, s, e)
  {
    !e.Crash? && (prompted || (e.WriteDone? && |s.requests[e.r].list| == p.total))
  }

  /** Nobody calls /finish: a session is loaded for finalisation only once a chunk request has prompted it. */
  ghost predicate NobodyFinishes(p: Params, s: State, es: seq<Event>, prompted: bool)
    requires Valid(p, s, es)
    decreases |es|
  {
    es == [] || ((es[0].Load? ==> prompted) && NobodyFinishes(p, Apply(p, s, es[0]), es[1..], Prompts(p, s, es[0], prompted)))
  }

  /** A run that starts with clients resuming: with every chunk recorded, they only poll. */
  ghost predicate Resumed(p: Params, s: State, es: seq<Event>)
    requires s.row.Some?
  {
    Valid(p, s, es) && (|s.row.value.done| == p.total ==> NobodyFinishes(p, s, es, false))
  }

  ghost predicate Completed(s: State) {
    s.row.Some? && s.row.value.status == Complete
  }

  ghost predicate CanComplete(p: Params, s: State)
    requires s.row.Some?
  {
    exists es :: Resumed(p, s, es) && Completed(Exec(p, s, es))
  }

  // ------------------------------------------------------------- polled for ever

  /** Nothing is in progress, and no chunk request can begin. */
  ghost predicate Idle(p: Params, s: State) {
    && s.requests == map[] && s.finalizers == map[]
    && (s.row.Some? ==> s.row.value.status == Uploading && forall i: nat | i < p.total :: i in s.row.value.done)
  }

  lemma {:induction false} IdleStep(p: Params, s: State, e: Event)
    requires Idle(p, s) && Enabled(p, s, e) && !e.Load?
    ensures Idle(p, Apply(p, s, e)) && Apply(p, s, e).media == s.media && !Prompts(p, s, e, false)
  {
  }

  /** With every chunk recorded, none being sent and nobody to finish, the session waits until it is deleted. */
  lemma {:induction false} IdleForEver(p: Params, s: State, es: seq<Event>)
    requires Idle(p, s) && Valid(p, s, es) && NobodyFinishes(p, s, es, false)
    ensures Idle(p, Exec(p, s, es)) && Exec(p, s, es).media == s.media
    decreases |es|
  {
    if es != [] {
      IdleStep(p, s, es[0]);
      IdleForEver(p, Apply(p, s, es[0]), es[1..]);
    }
  }

  // ------------------------------------------------------------- a file that is lost

  /** Chunk i is recorded, so that nobody sends it again, but its file is gone. */
  ghost predicate Gone(s: State, i: nat) {
    && i !in s.disk
    && (s.row.Some? ==> i in s.row.value.done && s.row.value.status in {Uploading, Assembling, Failed})
    && (forall r | r in s.requests :: s.requests[r].index != i && (s.requests[r].Merged? ==> i in s.requests[r].list))
    && (forall f | f in s.finalizers :: Short(s.finalizers[f], i))
  }

  ghost predicate Short(z: Finalizer, i: nat) {
    z.Loaded? || z.Claimed? || (z.Copying? && z.next <= i)
  }

  lemma {:induction false} GoneRequest(p: Params, s: State, e: Event, i: nat)
    requires Gone(s, i) && Enabled(p, s, e) && OfRequest(e)
    ensures Gone(Apply(p, s, e), i)
  {
  }

  lemma {:induction false} GoneBeforeCopy(p: Params, s: State, e: Event, i: nat)
    requires i < p.total && Gone(s, i) && Enabled(p, s, e) && (e.Load? || e.TryClaim? || e.CheckCount?)
    ensures Gone(Apply(p, s, e), i)
  {
  }

  /** The copy loop stops at the lost file at the latest. */
  lemma {:induction false} GoneInCopy(p: Params, s: State, e: Event, i: nat)
    requires i < p.total && Gone(s, i) && Enabled(p, s, e) && OfFinalizer(e) && !e.Load? && !e.TryClaim? && !e.CheckCount?
    ensures Gone(Apply(p, s, e), i)
  {
    assert Short(s.finalizers[e.f], i);
    assert e.CopyChunk? || e.Abort?;
  }

  lemma {:induction false} GoneRun(p: Params, s: State, es: seq<Event>, i: nat)
    requires i < p.total && Gone(s, i) && Valid(p, s, es)
    ensures Gone(Exec(p, s, es), i)
    decreases |es|
  {
    if es != [] {
      if OfRequest(es[0]) {
        GoneRequest(p, s, es[0], i);
      } else if OfFinalizer(es[0]) {
        if es[0].Load? || es[0].TryClaim? || es[0].CheckCount? { GoneBeforeCopy(p, s, es[0], i); } else { GoneInCopy(p, s, es[0], i); }
      }
      GoneRun(p, Apply(p, s, es[0]), es[1..], i);
    }
  }

  // --------------------------------------------------------- resuming to the end

  /** The chunks are slices of one file, and a declared hash is that file's. */
  ghost predicate Honest(p: Params) {
    Proper(p) && p.source.Some? && (p.sha.Some? ==> p.hash(p.source.value) == p.sha.value)
  }

  /** Between requests: what is recorded is stored, and nothing is in progress. */
  ghost predicate Ready(p: Params, s: State, done: seq<nat>)
    requires Honest(p)
  {
    && s.row == Some(Session(Uploading, done)) && ChunkList(p, done)
    && s.requests == map[] && s.finalizers == map[] && s.media == []
    && forall i | i in done :: i in s.disk && s.disk[i] == Slice(p.source.value, p.chunkSize, i)
  }

  lemma {:induction false} StoreOne(p: Params, s0: State, s: State, done: seq<nat>, i: nat) returns (t: State)
    requires Honest(p) && Reaches(p, s0, s) && Ready(p, s, done) && i < p.total && i !in done
    ensures Reaches(p, s0, t) && t == s.(disk := s.disk[i := Slice(p.source.value, p.chunkSize, i)], requests := map[0 := Stored(i)])
  {
    var data := Slice(p.source.value, p.chunkSize, i);
    var a := Apply(p, s, Accept(0, i, data));
    Stepped(p, s0, s, Accept(0, i, data));
    t := Apply(p, a, Store(0));
    Stepped(p, s0, a, Store(0));
  }

  lemma {:induction false} RecordOne(p: Params, s0: State, s: State, done: seq<nat>, i: nat) returns (t: State)
    requires Reaches(p, s0, s) && s.row == Some(Session(Uploading, done)) && s.requests == map[0 := Stored(i)] && i !in done
    ensures Reaches(p, s0, t) && t == s.(row := Some(Session(Uploading, done + [i])), requests := map[], acked := s.acked + {i})
  {
    var a := Apply(p, s, ReadDone(0));
    Stepped(p, s0, s, ReadDone(0));
    assert a.requests == map[0 := Merged(i, done + [i])];
    t := Apply(p, a, WriteDone(0));
    Stepped(p, s0, a, WriteDone(0));
    assert t.requests == map[];
  }

  lemma {:induction false} SendOne(p: Params, s0: State, s: State, done: seq<nat>, i: nat) returns (t: State)
    requires Honest(p) && Reaches(p, s0, s) && Ready(p, s, done) && i < p.total && i !in done
    ensures Reaches(p, s0, t) && Ready(p, t, done + [i])
  {
    var stored := StoreOne(p, s0, s, done, i);
    t := RecordOne(p, s0, stored, done, i);
    ListGrows(p, done, i);
  }

  lemma {:induction false} ListGrows(p: Params, done: seq<nat>, i: nat)
    requires ChunkList(p, done) && i < p.total && i !in done
    ensures ChunkList(p, done + [i]) && forall k: nat | k in done + [i] :: k in done || k == i
  {
  }

  lemma {:induction false} CountAtMost(done: seq<nat>, n: nat)
    requires NoDup(done) && forall i | 0 <= i < |done| :: done[i] < n
    ensures |done| <= n
  {
    DistinctCount(done);
    SubsetSize(Elements(done), Below(n));
  }

  lemma {:induction false} MissingOne(done: seq<nat>, n: nat) returns (i: nat)
    requires NoDup(done) && |done| < n
    ensures i < n && i !in done
  {
    if forall k: nat | k < n :: k in done {
      DistinctCount(done);
      SubsetSize(Below(n), Elements(done));
      assert false;
    }
    i :| i < n && i !in done;
  }

  lemma {:induction false} SendAll(p: Params, s0: State, s: State, done: seq<nat>) returns (t: State, all: seq<nat>)
    requires Honest(p) && Reaches(p, s0, s) && Ready(p, s, done)
    ensures Reaches(p, s0, t) && Ready(p, t, all) && |all| == p.total
    decreases p.total - |done|
  {
    CountAtMost(done, p.total);
    if |done| == p.total {
      t, all := s, done;
    } else {
      var i := MissingOne(done, p.total);
      var next := SendOne(p, s0, s, done, i);
      t, all := SendAll(p, s0, next, done + [i]);
    }
  }

  /** Finalisation 0 is alone, this far. */
  function With(s: State, status: Status, z: Finalizer): State {
    s.(row := WithStatus(s.row, status), finalizers := map[0 := z])
  }

  lemma {:induction false} Begin(p: Params, s0: State, s: State, done: seq<nat>) returns (t: State)
    requires Honest(p) && Reaches(p, s0, s) && Ready(p, s, done) && |done| == p.total
    ensures Reaches(p, s0, t) && t == With(s, Assembling, Copying(0, [])).(claims := s.claims + 1)
  {
    var a := Apply(p, s, Load(0));
    Stepped(p, s0, s, Load(0));
    var b := Apply(p, a, TryClaim(0));
    Stepped(p, s0, a, TryClaim(0));
    assert b.finalizers == map[0 := Claimed(done)];
    t := Apply(p, b, CheckCount(0));
    Stepped(p, s0, b, CheckCount(0));
    assert t.finalizers == map[0 := Copying(0, [])];
  }

  ghost predicate HasSlices(p: Params, s: State)
    requires Honest(p)
  {
    forall i: nat | i < p.total :: i in s.disk && s.disk[i] == Slice(p.source.value, p.chunkSize, i)
  }

  lemma {:induction false} CopyOne(p: Params, s0: State, s: State, n: nat, t: State)
    requires Honest(p) && HasSlices(p, s) && n < p.total
    requires Reaches(p, s0, s) && s.finalizers == map[0 := Copying(n, Joined(p.source.value, p.chunkSize, n))]
    requires t == s.(finalizers := map[0 := Copying(n + 1, Joined(p.source.value, p.chunkSize, n + 1))])
    ensures Reaches(p, s0, t)
  {
    Stepped(p, s0, s, CopyChunk(0));
    assert s.disk[n] == Slice(p.source.value, p.chunkSize, n);
    assert Apply(p, s, CopyChunk(0)).finalizers == t.finalizers;
  }

  lemma {:induction false} CopyAll(p: Params, s0: State, s: State, n: nat)
    requires Honest(p) && HasSlices(p, s) && n <= p.total
    requires Reaches(p, s0, s) && s.finalizers == map[0 := Copying(n, Joined(p.source.value, p.chunkSize, n))]
    ensures Reaches(p, s0, s.(finalizers := map[0 := Copying(p.total, p.source.value)]))
    decreases p.total - n
  {
    if n == p.total {
      SlicesRebuildFile(p.source.value, p.chunkSize);
      assert s.(finalizers := map[0 := Copying(p.total, p.source.value)]) == s;
    } else {
      var t := s.(finalizers := map[0 := Copying(n + 1, Joined(p.source.value, p.chunkSize, n + 1))]);
      CopyOne(p, s0, s, n, t);
      CopyAll(p, s0, t, n + 1);
    }
  }

  lemma {:induction false} CloseFull(p: Params, s0: State, s: State, buffer: Bytes) returns (t: State)
    requires Reaches(p, s0, s) && s.row.Some? && s.finalizers == map[0 := Copying(p.total, buffer)]
    ensures Reaches(p, s0, t) && t.row.Some? && t.finalizers == map[0 := Assembled(buffer)]
  {
    t := Apply(p, s, Close(0));
    Stepped(p, s0, s, Close(0));
  }

  lemma {:induction false} VerifyFull(p: Params, s0: State, s: State, buffer: Bytes) returns (t: State)
    requires Reaches(p, s0, s) && s.row.Some? && s.finalizers == map[0 := Assembled(buffer)]
    requires p.sha.Some? ==> p.hash(buffer) == p.sha.value
    ensures Reaches(p, s0, t) && t.row.Some? && t.finalizers == map[0 := Verified(buffer)]
  {
    t := Apply(p, s, Verify(0));
    Stepped(p, s0, s, Verify(0));
  }

  lemma {:induction false} CreateAndPersist(p: Params, s0: State, s: State, buffer: Bytes) returns (t: State)
    requires Reaches(p, s0, s) && s.row.Some? && s.finalizers == map[0 := Verified(buffer)]
    ensures Reaches(p, s0, t) && Completed(t)
  {
    var a := Apply(p, s, Create(0));
    Stepped(p, s0, s, Create(0));
    assert a.finalizers == map[0 := Created];
    t := Apply(p, a, Persist(0));
    Stepped(p, s0, a, Persist(0));
  }

  /** While a chunk is missing, the client sends what is missing, calls /finish, and the upload completes. */
  lemma {:induction false} ResumeSucceeds(p: Params, s: State, done: seq<nat>) returns (t: State)
    requires Honest(p) && Ready(p, s, done)
    ensures Reaches(p, s, t) && Completed(t)
  {
    assert Valid(p, s, []) && Exec(p, s, []) == s;
    var full, all := SendAll(p, s, s, done);
    Pigeonhole(all, p.total);
    var begun := Begin(p, s, full, all);
    CopyAll(p, s, begun, 0);
    var assembled := CloseFull(p, s, begun.(finalizers := map[0 := Copying(p.total, p.source.value)]), p.source.value);
    var verified := VerifyFull(p, s, assembled, p.source.value);
    t := CreateAndPersist(p, s, verified, p.source.value);
  }

  // ------------------------------------------------------------- the exact condition

  /** What is recorded is stored, and something is still to be sent. */
  ghost predicate StillSending(p: Params, s: State)
    requires s.row.Some?
  {
    s.row.value.status == Uploading && |s.row.value.done| < p.total && forall i | i in s.row.value.done :: i in s.disk
  }

  lemma {:induction false} CrashedIsReady(p: Params, x: State, s: State)
    requires Honest(p) && Reachable(p, x) && x.row.Some? && s == Apply(p, x, Crash) && StillSending(p, s)
    ensures Ready(p, s, s.row.value.done)
  {
    var es :| Valid(p, FRESH, es) && Exec(p, FRESH, es) == x;
    ReachableInv(p, es);
  }

  lemma {:induction false} NotSendingNotCompleted(p: Params, x: State, s: State, es: seq<Event>)
    requires Honest(p) && Reachable(p, x) && x.row.Some? && s == Apply(p, x, Crash)
    requires Resumed(p, s, es) && s.row.value.status != Complete && !StillSending(p, s)
    ensures !Completed(Exec(p, s, es))
  {
    var done := s.row.value.done;
    if s.row.value.status != Uploading {
      CrashAfterClaimIsFinal(p, x, es);
    } else {
      var fs :| Valid(p, FRESH, fs) && Exec(p, FRESH, fs) == x;
      ReachableInv(p, fs);
      CountAtMost(done, p.total);
      if |done| == p.total {
        Pigeonhole(done, p.total);
        IdleForEver(p, s, es);
      } else {
        var i :| i in done && i !in s.disk;
        GoneRun(p, s, es, i);
      }
    }
  }

  /**
   * After the server died and its clients resume, the upload can still complete
   * exactly when it had, or when it was neither claimed nor fully recorded and no
   * recorded chunk has lost its file.  In particular an upload whose last chunk
   * was recorded, but not yet claimed, is polled until it expires.
   */
  lemma {:induction false} ResumeCompletesIff(p: Params, x: State, s: State)
    requires Honest(p) && Reachable(p, x) && x.row.Some? && s == Apply(p, x, Crash)
    ensures CanComplete(p, s) <==> s.row.value.status == Complete || StillSending(p, s)
  {
    if s.row.value.status == Complete {
      assert Resumed(p, s, []) && Completed(Exec(p, s, []));
    } else if StillSending(p, s) {
      CrashedIsReady(p, x, s);
      var t := ResumeSucceeds(p, s, s.row.value.done);
      var es :| Valid(p, s, es) && Exec(p, s, es) == t;
      assert Resumed(p, s, es) && Completed(Exec(p, s, es));
    } else {
      forall es | Resumed(p, s, es) ensures !Completed(Exec(p, s, es)) { NotSendingNotCompleted(p, x, s, es); }
    }
  }
}
