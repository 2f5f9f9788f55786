/**
 * The chunked upload protocol: internal/server/chunked_upload.go and its client,
 * frontend/src/workers/uploadWorker.js, for one upload session.
 *
 * Chunk requests and finalisation attempts are concurrent processes made of
 * atomic statements.  Requests may arrive in any order, repeat, overlap and
 * vanish; the server may crash at any point; the session may be cancelled.
 */
module ChunkedUpload {
  import opened Prelude
  import opened Slicing

  // ------------------------------------------------------------- state machine

  datatype Status = Uploading | Assembling | Verifying | Processing | Complete | Failed

  datatype Session = Session(status: Status, done: seq<nat>)

  datatype Request =
    | Accepted(index: nat, data: Bytes)
    | Stored(index: nat)
    | Merged(index: nat, list: seq<nat>)

  datatype Finalizer =
    | Loaded(seen: Status, done: seq<nat>)
    | Claimed(done: seq<nat>)
    | Copying(next: nat, buffer: Bytes)
    | Assembled(buffer: Bytes)
    | Verified(buffer: Bytes)
    | Created
    | Persisted
  {
    predicate Holds() { !Loaded? }

    /** The status its own writes have left on the row. */
    function Status(): Status
      requires Holds()
    {
      match this
      case Claimed(_) => Assembling
      case Copying(_, _) => Assembling
      case Assembled(_) => Verifying
      case Verified(_) => Processing
      case Created => Processing
      case Persisted => Complete
    }
  }

  /**
   * What /start declared.  With `source` given, every chunk sent is that file's
   * slice; without it the chunks may hold anything.
   */
  datatype Params = Params(total: nat, chunkSize: nat, sha: Option<string>, hash: Bytes -> string, source: Option<Bytes>)

  ghost predicate Proper(p: Params) {
    && p.total > 0 && p.chunkSize > 0
    && (p.source.Some? ==> p.total == ChunkCount(|p.source.value|, p.chunkSize))
  }

  /**
   * `removed` records that the chunk directory was deleted, `claims` how often
   * finalisation was claimed, `acked` the indices reported as received, `media`
   * the byte strings handed to the media service.
   */
  datatype State = State(row: Option<Session>, disk: map<nat, Bytes>, requests: map<int, Request>,
                         finalizers: map<int, Finalizer>, removed: bool, claims: nat, acked: set<nat>, media: seq<Bytes>)

  const FRESH := State(Some(Session(Uploading, [])), map[], map[], map[], false, 0, {}, [])

  datatype Event =
    | Accept(r: int, index: nat, data: Bytes)
    | Store(r: int)
    | ReadDone(r: int)
    | WriteDone(r: int)
    | Drop(r: int)
    | Load(f: int)
    | TryClaim(f: int)
    | CheckCount(f: int)
    | CopyChunk(f: int)
    | Close(f: int)
    | Verify(f: int)
    | Create(f: int)
    | Persist(f: int)
    | Cleanup(f: int)
    | Abort(f: int)
    | RemoveFiles
    | DeleteRow
    | Crash

  ghost predicate Enabled(p: Params, s: State, e: Event) {
    match e
    case Accept(r, index, data) =>
      && r !in s.requests && s.row.Some? && index < p.total && index !in s.row.value.done && |data| <= p.chunkSize
      && (p.source.Some? ==> p.chunkSize > 0 && data == Slice(p.source.value, p.chunkSize, index))
    case Store(r) => r in s.requests && s.requests[r].Accepted?
    case ReadDone(r) => r in s.requests && s.requests[r].Stored?
    case WriteDone(r) => r in s.requests && s.requests[r].Merged?
    case Drop(r) => r in s.requests
    case Load(f) => f !in s.finalizers && s.row.Some?
    case TryClaim(f) => f in s.finalizers && s.finalizers[f].Loaded?
    case CheckCount(f) => f in s.finalizers && s.finalizers[f].Claimed?
    case CopyChunk(f) => f in s.finalizers && s.finalizers[f].Copying? && s.finalizers[f].next < p.total
    case Close(f) => f in s.finalizers && s.finalizers[f].Copying? && s.finalizers[f].next >= p.total
    case Verify(f) => f in s.finalizers && s.finalizers[f].Assembled?
    case Create(f) => f in s.finalizers && s.finalizers[f].Verified?
    case Persist(f) => f in s.finalizers && s.finalizers[f].Created?
    case Cleanup(f) => f in s.finalizers && s.finalizers[f].Persisted?
    case Abort(f) => f in s.finalizers && Abortable(s.finalizers[f])
    case RemoveFiles => true
    case DeleteRow => true
    case Crash => true
  }

  /** Any I/O error before the media file exists ends in updateUploadStatus(..., "failed"). */
  predicate Abortable(z: Finalizer) {
    z.Claimed? || z.Copying? || z.Assembled? || z.Verified?
  }

  /** UPDATE upload_sessions SET status = ? WHERE upload_id = ?: no guard on the old status. */
  function WithStatus(row: Option<Session>, status: Status): Option<Session> {
    match row
    case None => None
    case Some(session) => Some(session.(status := status))
  }

  function Move(s: State, f: int, z: Finalizer): State {
    s.(finalizers := s.finalizers[f := z])
  }

  function Leave(s: State, f: int): State {
    s.(finalizers := s.finalizers - {f})
  }

  function FailAndLeave(s: State, f: int): State {
    Leave(s, f).(row := WithStatus(s.row, Failed))
  }

  function Merge(done: seq<nat>, index: nat): seq<nat> {
    if index in done then done else done + [index]
  }

  ghost function Apply(p: Params, s: State, e: Event): State
    requires Enabled(p, s, e)
  {
    match e
    case Accept(r, index, data) => s.(requests := s.requests[r := Accepted(index, data)])
    case Store(r) =>
      var q := s.requests[r];
      s.(disk := s.disk[q.index := q.data], requests := s.requests[r := Stored(q.index)])
    case ReadDone(r) =>
      if s.row.None? then s.(requests := s.requests - {r})
      else s.(requests := s.requests[r := Merged(s.requests[r].index, Merge(s.row.value.done, s.requests[r].index))])
    case WriteDone(r) =>
      var q := s.requests[r];
      s.(requests := s.requests - {r}, acked := s.acked + {q.index},
         row := if s.row.None? then None else Some(s.row.value.(done := q.list)))
    case Drop(r) => s.(requests := s.requests - {r})
    case Load(f) => Move(s, f, Loaded(s.row.value.status, s.row.value.done))
    case TryClaim(f) =>
      var z := s.finalizers[f];
      if z.seen == Uploading && s.row.Some? && s.row.value.status == Uploading
      then Move(s, f, Claimed(z.done)).(row := WithStatus(s.row, Assembling), claims := s.claims + 1)
      else Leave(s, f)
    case CheckCount(f) =>
      if |s.finalizers[f].done| != p.total then FailAndLeave(s, f) else Move(s, f, Copying(0, []))
    case CopyChunk(f) =>
      var z := s.finalizers[f];
      if z.next in s.disk then Move(s, f, Copying(z.next + 1, z.buffer + s.disk[z.next])) else FailAndLeave(s, f)
    case Close(f) => Move(s, f, Assembled(s.finalizers[f].buffer)).(row := WithStatus(s.row, Verifying))
    case Verify(f) =>
      var buffer := s.finalizers[f].buffer;
      if p.sha.Some? && p.hash(buffer) != p.sha.value then FailAndLeave(s, f)
      else Move(s, f, Verified(buffer)).(row := WithStatus(s.row, Processing))
    case Create(f) => Move(s, f, Created).(media := s.media + [s.finalizers[f].buffer])
    case Persist(f) => Move(s, f, Persisted).(row := WithStatus(s.row, Complete))
    case Cleanup(f) => Leave(s, f).(disk := map[], removed := true)
    case Abort(f) => FailAndLeave(s, f)
    case RemoveFiles => s.(disk := map[], removed := true)
    case DeleteRow => s.(row := None)
    case Crash => s.(requests := map[], finalizers := map[])
  }

  ghost predicate Valid(p: Params, s: State, es: seq<Event>)
    decreases |es|
  {
    es == [] || (Enabled(p, s, es[0]) && Valid(p, Apply(p, s, es[0]), es[1..]))
  }

  ghost function Exec(p: Params, s: State, es: seq<Event>): State
    requires Valid(p, s, es)
    decreases |es|
  {
    if es == [] then s else Exec(p, Apply(p, s, es[0]), es[1..])
  }

  // ----------------------------------------------------------------- invariant

  ghost predicate ChunkList(p: Params, done: seq<nat>) {
    NoDup(done) && forall i | 0 <= i < |done| :: done[i] < p.total
  }

  /** Until the directory is deleted, a recorded index has its file. */
  ghost predicate OnDisk(s: State, done: seq<nat>) {
    !s.removed ==> forall i | 0 <= i < |done| :: done[i] in s.disk
  }

  ghost predicate GoodRequest(p: Params, s: State, q: Request) {
    q.index < p.total && match q
      case Accepted(index, data) => p.source.Some? ==> p.chunkSize > 0 && data == Slice(p.source.value, p.chunkSize, index)
      case Stored(index) => !s.removed ==> index in s.disk
      case Merged(index, list) => ChunkList(p, list) && OnDisk(s, list) && index in list
  }

  ghost predicate ChunksRecorded(p: Params, s: State) {
    && (s.row.Some? ==> ChunkList(p, s.row.value.done) && OnDisk(s, s.row.value.done))
    && (forall r | r in s.requests :: GoodRequest(p, s, s.requests[r]))
  }

  ghost predicate HonestBytes(p: Params, s: State) {
    p.source.Some? && p.chunkSize > 0 ==>
      && (forall i | i in s.disk :: s.disk[i] == Slice(p.source.value, p.chunkSize, i))
      && (forall k | 0 <= k < |s.media| :: s.media[k] == Joined(p.source.value, p.chunkSize, p.total))
  }

  ghost predicate GoodBuffer(p: Params, buffer: Bytes, n: nat) {
    p.source.Some? && p.chunkSize > 0 ==> buffer == Joined(p.source.value, p.chunkSize, n)
  }

  ghost predicate GoodFinalizer(p: Params, s: State, z: Finalizer) {
    match z
    case Loaded(_, done) => ChunkList(p, done) && OnDisk(s, done)
    case Claimed(done) => ChunkList(p, done) && OnDisk(s, done) && s.media == []
    case Copying(next, buffer) =>
      && next <= p.total && GoodBuffer(p, buffer, next) && s.media == []
      && (!s.removed ==> forall i: nat | i < p.total :: i in s.disk)
    case Assembled(buffer) => GoodBuffer(p, buffer, p.total) && s.media == []
    case Verified(buffer) =>
      && GoodBuffer(p, buffer, p.total) && s.media == []
      && (p.sha.Some? ==> p.hash(buffer) == p.sha.value)
    case Created => |s.media| == 1
    case Persisted => |s.media| == 1
  }

  ghost predicate Claiming(p: Params, s: State) {
    && s.claims <= 1 && |s.media| <= s.claims
    && (s.row.Some? ==> (s.row.value.status == Uploading <==> s.claims == 0))
    && (s.row.Some? && s.row.value.status == Complete ==> |s.media| == 1)
    && (p.sha.Some? ==> forall k | 0 <= k < |s.media| :: p.hash(s.media[k]) == p.sha.value)
    && (forall f | f in s.finalizers && s.finalizers[f].Holds() ::
          s.claims == 1 && (s.row.Some? ==> s.row.value.status == s.finalizers[f].Status()))
    && (forall f, g | f in s.finalizers && g in s.finalizers && s.finalizers[f].Holds() && s.finalizers[g].Holds() :: f == g)
  }

  ghost predicate Inv(p: Params, s: State) {
    && ChunksRecorded(p, s) && HonestBytes(p, s) && Claiming(p, s)
    && forall f | f in s.finalizers :: GoodFinalizer(p, s, s.finalizers[f])
  }

  /** A finaliser's facts survive anything that keeps the chunk files and the media list. */
  lemma {:induction false} FinalizersKept(p: Params, s: State, t: State)
    requires forall f | f in s.finalizers :: GoodFinalizer(p, s, s.finalizers[f])
    requires t.finalizers == s.finalizers && t.media == s.media
    requires t.removed || (!s.removed && s.disk.Keys <= t.disk.Keys)
    ensures forall f | f in t.finalizers :: GoodFinalizer(p, t, t.finalizers[f])
  {
    forall f | f in t.finalizers ensures GoodFinalizer(p, t, t.finalizers[f]) {
      assert GoodFinalizer(p, s, s.finalizers[f]);
    }
  }

  lemma {:induction false} RequestsKept(p: Params, s: State, t: State, r: int)
    requires forall q | q in s.requests :: GoodRequest(p, s, s.requests[q])
    requires forall q | q in t.requests && q != r :: q in s.requests && t.requests[q] == s.requests[q]
    requires r in t.requests ==> GoodRequest(p, t, t.requests[r])
    requires t.removed || (!s.removed && s.disk.Keys <= t.disk.Keys)
    ensures forall q | q in t.requests :: GoodRequest(p, t, t.requests[q])
  {
    forall q | q in t.requests ensures GoodRequest(p, t, t.requests[q]) {
      if q != r { assert GoodRequest(p, s, s.requests[q]); }
    }
  }

  lemma {:induction false} MergeKeepsList(p: Params, s: State, done: seq<nat>, index: nat)
    requires ChunkList(p, done) && OnDisk(s, done) && index < p.total && (!s.removed ==> index in s.disk)
    ensures ChunkList(p, Merge(done, index)) && OnDisk(s, Merge(done, index)) && index in Merge(done, index)
  {
    if index !in done {
      var m := Merge(done, index);
      assert m[|done|] == index;
    }
  }

  lemma {:induction false} ChunkStep(p: Params, s: State, e: Event)
    requires Proper(p) && Inv(p, s) && Enabled(p, s, e)
    requires e.Accept? || e.Drop? || e.Store?
    ensures Inv(p, Apply(p, s, e))
  {
    var t := Apply(p, s, e);
    if e.r in s.requests { assert GoodRequest(p, s, s.requests[e.r]); }
    FinalizersKept(p, s, t);
    RequestsKept(p, s, t, e.r);
  }

  lemma {:induction false} DoneStep(p: Params, s: State, e: Event)
    requires Proper(p) && Inv(p, s) && Enabled(p, s, e)
    requires e.ReadDone? || e.WriteDone?
    ensures Inv(p, Apply(p, s, e))
  {
    var t := Apply(p, s, e);
    assert GoodRequest(p, s, s.requests[e.r]);
    if e.ReadDone? && s.row.Some? {
      MergeKeepsList(p, s, s.row.value.done, s.requests[e.r].index);
    }
    FinalizersKept(p, s, t);
    RequestsKept(p, s, t, e.r);
  }

  lemma {:induction false} LoadStep(p: Params, s: State, f: int)
    requires Proper(p) && Inv(p, s) && Enabled(p, s, Load(f))
    ensures Inv(p, Apply(p, s, Load(f)))
  {
    var t := Apply(p, s, Load(f));
    forall g | g in t.finalizers ensures GoodFinalizer(p, t, t.finalizers[g]) {
      if g in s.finalizers { assert GoodFinalizer(p, s, s.finalizers[g]); }
    }
    RequestsKept(p, s, t, 0);
  }

  ghost predicate Claimable(s: State, f: int)
    requires f in s.finalizers && s.finalizers[f].Loaded?
  {
    s.finalizers[f].seen == Uploading && s.row.Some? && s.row.value.status == Uploading
  }

  lemma {:induction false} ClaimLost(p: Params, s: State, f: int)
    requires Proper(p) && Inv(p, s) && Enabled(p, s, TryClaim(f)) && !Claimable(s, f)
    ensures Inv(p, Apply(p, s, TryClaim(f)))
  {
    var t := Apply(p, s, TryClaim(f));
    assert t == Leave(s, f);
    forall g | g in t.finalizers ensures GoodFinalizer(p, t, t.finalizers[g]) {
      assert GoodFinalizer(p, s, s.finalizers[g]);
    }
    RequestsKept(p, s, t, 0);
  }

  lemma {:induction false} ClaimWon(p: Params, s: State, f: int)
    requires Proper(p) && Inv(p, s) && Enabled(p, s, TryClaim(f)) && Claimable(s, f)
    ensures Inv(p, Apply(p, s, TryClaim(f)))
  {
    var t := Apply(p, s, TryClaim(f));
    assert s.claims == 0;
    forall g | g in t.finalizers ensures GoodFinalizer(p, t, t.finalizers[g]) && (t.finalizers[g].Holds() ==> g == f) {
      assert GoodFinalizer(p, s, s.finalizers[g]);
    }
    RequestsKept(p, s, t, 0);
  }

  /**
   * The one finaliser that holds the claim advances to z, or leaves when z is
   * None, writing the row and the media list as it goes.
   */
  lemma {:induction false} HolderAdvances(p: Params, s: State, t: State, f: int, z: Option<Finalizer>)
    requires Proper(p) && Inv(p, s) && f in s.finalizers && s.finalizers[f].Holds()
    requires t == s.(row := t.row, media := t.media,
                     finalizers := if z.Some? then s.finalizers[f := z.value] else s.finalizers - {f})
    requires t.row.Some? <==> s.row.Some?
    requires t.row.Some? ==>
      && t.row.value.done == s.row.value.done && t.row.value.status != Uploading
      && (t.row.value.status == Complete ==> |t.media| == 1)
    requires z.Some? ==>
      && z.value.Holds() && GoodFinalizer(p, t, z.value)
      && (t.row.Some? ==> t.row.value.status == z.value.Status())
    requires |t.media| <= 1 && HonestBytes(p, t)
    requires p.sha.Some? ==> forall k | 0 <= k < |t.media| :: p.hash(t.media[k]) == p.sha.value
    ensures Inv(p, t)
  {
    forall g | g in t.finalizers ensures GoodFinalizer(p, t, t.finalizers[g]) {
      if g != f {
        assert t.finalizers[g] == s.finalizers[g] && s.finalizers[g].Loaded?;
        assert GoodFinalizer(p, s, s.finalizers[g]);
      }
    }
    RequestsKept(p, s, t, 0);
  }

  lemma {:induction false} CheckCountStep(p: Params, s: State, f: int)
    requires Proper(p) && Inv(p, s) && Enabled(p, s, CheckCount(f))
    ensures Inv(p, Apply(p, s, CheckCount(f)))
  {
    var z := s.finalizers[f];
    assert GoodFinalizer(p, s, z);
    var t := Apply(p, s, CheckCount(f));
    if |z.done| == p.total {
      Pigeonhole(z.done, p.total);
      forall i: nat | !s.removed && i < p.total ensures i in s.disk {
        assert i in z.done;
      }
      HolderAdvances(p, s, t, f, Some(Copying(0, [])));
    } else {
      HolderAdvances(p, s, t, f, None);
    }
  }

  lemma {:induction false} CopyStep(p: Params, s: State, f: int)
    requires Proper(p) && Inv(p, s) && Enabled(p, s, CopyChunk(f))
    ensures Inv(p, Apply(p, s, CopyChunk(f)))
  {
    var z := s.finalizers[f];
    assert GoodFinalizer(p, s, z);
    var t := Apply(p, s, CopyChunk(f));
    if z.next in s.disk {
      HolderAdvances(p, s, t, f, Some(Copying(z.next + 1, z.buffer + s.disk[z.next])));
    } else {
      HolderAdvances(p, s, t, f, None);
    }
  }

  lemma {:induction false} VerifyStep(p: Params, s: State, f: int)
    requires Proper(p) && Inv(p, s) && Enabled(p, s, Verify(f))
    ensures Inv(p, Apply(p, s, Verify(f)))
  {
    var z := s.finalizers[f];
    assert GoodFinalizer(p, s, z);
    var t := Apply(p, s, Verify(f));
    if p.sha.Some? && p.hash(z.buffer) != p.sha.value {
      HolderAdvances(p, s, t, f, None);
    } else {
      HolderAdvances(p, s, t, f, Some(Verified(z.buffer)));
    }
  }

  lemma {:induction false} FinishStep(p: Params, s: State, e: Event)
    requires Proper(p) && Inv(p, s) && Enabled(p, s, e) && (e.Close? || e.Create? || e.Persist? || e.Abort?)
    ensures Inv(p, Apply(p, s, e))
  {
    var f := e.f;
    var t := Apply(p, s, e);
    assert GoodFinalizer(p, s, s.finalizers[f]);
    HolderAdvances(p, s, t, f, if e.Abort? then None else Some(t.finalizers[f]));
  }

  lemma {:induction false} RemovalStep(p: Params, s: State, e: Event)
    requires Proper(p) && Inv(p, s) && (e.RemoveFiles? || e.DeleteRow? || e.Crash?)
    ensures Inv(p, Apply(p, s, e))
  {
    var t := Apply(p, s, e);
    forall g | g in t.finalizers ensures GoodFinalizer(p, t, t.finalizers[g]) {
      assert GoodFinalizer(p, s, s.finalizers[g]);
    }
    RequestsKept(p, s, t, 0);
  }

  lemma {:induction false} LeaveStep(p: Params, s: State, f: int)
    requires Proper(p) && Inv(p, s) && f in s.finalizers && s.finalizers[f].Persisted?
    ensures Inv(p, Leave(s, f))
  {
    HolderAdvances(p, s, Leave(s, f), f, None);
  }

  lemma {:induction false} CleanupStep(p: Params, s: State, f: int)
    requires Proper(p) && Inv(p, s) && Enabled(p, s, Cleanup(f))
    ensures Inv(p, Apply(p, s, Cleanup(f)))
  {
    var left := Leave(s, f);
    assert Inv(p, left) by { LeaveStep(p, s, f); }
    assert Inv(p, Apply(p, left, RemoveFiles)) by { RemovalStep(p, left, RemoveFiles); }
    assert Apply(p, s, Cleanup(f)) == Apply(p, left, RemoveFiles);
  }

  lemma {:induction false} StepPreserves(p: Params, s: State, e: Event)
    requires Proper(p) && Inv(p, s) && Enabled(p, s, e)
    ensures Inv(p, Apply(p, s, e))
  {
    match e
    case Load(f) => LoadStep(p, s, f);
    case TryClaim(f) => if Claimable(s, f) { ClaimWon(p, s, f); } else { ClaimLost(p, s, f); }
    case CheckCount(f) => CheckCountStep(p, s, f);
    case CopyChunk(f) => CopyStep(p, s, f);
    case Verify(f) => VerifyStep(p, s, f);
    case Cleanup(f) => CleanupStep(p, s, f);
    case RemoveFiles => RemovalStep(p, s, e);
    case DeleteRow => RemovalStep(p, s, e);
    case Crash => RemovalStep(p, s, e);
    case Close(_) => FinishStep(p, s, e);
    case Create(_) => FinishStep(p, s, e);
    case Persist(_) => FinishStep(p, s, e);
    case Abort(_) => FinishStep(p, s, e);
    case ReadDone(_) => DoneStep(p, s, e);
    case WriteDone(_) => DoneStep(p, s, e);
    case _ => ChunkStep(p, s, e);
  }

  lemma {:induction false} RunPreserves(p: Params, s: State, es: seq<Event>)
    requires Proper(p) && Inv(p, s) && Valid(p, s, es)
    ensures Inv(p, Exec(p, s, es))
    decreases |es|
  {
    if es != [] {
      StepPreserves(p, s, es[0]);
      RunPreserves(p, Apply(p, s, es[0]), es[1..]);
    }
  }
}
