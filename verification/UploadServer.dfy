/**
 * The upload handlers as code: their methods are runs of the ChunkedUpload
 * machine with arbitrary interference between the statements.
 */
module UploadServer {
  import opened ChunkedUpload
  import opened ChunkedUploadSafety
  import opened Prelude
  import opened Slicing

  /** Events of everyone but process k, while the server lives. */
  ghost predicate Apart(k: int, es: seq<Event>) {
    forall i | 0 <= i < |es| :: NotBy(k, es[i])
  }

  predicate OfRequest(e: Event) {
    e.Accept? || e.Store? || e.ReadDone? || e.WriteDone? || e.Drop?
  }

  predicate OfFinalizer(e: Event) {
    e.Load? || e.TryClaim? || e.CheckCount? || e.CopyChunk? || e.Close? || e.Verify? || e.Create? || e.Persist? || e.Cleanup? || e.Abort?
  }

  ghost predicate NotBy(k: int, e: Event) {
    !e.Crash? && (OfRequest(e) ==> e.r != k) && (OfFinalizer(e) ==> e.f != k)
  }

  ghost predicate Reaches(p: Params, s: State, t: State) {
    exists es :: Valid(p, s, es) && Exec(p, s, es) == t
  }

  ghost predicate ReachesApart(p: Params, k: int, s: State, t: State) {
    exists es :: Apart(k, es) && Valid(p, s, es) && Exec(p, s, es) == t
  }

  ghost predicate SameProcess(k: int, s: State, t: State) {
    && (k in s.requests <==> k in t.requests) && (k in s.requests ==> t.requests[k] == s.requests[k])
    && (k in s.finalizers <==> k in t.finalizers) && (k in s.finalizers ==> t.finalizers[k] == s.finalizers[k])
    && s.claims <= t.claims && s.media <= t.media
  }

  lemma {:induction false} ApartRequest(p: Params, k: int, s: State, e: Event)
    requires OfRequest(e) && NotBy(k, e) && Enabled(p, s, e)
    ensures SameProcess(k, s, Apply(p, s, e))
  {
  }

  lemma {:induction false} ApartFinalizer(p: Params, k: int, s: State, e: Event)
    requires OfFinalizer(e) && NotBy(k, e) && Enabled(p, s, e)
    ensures SameProcess(k, s, Apply(p, s, e))
  {
  }

  lemma {:induction false} ApartStep(p: Params, k: int, s: State, e: Event)
    requires NotBy(k, e) && Enabled(p, s, e)
    ensures SameProcess(k, s, Apply(p, s, e))
  {
    if OfRequest(e) {
      ApartRequest(p, k, s, e);
    } else if OfFinalizer(e) {
      ApartFinalizer(p, k, s, e);
    }
  }

  lemma {:induction false} ApartFrame(p: Params, k: int, s: State, es: seq<Event>)
    requires Apart(k, es) && Valid(p, s, es)
    ensures SameProcess(k, s, Exec(p, s, es))
    decreases |es|
  {
    if es != [] {
      ApartStep(p, k, s, es[0]);
      ApartFrame(p, k, Apply(p, s, es[0]), es[1..]);
    }
  }

  lemma {:induction false} ExecSplit(p: Params, s: State, es: seq<Event>, fs: seq<Event>)
    requires Valid(p, s, es) && Valid(p, Exec(p, s, es), fs)
    ensures Valid(p, s, es + fs) && Exec(p, s, es + fs) == Exec(p, Exec(p, s, es), fs)
    decreases |es|
  {
    if es == [] {
      assert es + fs == fs;
    } else {
      assert (es + fs)[1..] == es[1..] + fs;
      ExecSplit(p, Apply(p, s, es[0]), es[1..], fs);
    }
  }

  lemma {:induction false} ReachesChain(p: Params, s: State, t: State, u: State)
    requires Reaches(p, s, t) && Reaches(p, t, u)
    ensures Reaches(p, s, u)
  {
    var es :| Valid(p, s, es) && Exec(p, s, es) == t;
    var fs :| Valid(p, t, fs) && Exec(p, t, fs) == u;
    ExecSplit(p, s, es, fs);
  }

  /** What the others do keeps process k in place and leads on from where the run stands. */
  lemma {:induction false} Interfered(p: Params, k: int, s0: State, s: State, t: State)
    requires Reaches(p, s0, s) && ReachesApart(p, k, s, t)
    ensures Reaches(p, s0, t) && SameProcess(k, s, t)
  {
    var es :| Apart(k, es) && Valid(p, s, es) && Exec(p, s, es) == t;
    ApartFrame(p, k, s, es);
    ReachesChain(p, s0, s, t);
  }

  ghost predicate Reachable(p: Params, s: State) {
    Reaches(p, FRESH, s)
  }

  lemma {:induction false} Stepped(p: Params, s0: State, s: State, e: Event)
    requires Reaches(p, s0, s) && Enabled(p, s, e)
    ensures Reaches(p, s0, Apply(p, s, e))
  {
    OneStep(p, s, e);
    ReachesChain(p, s0, s, Apply(p, s, e));
  }

  lemma {:induction false} OneStep(p: Params, s: State, e: Event)
    requires Enabled(p, s, e)
    ensures Reaches(p, s, Apply(p, s, e))
  {
    var es := [e];
    assert es[1..] == [];
    assert Valid(p, Apply(p, s, e), es[1..]) && Exec(p, Apply(p, s, e), es[1..]) == Apply(p, s, e);
    assert Valid(p, s, es) && Exec(p, s, es) == Apply(p, s, e);
  }

  /** The session row, unless it was deleted, shows this status. */
  ghost predicate Shows(s: State, status: Status) {
    s.row.Some? ==> s.row.value.status == status
  }

  /** The invariant of a state reached from a reachable one, for the finaliser at hand. */
  lemma {:induction false} FinalizerFacts(p: Params, s0: State, s: State, f: int)
    requires Proper(p) && Reachable(p, s0) && Reaches(p, s0, s) && f in s.finalizers
    ensures GoodFinalizer(p, s, s.finalizers[f]) && |s.media| <= 1
    ensures s.finalizers[f].Holds() ==> s.claims == 1 && OnlyHolder(s, f) && Shows(s, s.finalizers[f].Status())
    ensures s.finalizers[f].Assembled? && p.source.Some? ==> s.finalizers[f].buffer == p.source.value
  {
    ReachesChain(p, FRESH, s0, s);
    var es :| Valid(p, FRESH, es) && Exec(p, FRESH, es) == s;
    ReachableInv(p, es);
    if p.source.Some? { SlicesRebuildFile(p.source.value, p.chunkSize); }
  }

  /** Uploading until the first claim and never again. */
  lemma {:induction false} StatusFacts(p: Params, s0: State, s: State)
    requires Proper(p) && Reachable(p, s0) && Reaches(p, s0, s) && s.row.Some?
    ensures s.row.value.status == Uploading <==> s.claims == 0
  {
    ReachesChain(p, FRESH, s0, s);
    var es :| Valid(p, FRESH, es) && Exec(p, FRESH, es) == s;
    ReachableInv(p, es);
  }

  /** One more chunk is in the buffer, or its file is gone with the whole directory. */
  lemma {:induction false} Copied(p: Params, s0: State, s: State, f: int)
    requires Proper(p) && Reachable(p, s0) && Reaches(p, s0, s)
    requires f in s.finalizers && s.finalizers[f].Copying? && s.finalizers[f].next < p.total
    ensures var z := s.finalizers[f];
      Reaches(p, s0, if z.next in s.disk then Move(s, f, Copying(z.next + 1, z.buffer + s.disk[z.next])) else FailAndLeave(s, f))
    ensures s.finalizers[f].next !in s.disk ==> s.removed
  {
    FinalizerFacts(p, s0, s, f);
    Stepped(p, s0, s, CopyChunk(f));
  }

  /** The compare-and-swap succeeds only before any claim, and leaves one holder. */
  lemma {:induction false} ClaimTried(p: Params, s0: State, s: State, f: int)
    requires Proper(p) && Reachable(p, s0) && Reaches(p, s0, s) && f in s.finalizers && s.finalizers[f].Loaded?
    ensures var won := s.finalizers[f].seen == Uploading && s.row.Some? && s.row.value.status == Uploading;
      var t := if won then Move(s, f, Claimed(s.finalizers[f].done)).(row := WithStatus(s.row, Assembling), claims := s.claims + 1)
               else Leave(s, f);
      Reaches(p, s0, t) && (won ==> t.claims == 1 && OnlyHolder(t, f))
    ensures s.row.Some? ==> (s.row.value.status == Uploading <==> s.claims == 0)
  {
    var t := Apply(p, s, TryClaim(f));
    Stepped(p, s0, s, TryClaim(f));
    if f in t.finalizers { FinalizerFacts(p, s0, t, f); }
    if s.row.Some? { StatusFacts(p, s0, s); }
  }

  lemma {:induction false} Counted(p: Params, s0: State, s: State, f: int)
    requires Reaches(p, s0, s) && f in s.finalizers && s.finalizers[f].Claimed?
    ensures Reaches(p, s0, if |s.finalizers[f].done| == p.total then Move(s, f, Copying(0, [])) else FailAndLeave(s, f))
  {
    Stepped(p, s0, s, CheckCount(f));
  }

  lemma {:induction false} Closed(p: Params, s0: State, s: State, f: int)
    requires Proper(p) && Reachable(p, s0) && Reaches(p, s0, s)
    requires f in s.finalizers && s.finalizers[f].Copying? && s.finalizers[f].next == p.total
    ensures var buffer := s.finalizers[f].buffer;
      && Reaches(p, s0, Move(s, f, Assembled(buffer)).(row := WithStatus(s.row, Verifying)))
      && (p.source.Some? ==> buffer == p.source.value)
  {
    var t := Apply(p, s, Close(f));
    Stepped(p, s0, s, Close(f));
    FinalizerFacts(p, s0, t, f);
  }

  lemma {:induction false} HandedOver(p: Params, s0: State, s: State, f: int)
    requires Proper(p) && Reachable(p, s0) && Reaches(p, s0, s) && f in s.finalizers && s.finalizers[f].Verified?
    ensures s.media == [] && Reaches(p, s0, Move(s, f, Created).(media := [s.finalizers[f].buffer]))
  {
    FinalizerFacts(p, s0, s, f);
    assert [] + [s.finalizers[f].buffer] == [s.finalizers[f].buffer];
    Stepped(p, s0, s, Create(f));
  }

  /** Once the media file exists nobody else changes the media list or the status. */
  lemma {:induction false} Settled(p: Params, s0: State, s: State, t: State, f: int)
    requires Proper(p) && Reachable(p, s0) && Reaches(p, s0, s) && Reaches(p, s0, t) && SameProcess(f, s, t)
    requires f in s.finalizers && (s.finalizers[f].Created? || s.finalizers[f].Persisted?)
    ensures t.media == s.media && Shows(t, s.finalizers[f].Status())
  {
    FinalizerFacts(p, s0, s, f);
    FinalizerFacts(p, s0, t, f);
  }

  lemma {:induction false} RequestFacts(p: Params, s0: State, s: State, r: int)
    requires Proper(p) && Reachable(p, s0) && Reaches(p, s0, s) && r in s.requests
    ensures GoodRequest(p, s, s.requests[r])
  {
    ReachesChain(p, FRESH, s0, s);
    var es :| Valid(p, FRESH, es) && Exec(p, FRESH, es) == s;
    ReachableInv(p, es);
  }

  ghost predicate OnlyHolder(s: State, f: int) {
    forall g | g in s.finalizers && s.finalizers[g].Holds() :: g == f
  }

  ghost predicate ReportedList(p: Params, s: State, index: nat, done: seq<nat>) {
    ChunkList(p, done) && OnDisk(s, done) && index in done && (s.row.Some? ==> s.row.value.done == done)
  }

  ghost predicate PastUploading(s: State) {
    s.row.Some? ==> s.row.value.status != Uploading
  }

  /** How a finalisation ends, as the errors it returns tell apart. */
  datatype Outcome =
    | LostClaim
    | ShortCount(have: nat)
    | FileFailure
    | HashMismatch(file: Bytes)
    | Refused(file: Bytes)
    | Delivered(file: Bytes)

  datatype Assembly = Short(have: nat) | Broken | Whole(file: Bytes)

  ghost predicate AllStored(p: Params, disk: map<nat, Bytes>) {
    forall i: nat | i < p.total :: i in disk
  }

  /** The chunk files from 0 to n, one after the other. */
  ghost function Content(disk: map<nat, Bytes>, n: nat): Bytes
    requires forall i: nat | i < n :: i in disk
  {
    if n == 0 then [] else Content(disk, n - 1) + disk[n - 1]
  }

  class Server {
    const p: Params
    /** No other process exists, so that nothing happens between the statements of one. */
    ghost const alone: bool
    var row: Option<Session>
    var disk: map<nat, Bytes>
    var requests: map<int, Request>
    var finalizers: map<int, Finalizer>
    ghost var removed: bool
    ghost var claims: nat
    ghost var acked: set<nat>
    var media: seq<Bytes>

    ghost function Model(): State
      reads this
    {
      State(row, disk, requests, finalizers, removed, claims, acked, media)
    }

    constructor (p: Params, ghost alone: bool)
      requires Proper(p)
      ensures this.p == p && this.alone == alone && Model() == FRESH
    {
      this.p, this.alone := p, alone;
      row, disk, requests, finalizers, media := Some(Session(Uploading, [])), map[], map[], map[], [];
      removed, claims, acked := false, 0, {};
    }

    /** Everyone else's steps between two statements of process k; callers know only the contract. */
    method Interfere(k: int)
      modifies this
      ensures ReachesApart(p, k, old(Model()), Model())
      ensures alone ==> Model() == old(Model())
    {
      assert Apart(k, []) && Valid(p, Model(), []) && Exec(p, Model(), []) == Model();
    }

    /** Let the others act; whatever they do, process k finds itself where it was. */
    method Yield(k: int, ghost start: State)
      requires Reaches(p, start, Model())
      modifies this
      ensures Reaches(p, start, Model()) && SameProcess(k, old(Model()), Model())
      ensures alone ==> Model() == old(Model())
    {
      ghost var before := Model();
      Interfere(k);
      Interfered(p, k, start, before, Model());
    }

    /**
     * Read-modify-write of chunks_done with no transaction around it.  The list
     * it writes may be stale by then; it is still a list of stored chunks.
     */
    method AddChunkDone(r: int, ghost start: State) returns (done: Option<seq<nat>>)
      requires Proper(p) && Reachable(p, start) && Reaches(p, start, Model()) && r in requests && requests[r].Stored?
      modifies this
      ensures Reaches(p, start, Model()) && r !in requests
      ensures done.None? <==> old(row).None?
      ensures done.Some? ==>
        var index := old(requests)[r].index;
        && done.value == (if index in old(row).value.done then old(row).value.done else old(row).value.done + [index])
        && index in acked
        && ReportedList(p, Model(), index, done.value)
    {
      var index := requests[r].index;
      Stepped(p, start, Model(), ReadDone(r));
      if row.None? {
        requests := requests - {r};
        return None;
      }
      var merged := Merge(row.value.done, index);
      requests := requests[r := Merged(index, merged)];
      Yield(r, start);
      RequestFacts(p, start, Model(), r);
      Stepped(p, start, Model(), WriteDone(r));
      requests, acked := requests - {r}, acked + {index};
      row := if row.None? then None else Some(row.value.(done := merged));
      return Some(merged);
    }

    /** Load a session snapshot and claim finalisation by compare-and-swap on the status. */
    method ClaimFinalization(f: int, ghost start: State) returns (won: bool)
      requires Proper(p) && Reachable(p, start) && Reaches(p, start, Model()) && f !in finalizers
      modifies this
      ensures Reaches(p, start, Model())
      ensures won ==> f in finalizers && claims == 1 && OnlyHolder(Model(), f) && Shows(Model(), Assembling)
      ensures won ==> old(row).Some? && old(row).value.status == Uploading && finalizers[f] == Claimed(old(row).value.done)
      ensures !won ==> f !in finalizers && PastUploading(Model())
      ensures alone ==> disk == old(disk) && (won <==> old(row).Some? && old(row).value.status == Uploading)
    {
      if row.None? {
        return false;
      }
      Stepped(p, start, Model(), Load(f));
      var seen, done := row.value.status, row.value.done;
      StatusFacts(p, start, Model());
      finalizers := finalizers[f := Loaded(seen, done)];
      Yield(f, start);
      ClaimTried(p, start, Model(), f);
      if seen == Uploading && row.Some? && row.value.status == Uploading {
        row, claims := WithStatus(row, Assembling), claims + 1;
        finalizers := finalizers[f := Claimed(done)];
        return true;
      }
      finalizers := finalizers - {f};
      return false;
    }

    /** An I/O error before the media file exists: updateUploadStatus(uploadID, "failed"). */
    method GiveUp(f: int, ghost start: State)
      requires Reaches(p, start, Model()) && f in finalizers && Abortable(finalizers[f])
      modifies this
      ensures Reaches(p, start, Model()) && Model() == FailAndLeave(old(Model()), f)
    {
      Stepped(p, start, Model(), Abort(f));
      finalizers, row := finalizers - {f}, WithStatus(row, Failed);
    }

    /** The count check on the list that was read before the claim. */
    method CheckChunkCount(f: int, ghost start: State) returns (full: bool)
      requires Reaches(p, start, Model()) && f in finalizers && finalizers[f].Claimed?
      modifies this
      ensures Reaches(p, start, Model())
      ensures full <==> |old(finalizers)[f].done| == p.total
      ensures full ==> f in finalizers && finalizers[f] == Copying(0, [])
      ensures !full ==> f !in finalizers && Shows(Model(), Failed)
      ensures alone ==> disk == old(disk)
    {
      Yield(f, start);
      Counted(p, start, Model(), f);
      full := |finalizers[f].done| == p.total;
      if full {
        finalizers := finalizers[f := Copying(0, [])];
      } else {
        finalizers, row := finalizers - {f}, WithStatus(row, Failed);
      }
    }

    /** The read of a chunk file that is gone fails the session. */
    method MissingChunk(f: int, ghost start: State)
      requires Proper(p) && Reachable(p, start) && Reaches(p, start, Model())
      requires f in finalizers && finalizers[f].Copying? && finalizers[f].next < p.total && finalizers[f].next !in disk
      modifies this
      ensures Reaches(p, start, Model()) && f !in finalizers && Shows(Model(), Failed) && removed && disk == old(disk)
    {
      Copied(p, start, Model(), f);
      finalizers, row := finalizers - {f}, WithStatus(row, Failed);
    }

    method AppendChunk(f: int, ghost start: State)
      requires Proper(p) && Reachable(p, start) && Reaches(p, start, Model())
      requires f in finalizers && finalizers[f].Copying? && finalizers[f].next < p.total && finalizers[f].next in disk
      modifies this
      ensures Reaches(p, start, Model()) && disk == old(disk) && f in finalizers
      ensures var z := old(finalizers)[f]; finalizers[f] == Copying(z.next + 1, z.buffer + disk[z.next])
    {
      Copied(p, start, Model(), f);
      var z := finalizers[f];
      finalizers := finalizers[f := Copying(z.next + 1, z.buffer + disk[z.next])];
    }

    /**
     * Copy the next chunk file.  A missing one, possible only once the directory
     * was removed, fails the session, and so does a failing write.
     */
    method CopyNext(f: int, writes: bool, ghost start: State) returns (ok: bool)
      requires Proper(p) && Reachable(p, start) && Reaches(p, start, Model())
      requires f in finalizers && finalizers[f].Copying? && finalizers[f].next < p.total
      modifies this
      ensures Reaches(p, start, Model())
      ensures ok ==>
        var z := old(finalizers)[f];
        writes && z.next in disk && f in finalizers && finalizers[f] == Copying(z.next + 1, z.buffer + disk[z.next])
      ensures !ok ==> f !in finalizers && Shows(Model(), Failed) && ((old(finalizers)[f].next !in disk && removed) || !writes)
      ensures alone ==> disk == old(disk) && (ok <==> old(finalizers)[f].next in disk && writes)
    {
      Yield(f, start);
      if finalizers[f].next !in disk {
        MissingChunk(f, start);
        return false;
      }
      if !writes {
        GiveUp(f, start);
        return false;
      }
      AppendChunk(f, start);
      return true;
    }

    /** Close the assembled file and move the session on to verifying. */
    method CloseAssembled(f: int, closes: bool, ghost start: State) returns (ok: bool)
      requires Proper(p) && Reachable(p, start) && Reaches(p, start, Model())
      requires f in finalizers && finalizers[f].Copying? && finalizers[f].next == p.total
      modifies this
      ensures Reaches(p, start, Model()) && (ok <==> closes)
      ensures ok ==> f in finalizers && finalizers[f] == Assembled(old(finalizers)[f].buffer) && Shows(Model(), Verifying)
      ensures ok && p.source.Some? ==> finalizers[f].buffer == p.source.value
      ensures !ok ==> f !in finalizers && Shows(Model(), Failed)
      ensures alone ==> disk == old(disk)
    {
      Yield(f, start);
      if !closes {
        GiveUp(f, start);
        return false;
      }
      Closed(p, start, Model(), f);
      finalizers, row := finalizers[f := Assembled(finalizers[f].buffer)], WithStatus(row, Verifying);
      return true;
    }

    /** Copy all chunk files in order; `io(k)` tells whether the k-th write succeeds. */
    method CopyChunks(f: int, io: nat -> bool, ghost start: State) returns (ok: bool)
      requires Proper(p) && Reachable(p, start) && Reaches(p, start, Model())
      requires f in finalizers && finalizers[f] == Copying(0, [])
      modifies this
      ensures Reaches(p, start, Model())
      ensures ok ==> f in finalizers && finalizers[f].Copying? && finalizers[f].next == p.total && forall k: nat | 1 <= k <= p.total :: io(k)
      ensures !ok ==> f !in finalizers && Shows(Model(), Failed) && (removed || exists k: nat :: 1 <= k <= p.total && !io(k))
      ensures alone ==> disk == old(disk) && (ok <==> AllStored(p, disk) && forall k: nat | 1 <= k <= p.total :: io(k))
      ensures alone && ok ==> finalizers[f].buffer == Content(disk, p.total)
    {
      var i := 0;
      while i < p.total
        invariant 0 <= i <= p.total && Reaches(p, start, Model())
        invariant f in finalizers && finalizers[f].Copying? && finalizers[f].next == i
        invariant alone ==> disk == old(disk) && (forall k: nat | k < i :: k in disk) && finalizers[f].buffer == Content(disk, i)
        invariant forall k: nat | 1 <= k <= i :: io(k)
      {
        ok := CopyNext(f, io(i + 1), start);
        if !ok { return false; }
        i := i + 1;
      }
      ok := true;
    }

    /**
     * Check the count, create the output, copy the chunk files in order, close.
     * `io` tells which of these file operations succeed: creating is the first,
     * closing the last.
     */
    method AssembleChunks(f: int, io: nat -> bool, ghost start: State) returns (r: Assembly)
      requires Proper(p) && Reachable(p, start) && Reaches(p, start, Model())
      requires f in finalizers && finalizers[f].Claimed?
      modifies this
      ensures Reaches(p, start, Model())
      ensures var have := |old(finalizers)[f].done|; if have != p.total then r == Short(have) else !r.Short?
      ensures !r.Whole? ==> f !in finalizers && Shows(Model(), Failed)
      ensures r.Broken? ==> removed || !FilesWork(io)
      ensures r.Whole? ==> FilesWork(io) && f in finalizers && finalizers[f] == Assembled(r.file) && Shows(Model(), Verifying)
      ensures r.Whole? && p.source.Some? ==> r.file == p.source.value
      ensures alone ==> disk == old(disk) && (r.Broken? ==> !AllStored(p, disk) || !FilesWork(io))
      ensures alone && r.Whole? ==> AllStored(p, disk) && r.file == Content(disk, p.total)
    {
      var have := |finalizers[f].done|;
      var ok := CheckChunkCount(f, start);
      if !ok { return Short(have); }
      if !io(0) {
        Yield(f, start);
        GiveUp(f, start);
        return Broken;
      }
      ok := CopyChunks(f, io, start);
      if !ok { return Broken; }
      ok := CloseAssembled(f, io(p.total + 1), start);
      if !ok { return Broken; }
      r := Whole(finalizers[f].buffer);
    }

    /** Creating, every write and closing succeed. */
    ghost predicate FilesWork(io: nat -> bool) {
      io(0) && io(p.total + 1) && forall k: nat | 1 <= k <= p.total :: io(k)
    }

    method VerifyAssembled(f: int, ghost start: State) returns (ok: bool)
      requires Reaches(p, start, Model()) && f in finalizers && finalizers[f].Assembled?
      modifies this
      ensures Reaches(p, start, Model())
      ensures ok <==> (p.sha.Some? ==> p.hash(old(finalizers)[f].buffer) == p.sha.value)
      ensures ok ==> f in finalizers && finalizers[f] == Verified(old(finalizers)[f].buffer) && Shows(Model(), Processing)
      ensures !ok ==> f !in finalizers && Shows(Model(), Failed)
    {
      Yield(f, start);
      var buffer := finalizers[f].buffer;
      Stepped(p, start, Model(), Verify(f));
      ok := p.sha.None? || p.hash(buffer) == p.sha.value;
      if ok {
        finalizers, row := finalizers[f := Verified(buffer)], WithStatus(row, Processing);
      } else {
        finalizers, row := finalizers - {f}, WithStatus(row, Failed);
      }
    }

    /** Hand the bytes to the media service; when it refuses them the session fails. */
    method CreateMedia(f: int, accepts: bool, ghost start: State) returns (ok: bool)
      requires Proper(p) && Reachable(p, start) && Reaches(p, start, Model())
      requires f in finalizers && finalizers[f].Verified?
      modifies this
      ensures Reaches(p, start, Model()) && (ok <==> accepts)
      ensures ok ==> f in finalizers && finalizers[f] == Created && media == [old(finalizers)[f].buffer]
      ensures !ok ==> f !in finalizers && media == [] && Shows(Model(), Failed)
    {
      Yield(f, start);
      HandedOver(p, start, Model(), f);
      if !accepts {
        GiveUp(f, start);
        return false;
      }
      media := media + [finalizers[f].buffer];
      finalizers := finalizers[f := Created];
      return true;
    }

    /** UPDATE upload_sessions SET status = 'done', finish_result = ... */
    method PersistResult(f: int, ghost start: State)
      requires Proper(p) && Reachable(p, start) && Reaches(p, start, Model())
      requires f in finalizers && finalizers[f] == Created
      modifies this
      ensures Reaches(p, start, Model()) && f in finalizers && finalizers[f] == Persisted
      ensures media == old(media) && Shows(Model(), Complete)
    {
      ghost var before := Model();
      Yield(f, start);
      Settled(p, start, before, Model(), f);
      Stepped(p, start, Model(), Persist(f));
      finalizers, row := finalizers[f := Persisted], WithStatus(row, Complete);
    }

    /** Remove the chunk directory; by then others may have deleted the row, but not changed its status. */
    method RemoveChunks(f: int, ghost start: State)
      requires Proper(p) && Reachable(p, start) && Reaches(p, start, Model())
      requires f in finalizers && finalizers[f] == Persisted
      modifies this
      ensures Reaches(p, start, Model()) && f !in finalizers
      ensures media == old(media) && Shows(Model(), Complete) && disk == map[] && removed
    {
      ghost var before := Model();
      Yield(f, start);
      Settled(p, start, before, Model(), f);
      Stepped(p, start, Model(), Cleanup(f));
      finalizers, disk, removed := finalizers - {f}, map[], true;
    }

    /**
     * finalizeChunkedUploadSession, called by /finish and by the auto-finish
     * goroutine alike.  `io` and `accepts` say which file operations succeed and
     * whether the media service takes the file.  Each way to end has its cause,
     * and with no other process about each cause its end.
     */
    method Finalize(f: int, io: nat -> bool, accepts: bool) returns (r: Outcome)
      requires Proper(p) && Reachable(p, Model()) && f !in finalizers
      modifies this
      ensures Reaches(p, old(Model()), Model()) && f !in finalizers
      ensures r.LostClaim? ==> PastUploading(Model())
      ensures !r.LostClaim? ==> old(row).Some? && old(row).value.status == Uploading && ClaimedOutcome(old(row).value.done, io, accepts, r)
      ensures r.FileFailure? ==> removed || !FilesWork(io)
      ensures !r.LostClaim? ==> Shows(Model(), if r.Delivered? then Complete else Failed)
      ensures r.Delivered? ==> media == [r.file]
      ensures alone ==> (r.LostClaim? <==> !(old(row).Some? && old(row).value.status == Uploading))
      ensures alone && r.FileFailure? ==> !AllStored(p, old(disk)) || !FilesWork(io)
      ensures alone && (r.HashMismatch? || r.Refused? || r.Delivered?) ==> AllStored(p, old(disk)) && r.file == Content(old(disk), p.total)
    {
      ghost var start := Model();
      assert Valid(p, start, []) && Exec(p, start, []) == start;
      var won := ClaimFinalization(f, start);
      if !won {
        return LostClaim;
      }
      var assembly := AssembleChunks(f, io, start);
      match assembly {
        case Short(have) => return ShortCount(have);
        case Broken => return FileFailure;
        case Whole(_) =>
      }
      var ok := VerifyAssembled(f, start);
      if !ok {
        return HashMismatch(assembly.file);
      }
      ok := CreateMedia(f, accepts, start);
      if !ok {
        return Refused(assembly.file);
      }
      PersistResult(f, start);
      RemoveChunks(f, start);
      return Delivered(assembly.file);
    }

    /**
     * What follows a won claim: a short list, then a failing file operation, then
     * a wrong hash, then a refusal each end it, and nothing else does.
     */
    ghost predicate ClaimedOutcome(done: seq<nat>, io: nat -> bool, accepts: bool, r: Outcome) {
      if |done| != p.total then r == ShortCount(|done|)
      else if r.FileFailure? then true
      else
        && FilesWork(io) && (r.HashMismatch? || r.Refused? || r.Delivered?)
        && (p.source.Some? ==> r.file == p.source.value)
        && (r.HashMismatch? <==> p.sha.Some? && p.hash(r.file) != p.sha.value)
        && (r.Refused? ==> !accepts) && (r.Delivered? ==> accepts)
    }
  }
}
