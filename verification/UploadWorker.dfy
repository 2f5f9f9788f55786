/**
 * The browser's side of a chunked upload (frontend/src/workers/uploadWorker.js):
 * it cuts the file into chunks and sends the ones the server lacks.
 */
module UploadWorker {
  import opened Slicing

  // ------------------------------------------------------------------- staging

  /** file.slice(start, end) for chunk i. */
  method CutChunk(file: Bytes, chunkSize: nat, i: nat) returns (chunk: Bytes)
    requires chunkSize > 0 && i < ChunkCount(|file|, chunkSize)
    ensures 0 < |chunk| <= chunkSize && chunk == Slice(file, chunkSize, i)
  {
    SliceNonEmpty(file, chunkSize, i);
    var chunkStart := i * chunkSize;
    var chunkEnd := if chunkStart + chunkSize < |file| then chunkStart + chunkSize else |file|;
    chunk := file[chunkStart..chunkEnd];
  }

  /** Chunk i is the file's i-th slice, and none is empty or too long. */
  ghost predicate AreSlices(chunks: seq<Bytes>, file: Bytes, chunkSize: nat)
    requires chunkSize > 0
  {
    forall i | 0 <= i < |chunks| :: 0 < |chunks[i]| <= chunkSize && chunks[i] == Slice(file, chunkSize, i)
  }

  /** The first slices of the file, and their bytes. */
  ghost predicate Staged(chunks: seq<Bytes>, file: Bytes, chunkSize: nat)
    requires chunkSize > 0
  {
    AreSlices(chunks, file, chunkSize) && Concat(chunks) == Joined(file, chunkSize, |chunks|)
  }

  lemma {:induction false} SlicesNext(chunks: seq<Bytes>, file: Bytes, chunkSize: nat, chunk: Bytes)
    requires chunkSize > 0 && AreSlices(chunks, file, chunkSize)
    requires 0 < |chunk| <= chunkSize && chunk == Slice(file, chunkSize, |chunks|)
    ensures AreSlices(chunks + [chunk], file, chunkSize)
  {
    var more := chunks + [chunk];
    forall i | 0 <= i < |more| ensures 0 < |more[i]| <= chunkSize && more[i] == Slice(file, chunkSize, i) {
      assert more[i] == if i < |chunks| then chunks[i] else chunk;
    }
  }

  lemma {:induction false} ConcatNext(chunks: seq<Bytes>, chunk: Bytes)
    ensures Concat(chunks + [chunk]) == Concat(chunks) + chunk
  {
    var more := chunks + [chunk];
    assert more[..|chunks|] == chunks && more[|chunks|] == chunk;
  }

  lemma {:induction false} StagedNext(chunks: seq<Bytes>, file: Bytes, chunkSize: nat, chunk: Bytes)
    requires chunkSize > 0 && Staged(chunks, file, chunkSize)
    requires 0 < |chunk| <= chunkSize && chunk == Slice(file, chunkSize, |chunks|)
    ensures Staged(chunks + [chunk], file, chunkSize)
  {
    assert AreSlices(chunks + [chunk], file, chunkSize) by { SlicesNext(chunks, file, chunkSize, chunk); }
    var n, before, all := |chunks|, Concat(chunks), Concat(chunks + [chunk]);
    assert all == before + chunk by { ConcatNext(chunks, chunk); }
    assert before == Joined(file, chunkSize, n);
    assert Joined(file, chunkSize, n + 1) == before + chunk;
  }

  /** doUpload's staging loop: cut the file into chunks. */
  method StageChunks(file: Bytes, chunkSize: nat) returns (chunks: seq<Bytes>)
    requires chunkSize > 0
    ensures |chunks| == ChunkCount(|file|, chunkSize) && Concat(chunks) == file
    ensures AreSlices(chunks, file, chunkSize)
  {
    var total := ChunkCount(|file|, chunkSize);
    chunks := [];
    var i := 0;
    while i < total
      invariant 0 <= i <= total && |chunks| == i && Staged(chunks, file, chunkSize)
    {
      var chunk := CutChunk(file, chunkSize, i);
      StagedNext(chunks, file, chunkSize, chunk);
      chunks := chunks + [chunk];
      i := i + 1;
    }
    SlicesRebuildFile(file, chunkSize);
  }

  lemma {:induction false} SliceNonEmpty(file: Bytes, chunkSize: nat, i: nat)
    requires chunkSize > 0 && i < ChunkCount(|file|, chunkSize)
    ensures i * chunkSize < |file| && 0 < |Slice(file, chunkSize, i)| <= chunkSize
  {
    StartInside(|file|, chunkSize, i);
  }

  // ---------------------------------------------------------- sending with retries

  /** How the upload loop ended. */
  datatype Sending = AllSent | Cancelled(at: nat) | NotStored(at: nat) | GaveUp(at: nat)

  const MAX_ATTEMPTS := 3

  /**
   * What the worker finds on its way: the chunks in the browser's store, the
   * list /start returned, which attempts the server answers with success, and
   * before which chunk the user has cancelled.
   */
  datatype Way = Way(store: map<nat, Bytes>, alreadyDone: seq<nat>, accepts: (nat, nat) -> bool, aborted: nat -> bool)

  ghost predicate Acknowledged(w: Way, i: nat) {
    exists k: nat :: k < 3 && w.accepts(i, k)
  }

  /** An attempt is followed by another only while it failed and fewer than three were made. */
  function Attempts(w: Way, i: nat): (n: nat)
    ensures 1 <= n <= 3 && (forall k: nat | k < n - 1 :: !w.accepts(i, k)) && (n == 3 || w.accepts(i, n - 1))
  {
    if w.accepts(i, 0) then 1 else if w.accepts(i, 1) then 2 else 3
  }

  /** The loop goes past chunk i. */
  ghost predicate Passes(w: Way, i: nat) {
    !w.aborted(i) && (i in w.alreadyDone || (i in w.store && Acknowledged(w, i)))
  }

  /** How many requests carry chunk i when the loop ends before chunk n, or while sending it. */
  function RequestsFor(w: Way, n: nat, r: Sending, i: nat): nat {
    if i < n && i !in w.alreadyDone then Attempts(w, i) else if r == GaveUp(i) then MAX_ATTEMPTS else 0
  }

  ghost predicate Ordered(sent: seq<(nat, Bytes)>) {
    forall j, k | 0 <= j < k < |sent| :: sent[j].0 <= sent[k].0
  }

  /** Every request carries a stored chunk that the server did not report. */
  ghost predicate OnlyMissing(w: Way, sent: seq<(nat, Bytes)>, n: nat) {
    forall k | 0 <= k < |sent| :: sent[k].0 < n && sent[k].0 in w.store && sent[k].1 == w.store[sent[k].0] && sent[k].0 !in w.alreadyDone
  }

  /** uploadChunkWithRetry: up to three attempts. */
  method SendChunk(w: Way, i: nat, chunk: Bytes) returns (ok: bool, requests: seq<(nat, Bytes)>)
    ensures ok <==> exists k: nat :: k < 3 && w.accepts(i, k)
    ensures 1 <= |requests| <= 3 && (forall k: nat | k < |requests| - 1 :: !w.accepts(i, k))
    ensures ok <==> w.accepts(i, |requests| - 1)
    ensures |requests| == Attempts(w, i) && forall k | 0 <= k < |requests| :: requests[k] == (i, chunk)
  {
    requests := [];
    for attempt := 0 to MAX_ATTEMPTS
      invariant |requests| == attempt && forall k | 0 <= k < |requests| :: requests[k] == (i, chunk)
      invariant forall k: nat | k < attempt :: !w.accepts(i, k)
    {
      requests := requests + [(i, chunk)];
      if w.accepts(i, attempt) {
        return true, requests;
      }
    }
    assert !w.accepts(i, 0) && !w.accepts(i, 1) && !w.accepts(i, 2);
    ok := false;
  }

  /** How many of the requests carry chunk i. */
  ghost function Carrying(sent: seq<(nat, Bytes)>, i: nat): nat {
    if sent == [] then 0 else Carrying(sent[..|sent| - 1], i) + if sent[|sent| - 1].0 == i then 1 else 0
  }

  lemma {:induction false} CarryingJoin(sent: seq<(nat, Bytes)>, more: seq<(nat, Bytes)>, i: nat, j: nat)
    requires forall k | 0 <= k < |more| :: more[k].0 == j
    ensures Carrying(sent + more, i) == Carrying(sent, i) + if i == j then |more| else 0
  {
    if more == [] {
      assert sent + more == sent;
    } else {
      var m := |more| - 1;
      CarryingJoin(sent, more[..m], i, j);
      assert (sent + more)[..|sent + more| - 1] == sent + more[..m];
    }
  }

  /** The requests for chunk n, which they all come after, join those before. */
  lemma {:induction false} SentNext(w: Way, sent: seq<(nat, Bytes)>, more: seq<(nat, Bytes)>, n: nat)
    requires n in w.store && n !in w.alreadyDone && OnlyMissing(w, sent, n) && Ordered(sent)
    requires forall k | 0 <= k < |more| :: more[k] == (n, w.store[n])
    ensures OnlyMissing(w, sent + more, n + 1) && Ordered(sent + more)
    ensures forall i: nat :: Carrying(sent + more, i) == Carrying(sent, i) + if i == n then |more| else 0
  {
    forall i: nat ensures Carrying(sent + more, i) == Carrying(sent, i) + if i == n then |more| else 0 { CarryingJoin(sent, more, i, n); }
  }

  /** All chunks were sent, or the first one that could not be ended the loop; each as often as it took. */
  ghost predicate LoopResult(w: Way, total: nat, r: Sending, sent: seq<(nat, Bytes)>) {
    && (r.AllSent? <==> forall i: nat | i < total :: Passes(w, i))
    && (!r.AllSent? ==> r.at < total && (forall i: nat | i < r.at :: Passes(w, i)))
    && (r.Cancelled? ==> w.aborted(r.at))
    && (r.NotStored? ==> !w.aborted(r.at) && r.at !in w.alreadyDone && r.at !in w.store)
    && (r.GaveUp? ==> !w.aborted(r.at) && r.at !in w.alreadyDone && r.at in w.store && forall k: nat | k < 3 :: !w.accepts(r.at, k))
    && OnlyMissing(w, sent, total) && Ordered(sent)
    && forall i: nat :: Carrying(sent, i) == RequestsFor(w, if r.AllSent? then total else r.at, r, i)
  }

  /**
   * The upload loop: skip what the server reported, send the rest in order, each
   * until it is acknowledged.  It stops at the first chunk it cannot get past.
   */
  method SendMissing(w: Way, total: nat) returns (r: Sending, sent: seq<(nat, Bytes)>)
    ensures LoopResult(w, total, r, sent)
  {
    r, sent := AllSent, [];
    var i := 0;
    while i < total
      invariant 0 <= i <= total && OnlyMissing(w, sent, i) && Ordered(sent)
      invariant forall k: nat | k < i :: Passes(w, k)
      invariant forall k: nat :: Carrying(sent, k) == RequestsFor(w, i, AllSent, k)
    {
      if w.aborted(i) {
        assert !Passes(w, i);
        return Cancelled(i), sent;
      }
      if i !in w.alreadyDone {
        if i !in w.store {
          assert !Passes(w, i);
          return NotStored(i), sent;
        }
        var ok, requests := SendChunk(w, i, w.store[i]);
        SentNext(w, sent, requests, i);
        sent := sent + requests;
        if !ok {
          assert !Passes(w, i);
          return GaveUp(i), sent;
        }
      }
      i := i + 1;
    }
  }

  /** What the worker does next: wait for the status, call /finish, or report an error. */
  datatype Next = Poll | Finish | Stopped(why: Sending)

  /**
   * The upload phase of a new or resumed session.  With every chunk recorded the
   * loop is skipped, cancellation included, and nobody calls /finish.
   */
  method UploadPhase(w: Way, total: nat) returns (next: Next, sent: seq<(nat, Bytes)>)
    ensures next.Poll? <==> |w.alreadyDone| == total
    ensures next.Poll? ==> sent == []
    ensures next.Finish? ==> LoopResult(w, total, AllSent, sent)
    ensures next.Stopped? ==> !next.why.AllSent? && LoopResult(w, total, next.why, sent)
  {
    if |w.alreadyDone| == total {
      return Poll, [];
    }
    var r;
    r, sent := SendMissing(w, total);
    next := if r.AllSent? then Finish else Stopped(r);
  }
}
