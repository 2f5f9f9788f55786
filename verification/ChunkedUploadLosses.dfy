/**
 * Lost updates of chunks_done: it is read, changed and written by three separate
 * statements, so overlapping chunk requests can drop each other's indices.
 */
module ChunkedUploadLosses {
  import opened ChunkedUpload
  import opened ChunkedUploadSafety
  import opened Prelude
  import opened Slicing

  ghost predicate Records(s: State, i: nat) {
    s.row.Some? && i in s.row.value.done
  }

  ghost predicate AllAcknowledged(p: Params, s: State) {
    forall i: nat | i < p.total :: i in s.acked
  }

  /** What the client relies on: a session with every chunk acknowledged counts them all. */
  ghost predicate Counted(p: Params, s: State) {
    s.row.Some? && AllAcknowledged(p, s) ==> |s.row.value.done| == p.total
  }

  // ------------------------------------------------------------ single statements

  /** Only WriteDone changes chunks_done or acknowledges, and the row never comes back. */
  lemma {:induction false} RowStep(p: Params, s: State, e: Event)
    requires Enabled(p, s, e) && Apply(p, s, e).row.Some?
    ensures var t := Apply(p, s, e);
      && s.row.Some?
      && t.row.value.done == (if e.WriteDone? then s.requests[e.r].list else s.row.value.done)
      && t.acked == (if e.WriteDone? then s.acked + {s.requests[e.r].index} else s.acked)
  {
  }

  /** Recorded indices are acknowledged, and so is what a request is about to write, but for its own index. */
  ghost predicate RecordsAcknowledged(s: State) {
    s.row.Some? ==>
      && (forall i | i in s.row.value.done :: i in s.acked)
      && (forall r | r in s.requests && s.requests[r].Merged? :: WritesAcknowledged(s, s.requests[r]))
  }

  ghost predicate WritesAcknowledged(s: State, q: Request) {
    q.Merged? ==> q.index in q.list && forall i | i in q.list :: i in s.acked || i == q.index
  }

  lemma {:induction false} MergeHolds(done: seq<nat>, index: nat, i: nat)
    ensures i in Merge(done, index) <==> i in done || i == index
  {
    if index !in done { assert Merge(done, index)[|done|] == index; }
    if i in done {
      var k :| 0 <= k < |done| && done[k] == i;
      assert Merge(done, index)[k] == i;
    }
  }

  lemma {:induction false} RequestsAcknowledged(s: State, t: State, r: int)
    requires RecordsAcknowledged(s) && s.row.Some? && s.acked <= t.acked
    requires forall q | q in t.requests && q != r :: q in s.requests && t.requests[q] == s.requests[q]
    requires r in t.requests ==> WritesAcknowledged(t, t.requests[r])
    ensures forall q | q in t.requests && t.requests[q].Merged? :: WritesAcknowledged(t, t.requests[q])
  {
    forall q | q in t.requests && t.requests[q].Merged? ensures WritesAcknowledged(t, t.requests[q]) {
      if q != r { assert WritesAcknowledged(s, s.requests[q]); }
    }
  }

  lemma {:induction false} ReadAcknowledged(p: Params, s: State, r: int)
    requires RecordsAcknowledged(s) && Enabled(p, s, ReadDone(r))
    ensures RecordsAcknowledged(Apply(p, s, ReadDone(r)))
  {
    if s.row.Some? {
      var t, done, index := Apply(p, s, ReadDone(r)), s.row.value.done, s.requests[r].index;
      forall i: nat ensures i in Merge(done, index) <==> i in done || i == index { MergeHolds(done, index, i); }
      assert t.requests[r] == Merged(index, Merge(done, index));
      RequestsAcknowledged(s, t, r);
    }
  }

  lemma {:induction false} WriteAcknowledged(p: Params, s: State, r: int)
    requires RecordsAcknowledged(s) && Enabled(p, s, WriteDone(r))
    ensures RecordsAcknowledged(Apply(p, s, WriteDone(r)))
  {
    if s.row.Some? {
      var t := Apply(p, s, WriteDone(r));
      assert WritesAcknowledged(s, s.requests[r]);
      RequestsAcknowledged(s, t, r);
    }
  }

  lemma {:induction false} StepAcknowledged(p: Params, s: State, e: Event)
    requires RecordsAcknowledged(s) && Enabled(p, s, e)
    ensures RecordsAcknowledged(Apply(p, s, e))
  {
    var t := Apply(p, s, e);
    if e.ReadDone? {
      ReadAcknowledged(p, s, e.r);
    } else if e.WriteDone? {
      WriteAcknowledged(p, s, e.r);
    } else if t.row.Some? {
      RowStep(p, s, e);
      RequestsAcknowledged(s, t, if e.Accept? || e.Store? then e.r else 0);
    }
  }

  // --------------------------------------------------------------------- prefixes

  lemma {:induction false} Extend(p: Params, s: State, es: seq<Event>, e: Event)
    requires Valid(p, s, es) && Enabled(p, Exec(p, s, es), e)
    ensures Valid(p, s, es + [e]) && Exec(p, s, es + [e]) == Apply(p, Exec(p, s, es), e)
    decreases |es|
  {
    if es == [] {
      assert ([] + [e])[1..] == [];
      assert [e][1..] == [];
    } else {
      assert (es + [e])[1..] == es[1..] + [e];
      Extend(p, Apply(p, s, es[0]), es[1..], e);
    }
  }

  /** The last event of a run, taken from the state before it. */
  lemma {:induction false} LastStep(p: Params, s: State, es: seq<Event>)
    requires Valid(p, s, es) && es != []
    ensures var n := |es| - 1;
      && Valid(p, s, es[..n]) && Enabled(p, Exec(p, s, es[..n]), es[n])
      && Exec(p, s, es) == Apply(p, Exec(p, s, es[..n]), es[n])
    decreases |es|
  {
    var n := |es| - 1;
    if n == 0 {
      assert es[..0] == [] && es[1..] == [];
    } else {
      LastStep(p, Apply(p, s, es[0]), es[1..]);
      assert es[1..][..n - 1] == es[..n][1..];
    }
  }

  // ------------------------------------------------------------- what goes missing

  /** The last event took index i out of chunks_done. */
  ghost predicate Drops(p: Params, s: State, e: Event, i: nat) {
    Enabled(p, s, e) && Records(s, i) && Apply(p, s, e).row.Some? && !Records(Apply(p, s, e), i)
  }

  /** Some write of the run dropped index i and none since has put it back. */
  ghost predicate DroppedForGood(p: Params, s: State, es: seq<Event>, i: nat)
    requires Valid(p, s, es)
    decreases |es|
  {
    es != [] &&
    var n := |es| - 1;
    LastStep(p, s, es);
    !Records(Exec(p, s, es), i) && (Drops(p, Exec(p, s, es[..n]), es[n], i) || DroppedForGood(p, s, es[..n], i))
  }

  /**
   * An acknowledged index is missing from a surviving session exactly when a
   * write dropped it and no later one put it back.
   */
  lemma {:induction false} MissingIff(p: Params, es: seq<Event>, i: nat)
    requires Valid(p, FRESH, es) && Exec(p, FRESH, es).row.Some?
    ensures RecordsAcknowledged(Exec(p, FRESH, es))
    ensures i in Exec(p, FRESH, es).acked && !Records(Exec(p, FRESH, es), i) <==> DroppedForGood(p, FRESH, es, i)
    decreases |es|
  {
    if es != [] {
      var n := |es| - 1;
      LastStep(p, FRESH, es);
      var s := Exec(p, FRESH, es[..n]);
      RowStep(p, s, es[n]);
      MissingIff(p, es[..n], i);
      StepAcknowledged(p, s, es[n]);
      if es[n].WriteDone? { assert WritesAcknowledged(s, s.requests[es[n].r]); }
    }
  }

  lemma {:induction false} AllListedIsFull(p: Params, done: seq<nat>)
    requires ChunkList(p, done) && forall i: nat | i < p.total :: i in done
    ensures |done| == p.total
  {
    DistinctCount(done);
    forall i ensures i in Elements(done) <==> i in Below(p.total) {
      if i in Elements(done) {
        var k :| 0 <= k < |done| && done[k] == i;
      }
    }
    assert Elements(done) == Below(p.total);
  }

  ghost predicate AllRecorded(p: Params, s: State) {
    forall i: nat | i < p.total :: Records(s, i)
  }

  lemma {:induction false} FullIffAllRecorded(p: Params, s: State)
    requires Inv(p, s) && s.row.Some?
    ensures |s.row.value.done| == p.total <==> AllRecorded(p, s)
  {
    var done := s.row.value.done;
    if |done| == p.total {
      Pigeonhole(done, p.total);
    } else if AllRecorded(p, s) {
      forall i: nat | i < p.total ensures i in done { assert Records(s, i); }
      AllListedIsFull(p, done);
    }
  }

  /** Every index that a write dropped was put back by a later one. */
  ghost predicate NothingLost(p: Params, es: seq<Event>)
    requires Valid(p, FRESH, es)
  {
    forall i: nat | i < p.total :: !DroppedForGood(p, FRESH, es, i)
  }

  /**
   * A surviving session with every chunk acknowledged counts them all exactly
   * when every index that a write dropped was put back by a later one.
   */
  lemma {:induction false} CountedIff(p: Params, es: seq<Event>)
    requires Proper(p) && Valid(p, FRESH, es)
    requires Exec(p, FRESH, es).row.Some? && AllAcknowledged(p, Exec(p, FRESH, es))
    ensures |Exec(p, FRESH, es).row.value.done| == p.total <==> NothingLost(p, es)
  {
    var s := Exec(p, FRESH, es);
    ReachableInv(p, es);
    FullIffAllRecorded(p, s);
    forall i: nat | i < p.total ensures Records(s, i) <==> !DroppedForGood(p, FRESH, es, i) {
      assert i in s.acked;
      MissingIff(p, es, i);
    }
    if AllRecorded(p, s) {
      forall i: nat | i < p.total ensures !DroppedForGood(p, FRESH, es, i) { assert Records(s, i); }
    }
    if NothingLost(p, es) {
      forall i: nat | i < p.total ensures Records(s, i) { assert !DroppedForGood(p, FRESH, es, i); }
    }
  }

  // ------------------------------------------------------------ when a write drops

  /** Others' events while request r waits between its read and its write. */
  ghost predicate Waits(r: int, es: seq<Event>) {
    forall k | 0 <= k < |es| :: !es[k].Crash? && (TouchesRequest(es[k]) ==> es[k].r != r)
  }

  predicate TouchesRequest(e: Event) {
    e.Accept? || e.Store? || e.ReadDone? || e.WriteDone? || e.Drop?
  }

  /** The list the last write of the run wrote; `start` when there is none. */
  ghost function LastWritten(p: Params, s: State, es: seq<Event>, start: seq<nat>): seq<nat>
    requires Valid(p, s, es)
    decreases |es|
  {
    if es == [] then start
    else LastWritten(p, Apply(p, s, es[0]), es[1..], if es[0].WriteDone? then s.requests[es[0].r].list else start)
  }

  lemma {:induction false} WaitingStep(p: Params, s: State, r: int, e: Event)
    requires Enabled(p, s, e) && !e.Crash? && (TouchesRequest(e) ==> e.r != r) && r in s.requests
    ensures r in Apply(p, s, e).requests && Apply(p, s, e).requests[r] == s.requests[r]
  {
  }

  lemma {:induction false} WaitingRun(p: Params, s: State, r: int, es: seq<Event>)
    requires Valid(p, s, es) && Waits(r, es) && r in s.requests && s.row.Some?
    ensures r in Exec(p, s, es).requests && Exec(p, s, es).requests[r] == s.requests[r]
    ensures Exec(p, s, es).row.Some? ==> Exec(p, s, es).row.value.done == LastWritten(p, s, es, s.row.value.done)
    decreases |es|
  {
    if es != [] {
      var t := Apply(p, s, es[0]);
      WaitingStep(p, s, r, es[0]);
      if t.row.Some? {
        RowStep(p, s, es[0]);
        WaitingRun(p, t, r, es[1..]);
      } else {
        NoRowStays(p, t, es[1..]);
        StillWaiting(p, t, r, es[1..]);
      }
    }
  }

  lemma {:induction false} NoRowStays(p: Params, s: State, es: seq<Event>)
    requires Valid(p, s, es) && s.row.None?
    ensures Exec(p, s, es).row.None?
    decreases |es|
  {
    if es != [] {
      if Apply(p, s, es[0]).row.Some? { RowStep(p, s, es[0]); }
      NoRowStays(p, Apply(p, s, es[0]), es[1..]);
    }
  }

  lemma {:induction false} StillWaiting(p: Params, s: State, r: int, es: seq<Event>)
    requires Valid(p, s, es) && Waits(r, es) && r in s.requests
    ensures r in Exec(p, s, es).requests && Exec(p, s, es).requests[r] == s.requests[r]
    decreases |es|
  {
    if es != [] {
      WaitingStep(p, s, r, es[0]);
      StillWaiting(p, Apply(p, s, es[0]), r, es[1..]);
    }
  }

  /**
   * Request r has read chunks_done in state s; the others run; then r writes.
   * Its write drops index i exactly when the last write in between carried i
   * and r's own list does not.
   */
  lemma {:induction false} WriteDropsIff(p: Params, s: State, r: int, es: seq<Event>, i: nat)
    requires s.row.Some? && Enabled(p, s, ReadDone(r))
    requires Valid(p, Apply(p, s, ReadDone(r)), es) && Waits(r, es)
    requires Exec(p, Apply(p, s, ReadDone(r)), es).row.Some?
    ensures var read := Apply(p, s, ReadDone(r)); var t := Exec(p, read, es);
      && Enabled(p, t, WriteDone(r))
      && (Drops(p, t, WriteDone(r), i) <==>
            i in LastWritten(p, read, es, []) && i !in s.row.value.done && i != s.requests[r].index)
  {
    var read := Apply(p, s, ReadDone(r));
    WaitingRun(p, read, r, es);
    MergeHolds(s.row.value.done, s.requests[r].index, i);
    WrittenOrNot(p, read, es, read.row.value.done, []);
  }

  lemma {:induction false} WrittenOrNot(p: Params, s: State, es: seq<Event>, a: seq<nat>, b: seq<nat>)
    requires Valid(p, s, es)
    ensures LastWritten(p, s, es, a) == LastWritten(p, s, es, b) || (LastWritten(p, s, es, a) == a && LastWritten(p, s, es, b) == b)
    decreases |es|
  {
    if es != [] && !es[0].WriteDone? { WrittenOrNot(p, Apply(p, s, es[0]), es[1..], a, b); }
  }

  // ------------------------------------------------------------------ losing runs

  lemma {:induction false} Push(p: Params, es: seq<Event>, e: Event) returns (fs: seq<Event>)
    requires Valid(p, FRESH, es) && Enabled(p, Exec(p, FRESH, es), e)
    ensures Valid(p, FRESH, fs) && Exec(p, FRESH, fs) == Apply(p, Exec(p, FRESH, es), e)
  {
    Extend(p, FRESH, es, e);
    fs := es + [e];
  }

  /** Contents for chunk i that the session accepts. */
  ghost function ChunkOf(p: Params, i: nat): Bytes
    requires p.chunkSize > 0
  {
    if p.source.Some? then Slice(p.source.value, p.chunkSize, i) else []
  }

  /** Chunks below k are acknowledged and stored, and all but chunk 0 are counted. */
  ghost predicate Lossy(p: Params, s: State, k: nat) {
    && s.row.Some? && s.row.value.status == Uploading
    && |s.row.value.done| == k - 1 && (forall i | i in s.row.value.done :: 0 < i < k)
    && s.requests == map[] && s.finalizers == map[] && !s.removed && s.media == []
    && forall i: nat | i < k :: i in s.acked && i in s.disk
  }

  lemma {:induction false} BothAccepted(p: Params) returns (es: seq<Event>)
    requires Proper(p) && p.total >= 2
    ensures Valid(p, FRESH, es)
    ensures Exec(p, FRESH, es) == FRESH.(requests := map[0 := Accepted(0, ChunkOf(p, 0)), 1 := Accepted(1, ChunkOf(p, 1))])
  {
    es := Push(p, [], Accept(0, 0, ChunkOf(p, 0)));
    assert Exec(p, FRESH, es) == FRESH.(requests := map[0 := Accepted(0, ChunkOf(p, 0))]);
    es := Push(p, es, Accept(1, 1, ChunkOf(p, 1)));
  }

  lemma {:induction false} BothStored(p: Params) returns (es: seq<Event>)
    requires Proper(p) && p.total >= 2
    ensures Valid(p, FRESH, es)
    ensures Exec(p, FRESH, es) ==
      FRESH.(disk := map[0 := ChunkOf(p, 0), 1 := ChunkOf(p, 1)], requests := map[0 := Stored(0), 1 := Stored(1)])
  {
    es := BothAccepted(p);
    es := Push(p, es, Store(0));
    es := Push(p, es, Store(1));
  }

  lemma {:induction false} BothRead(p: Params) returns (es: seq<Event>)
    requires Proper(p) && p.total >= 2
    ensures Valid(p, FRESH, es)
    ensures Exec(p, FRESH, es) ==
      FRESH.(disk := map[0 := ChunkOf(p, 0), 1 := ChunkOf(p, 1)], requests := map[0 := Merged(0, [0]), 1 := Merged(1, [1])])
  {
    es := BothStored(p);
    var s := Exec(p, FRESH, es);
    es := Push(p, es, ReadDone(0));
    assert Merge([], 0) == [0] && Merge([], 1) == [1];
    assert Exec(p, FRESH, es) == s.(requests := map[0 := Merged(0, [0]), 1 := Stored(1)]);
    es := Push(p, es, ReadDone(1));
  }

  lemma {:induction false} LoseFirst(p: Params) returns (es: seq<Event>)
    requires Proper(p) && p.total >= 2
    ensures Valid(p, FRESH, es) && Lossy(p, Exec(p, FRESH, es), 2)
  {
    es := BothRead(p);
    var s := Exec(p, FRESH, es);
    es := Push(p, es, WriteDone(0));
    assert Exec(p, FRESH, es) == s.(requests := map[1 := Merged(1, [1])], acked := {0}, row := Some(Session(Uploading, [0])));
    es := Push(p, es, WriteDone(1));
    assert Exec(p, FRESH, es) == s.(requests := map[], acked := {0, 1}, row := Some(Session(Uploading, [1])));
  }

  lemma {:induction false} StoreNext(p: Params, es: seq<Event>, s: State, k: nat) returns (fs: seq<Event>)
    requires Proper(p) && Valid(p, FRESH, es) && Exec(p, FRESH, es) == s && Lossy(p, s, k) && k < p.total
    ensures Valid(p, FRESH, fs)
    ensures Exec(p, FRESH, fs) == s.(requests := map[0 := Stored(k)], disk := s.disk[k := ChunkOf(p, k)])
  {
    fs := Push(p, es, Accept(0, k, ChunkOf(p, k)));
    assert Exec(p, FRESH, fs) == s.(requests := map[0 := Accepted(k, ChunkOf(p, k))]);
    fs := Push(p, fs, Store(0));
  }

  lemma {:induction false} RecordNext(p: Params, es: seq<Event>, s: State, k: nat) returns (fs: seq<Event>)
    requires Valid(p, FRESH, es) && Exec(p, FRESH, es) == s
    requires s.row.Some? && k !in s.row.value.done && s.requests == map[0 := Stored(k)]
    ensures Valid(p, FRESH, fs)
    ensures Exec(p, FRESH, fs) == s.(requests := map[], acked := s.acked + {k}, row := Some(s.row.value.(done := s.row.value.done + [k])))
  {
    fs := Push(p, es, ReadDone(0));
    assert Exec(p, FRESH, fs) == s.(requests := map[0 := Merged(k, s.row.value.done + [k])]);
    fs := Push(p, fs, WriteDone(0));
  }

  /** One more chunk, sent by itself. */
  lemma {:induction false} SendNext(p: Params, es: seq<Event>, k: nat) returns (fs: seq<Event>)
    requires Proper(p) && Valid(p, FRESH, es) && Lossy(p, Exec(p, FRESH, es), k) && 0 < k < p.total
    ensures Valid(p, FRESH, fs) && Lossy(p, Exec(p, FRESH, fs), k + 1)
  {
    fs := StoreNext(p, es, Exec(p, FRESH, es), k);
    fs := RecordNext(p, fs, Exec(p, FRESH, fs), k);
  }

  lemma {:induction false} SendRest(p: Params, k: nat) returns (es: seq<Event>)
    requires Proper(p) && 2 <= k <= p.total
    ensures Valid(p, FRESH, es) && Lossy(p, Exec(p, FRESH, es), k)
    decreases k
  {
    if k == 2 {
      es := LoseFirst(p);
    } else {
      es := SendRest(p, k - 1);
      es := SendNext(p, es, k - 1);
    }
  }

  /**
   * Two chunk requests that both read chunks_done before either writes it are
   * both acknowledged and stored, and with the other chunks sent one by one the
   * whole upload is; yet the session counts one chunk too few.
   */
  lemma {:induction false} OverlapLosesAnUpdate(p: Params) returns (es: seq<Event>)
    requires Proper(p) && p.total >= 2
    ensures Valid(p, FRESH, es) && Lossy(p, Exec(p, FRESH, es), p.total)
    ensures !Counted(p, Exec(p, FRESH, es))
  {
    es := SendRest(p, p.total);
  }

  /** From there a finalisation fails the session for good. */
  lemma {:induction false} LossFailsTheUpload(p: Params) returns (es: seq<Event>)
    requires Proper(p) && p.total >= 2
    ensures Valid(p, FRESH, es)
    ensures var s := Exec(p, FRESH, es);
      && AllAcknowledged(p, s) && (forall i: nat | i < p.total :: i in s.disk) && !s.removed
      && s.row.Some? && s.row.value.status == Failed && s.media == [] && s.claims > 0
  {
    es := OverlapLosesAnUpdate(p);
    var s := Exec(p, FRESH, es);
    es := Push(p, es, Load(7));
    es := Push(p, es, TryClaim(7));
    es := Push(p, es, CheckCount(7));
    assert Exec(p, FRESH, es).row == Some(Session(Failed, s.row.value.done));
  }

  // --------------------------------------------------------------- exact condition

  /** Every run of such a session keeps the promise. */
  ghost predicate AlwaysCounted(p: Params) {
    forall es | Valid(p, FRESH, es) :: Counted(p, Exec(p, FRESH, es))
  }

  lemma {:induction false} SingleStep(p: Params, s: State, e: Event)
    requires Inv(p, s) && p.total == 1 && Enabled(p, s, e)
    ensures !Drops(p, s, e, 0)
  {
    if Apply(p, s, e).row.Some? {
      RowStep(p, s, e);
      if e.WriteDone? { assert GoodRequest(p, s, s.requests[e.r]) && s.requests[e.r].index == 0; }
    }
  }

  /** With a single chunk every list a request writes is the full one, so nothing is ever dropped. */
  lemma {:induction false} SingleNeverDropped(p: Params, es: seq<Event>)
    requires Proper(p) && p.total == 1 && Valid(p, FRESH, es)
    ensures !DroppedForGood(p, FRESH, es, 0)
    decreases |es|
  {
    if es != [] {
      var n := |es| - 1;
      LastStep(p, FRESH, es);
      var s := Exec(p, FRESH, es[..n]);
      SingleNeverDropped(p, es[..n]);
      ReachableInv(p, es[..n]);
      SingleStep(p, s, es[n]);
    }
  }

  /**
   * The promise holds in every run exactly when the upload has one chunk: a
   * condition the client knows before it starts.
   */
  lemma {:induction false} AlwaysCountedIff(p: Params)
    requires Proper(p)
    ensures AlwaysCounted(p) <==> p.total == 1
  {
    if p.total == 1 {
      forall es | Valid(p, FRESH, es) ensures Counted(p, Exec(p, FRESH, es)) {
        var s := Exec(p, FRESH, es);
        if s.row.Some? && AllAcknowledged(p, s) {
          SingleNeverDropped(p, es);
          CountedIff(p, es);
        }
      }
    } else {
      var es := OverlapLosesAnUpdate(p);
    }
  }

  // --------------------------------------------------------------- serial requests

  /** Nobody else sits between reading and writing chunks_done when a request reads it. */
  ghost predicate Serial(p: Params, s: State, es: seq<Event>)
    requires Valid(p, s, es)
    decreases |es|
  {
    es == [] || ((es[0].ReadDone? ==> forall r | r in s.requests :: !s.requests[r].Merged?)
                 && Serial(p, Apply(p, s, es[0]), es[1..]))
  }

  /** The one request about to write carries everything recorded. */
  ghost predicate CarriesAll(s: State) {
    && (forall q, r | q in s.requests && r in s.requests && s.requests[q].Merged? && s.requests[r].Merged? :: q == r)
    && (s.row.Some? ==> forall r, i | r in s.requests && s.requests[r].Merged? && i in s.row.value.done :: i in s.requests[r].list)
  }

  lemma {:induction false} SerialRead(p: Params, s: State, r: int)
    requires CarriesAll(s) && Enabled(p, s, ReadDone(r)) && forall q | q in s.requests :: !s.requests[q].Merged?
    ensures CarriesAll(Apply(p, s, ReadDone(r)))
  {
    if s.row.Some? {
      var t := Apply(p, s, ReadDone(r));
      forall q, i | q in t.requests && t.requests[q].Merged? && i in t.row.value.done ensures i in t.requests[q].list {
        MergeHolds(s.row.value.done, s.requests[r].index, i);
      }
    }
  }

  lemma {:induction false} SerialStep(p: Params, s: State, e: Event)
    requires CarriesAll(s) && Enabled(p, s, e)
    requires e.ReadDone? ==> forall r | r in s.requests :: !s.requests[r].Merged?
    ensures CarriesAll(Apply(p, s, e)) && forall i :: !Drops(p, s, e, i)
  {
    if e.ReadDone? {
      SerialRead(p, s, e.r);
    } else if Apply(p, s, e).row.Some? {
      RowStep(p, s, e);
    }
  }

  lemma {:induction false} NothingDropped(p: Params, es: seq<Event>, i: nat)
    requires Valid(p, FRESH, es) && Serial(p, FRESH, es)
    ensures CarriesAll(Exec(p, FRESH, es)) && !DroppedForGood(p, FRESH, es, i)
    decreases |es|
  {
    if es != [] {
      var n := |es| - 1;
      LastStep(p, FRESH, es);
      SerialPrefix(p, FRESH, es);
      NothingDropped(p, es[..n], i);
      SerialStep(p, Exec(p, FRESH, es[..n]), es[n]);
    }
  }

  lemma {:induction false} SerialPrefix(p: Params, s: State, es: seq<Event>)
    requires Valid(p, s, es) && Serial(p, s, es) && es != []
    ensures var n := |es| - 1;
      && Valid(p, s, es[..n]) && Serial(p, s, es[..n])
      && (es[n].ReadDone? ==> forall r | r in Exec(p, s, es[..n]).requests :: !Exec(p, s, es[..n]).requests[r].Merged?)
    decreases |es|
  {
    var n := |es| - 1;
    LastStep(p, s, es);
    if n > 0 {
      assert es[1..][..n - 1] == es[..n][1..];
      SerialPrefix(p, Apply(p, s, es[0]), es[1..]);
    }
  }

  /** In particular requests that do not overlap drop nothing. */
  lemma {:induction false} SerialUploadCountsFull(p: Params, es: seq<Event>)
    requires Proper(p) && Valid(p, FRESH, es) && Serial(p, FRESH, es)
    ensures Counted(p, Exec(p, FRESH, es))
  {
    var s := Exec(p, FRESH, es);
    if s.row.Some? && AllAcknowledged(p, s) {
      forall i: nat ensures !DroppedForGood(p, FRESH, es, i) { NothingDropped(p, es, i); }
      CountedIff(p, es);
    }
  }
}
