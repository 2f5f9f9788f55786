/**
 * The device-to-device teleport channel (frontend/src/device/teleport.js):
 * cutting bytes into frames, and reassembling frames that arrive in any order.
 */
module Teleport {
  import opened Prelude
  import opened Slicing

  const CHUNK_BYTES := 0x4_0000

  const STALE_MS := 60 * 1000

  datatype Frame = Frame(id: int, size: nat, total: nat, seq_: nat, data: Bytes)

  /** A transfer in progress; `chunks` is the sparse array the receiver fills. */
  datatype Entry = Entry(size: nat, total: nat, chunks: seq<Option<Bytes>>)

  datatype Item = Item(id: int, bytes: Bytes)

  datatype Receiver = Receiver(transfers: map<int, Entry>, delivered: seq<Item>)

  const EMPTY := Receiver(map[], [])

  // ------------------------------------------------------------------- receiving

  /** chunks[i] = data, growing the array with holes. */
  function Put(chunks: seq<Option<Bytes>>, i: nat, data: Bytes): (r: seq<Option<Bytes>>)
    ensures i < |r| && r[i] == Some(data)
    ensures forall k | 0 <= k < |r| && k != i :: r[k] == if k < |chunks| then chunks[k] else None
    ensures |r| == if i < |chunks| then |chunks| else i + 1
  {
    if i < |chunks| then chunks[i := Some(data)]
    else chunks + seq(i - |chunks|, _ => None) + [Some(data)]
  }

  /** chunks.filter(Boolean).length */
  function Filled(chunks: seq<Option<Bytes>>): nat {
    if chunks == [] then 0 else Filled(chunks[..|chunks| - 1]) + if chunks[|chunks| - 1].Some? then 1 else 0
  }

  predicate NoHole(chunks: seq<Option<Bytes>>) {
    forall k | 0 <= k < |chunks| :: chunks[k].Some?
  }

  function Flat(chunks: seq<Option<Bytes>>): Bytes {
    if chunks == [] then [] else Flat(chunks[..|chunks| - 1]) + (if chunks[|chunks| - 1].Some? then chunks[|chunks| - 1].value else [])
  }

  /** What the merge writes: nothing when it would throw, zero padding when chunks are short. */
  function Merged(chunks: seq<Option<Bytes>>, size: nat): Option<Bytes> {
    if NoHole(chunks) && |Flat(chunks)| <= size then Some(Flat(chunks) + seq(size - |Flat(chunks)|, _ => 0)) else None
  }

  function EntryFor(s: Receiver, f: Frame): Entry {
    if f.id in s.transfers then s.transfers[f.id] else Entry(f.size, f.total, [])
  }

  function Receive(s: Receiver, f: Frame): Receiver {
    var before := EntryFor(s, f);
    var entry := before.(chunks := Put(before.chunks, f.seq_, f.data));
    if Filled(entry.chunks) < entry.total then s.(transfers := s.transfers[f.id := entry])
    else
      var merged := Merged(entry.chunks, entry.size);
      Receiver(s.transfers - {f.id}, if merged.Some? then s.delivered + [Item(f.id, merged.value)] else s.delivered)
  }

  /** A frame arrives, or the sweep drops some transfers. */
  datatype Event = Arrives(frame: Frame) | Sweep(ids: set<int>)

  function Apply(s: Receiver, e: Event): Receiver {
    match e
    case Arrives(f) => Receive(s, f)
    case Sweep(ids) => s.(transfers := s.transfers - ids)
  }

  function Exec(es: seq<Event>): Receiver {
    if es == [] then EMPTY else Apply(Exec(es[..|es| - 1]), es[|es| - 1])
  }

  // --------------------------------------------------------------------- sending

  function Total(bytes: Bytes): nat {
    ChunkCount(|bytes|, CHUNK_BYTES)
  }

  function FrameOf(id: int, bytes: Bytes, k: nat): Frame {
    Frame(id, |bytes|, Total(bytes), k, Slice(bytes, CHUNK_BYTES, k))
  }

  method SendBytes(id: int, bytes: Bytes) returns (frames: seq<Frame>)
    ensures |frames| == Total(bytes)
    ensures forall k | 0 <= k < |frames| :: frames[k] == FrameOf(id, bytes, k)
    ensures forall k | 0 <= k < |frames| ::
      var start, end := 0x4_0000 * k, if k + 1 < |frames| then 0x4_0000 * (k + 1) else |bytes|;
      start < end <= |bytes| && end - start <= 0x4_0000 && frames[k] == Frame(id, |bytes|, |frames|, k, bytes[start..end])
  {
    var total := ChunkCount(|bytes|, CHUNK_BYTES);
    frames := [];
    var k := 0;
    while k < total
      invariant 0 <= k <= total && |frames| == k
      invariant forall i | 0 <= i < k :: frames[i] == FrameOf(id, bytes, i)
    {
      var start := k * CHUNK_BYTES;
      StartInside(|bytes|, CHUNK_BYTES, k);
      var end := if start + CHUNK_BYTES < |bytes| then start + CHUNK_BYTES else |bytes|;
      frames := frames + [Frame(id, |bytes|, total, k, bytes[start..end])];
      k := k + 1;
    }
  }

  /** What was sent under each transfer id; every frame is authenticated, so it is one of these. */
  type Sent = map<int, Bytes>

  ghost predicate Genuine(sent: Sent, e: Event) {
    e.Arrives? ==>
      var f := e.frame; f.id in sent && f.seq_ < Total(sent[f.id]) && f == FrameOf(f.id, sent[f.id], f.seq_)
  }

  ghost predicate AllGenuine(sent: Sent, es: seq<Event>) {
    forall i | 0 <= i < |es| :: Genuine(sent, es[i])
  }

  // ------------------------------------------------------------------- invariant

  /** A transfer in progress holds only the bytes sent, and not all of them yet. */
  ghost predicate Partial(bytes: Bytes, e: Entry) {
    && e.size == |bytes| && e.total == Total(bytes) && |e.chunks| <= e.total && Filled(e.chunks) < e.total
    && Holds(bytes, e.chunks)
  }

  ghost predicate Holds(bytes: Bytes, chunks: seq<Option<Bytes>>) {
    forall k | 0 <= k < |chunks| && chunks[k].Some? :: chunks[k].value == Slice(bytes, CHUNK_BYTES, k)
  }

  ghost predicate Inv(sent: Sent, s: Receiver) {
    && (forall id | id in s.transfers :: id in sent && Partial(sent[id], s.transfers[id]))
    && (forall i | 0 <= i < |s.delivered| :: s.delivered[i].id in sent && s.delivered[i].bytes == sent[s.delivered[i].id])
  }

  lemma {:induction false} FilledAtMost(chunks: seq<Option<Bytes>>)
    ensures Filled(chunks) <= |chunks|
    ensures Filled(chunks) == |chunks| <==> NoHole(chunks)
  {
    if chunks != [] {
      var n := |chunks| - 1;
      FilledAtMost(chunks[..n]);
      assert NoHole(chunks) <==> NoHole(chunks[..n]) && chunks[n].Some?;
    }
  }

  lemma {:induction false} FlatIsJoined(bytes: Bytes, chunks: seq<Option<Bytes>>)
    requires NoHole(chunks) && Holds(bytes, chunks)
    ensures Flat(chunks) == Joined(bytes, CHUNK_BYTES, |chunks|)
  {
    if chunks != [] { FlatIsJoined(bytes, chunks[..|chunks| - 1]); }
  }

  /** Enough chunks are all the chunks, and merge to the bytes sent. */
  lemma {:induction false} FullMerges(bytes: Bytes, chunks: seq<Option<Bytes>>)
    requires |chunks| <= Total(bytes) <= Filled(chunks) && Holds(bytes, chunks)
    ensures NoHole(chunks) && |chunks| == Total(bytes) && Merged(chunks, |bytes|) == Some(bytes)
  {
    FilledAtMost(chunks);
    FlatIsJoined(bytes, chunks);
    SlicesRebuildFile(bytes, CHUNK_BYTES);
    assert Flat(chunks) == bytes && Merged(chunks, |bytes|).value == bytes;
  }

  /** A genuine frame either fills in one more chunk or completes the bytes. */
  ghost predicate Advances(sent: Sent, s: Receiver, f: Frame, t: Receiver)
    requires f.id in sent
  {
    var chunks := Put(EntryFor(s, f).chunks, f.seq_, f.data); var entry := Entry(|sent[f.id]|, Total(sent[f.id]), chunks);
    && |chunks| <= entry.total && Holds(sent[f.id], chunks)
    && t == if Filled(chunks) < entry.total then s.(transfers := s.transfers[f.id := entry])
            else Receiver(s.transfers - {f.id}, s.delivered + [Item(f.id, sent[f.id])])
  }

  lemma {:induction false} ReceiveAdvances(sent: Sent, s: Receiver, f: Frame)
    requires Inv(sent, s) && Genuine(sent, Arrives(f))
    ensures Advances(sent, s, f, Receive(s, f))
  {
    var chunks := Put(EntryFor(s, f).chunks, f.seq_, f.data);
    if Filled(chunks) >= Total(sent[f.id]) { FullMerges(sent[f.id], chunks); }
  }

  lemma {:induction false} AdvancePreserves(sent: Sent, s: Receiver, f: Frame, t: Receiver)
    requires Inv(sent, s) && f.id in sent && Advances(sent, s, f, t)
    ensures Inv(sent, t)
  {
  }

  lemma {:induction false} StepPreserves(sent: Sent, s: Receiver, e: Event)
    requires Inv(sent, s) && Genuine(sent, e)
    ensures Inv(sent, Apply(s, e))
  {
    if e.Arrives? {
      ReceiveAdvances(sent, s, e.frame);
      AdvancePreserves(sent, s, e.frame, Receive(s, e.frame));
    }
  }

  lemma {:induction false} RunPreserves(sent: Sent, es: seq<Event>)
    requires AllGenuine(sent, es)
    ensures Inv(sent, Exec(es))
  {
    if es != [] {
      var n := |es| - 1;
      RunPreserves(sent, es[..n]);
      StepPreserves(sent, Exec(es[..n]), es[n]);
    }
  }

  // -------------------------------------------------------------------- theorems

  /** Whatever is reordered, repeated, lost or swept, only bytes that were sent are delivered, unchanged. */
  lemma {:induction false} OnlySentBytesAreDelivered(sent: Sent, es: seq<Event>, i: nat)
    requires AllGenuine(sent, es) && i < |Exec(es).delivered|
    ensures var item := Exec(es).delivered[i]; item.id in sent && item.bytes == sent[item.id]
  {
    RunPreserves(sent, es);
  }

  function Deliveries(items: seq<Item>, id: int): nat {
    if items == [] then 0 else Deliveries(items[..|items| - 1], id) + if items[|items| - 1].id == id then 1 else 0
  }

  function Arrivals(es: seq<Event>, id: int): nat {
    if es == [] then 0
    else
      var e := es[|es| - 1];
      Arrivals(es[..|es| - 1], id) + if e.Arrives? && e.frame.id == id then 1 else 0
  }

  function Waiting(s: Receiver, id: int): nat {
    if id in s.transfers then Filled(s.transfers[id].chunks) else 0
  }

  lemma {:induction false} DeliveriesPush(items: seq<Item>, item: Item, id: int)
    ensures Deliveries(items + [item], id) == Deliveries(items, id) + if item.id == id then 1 else 0
  {
    assert (items + [item])[..|items|] == items;
  }

  lemma {:induction false} FilledHoles(chunks: seq<Option<Bytes>>, n: nat)
    ensures Filled(chunks + seq(n, _ => None)) == Filled(chunks)
  {
    if n == 0 {
      assert chunks + seq(n, _ => None) == chunks;
    } else {
      FilledHoles(chunks, n - 1);
      assert (chunks + seq(n, _ => None))[..|chunks| + n - 1] == chunks + seq(n - 1, _ => None);
    }
  }

  lemma {:induction false} FilledUpdate(chunks: seq<Option<Bytes>>, i: nat, data: Bytes)
    requires i < |chunks|
    ensures Filled(chunks[i := Some(data)]) == Filled(chunks) + if chunks[i].Some? then 0 else 1
  {
    var n := |chunks| - 1;
    if i == n {
      assert chunks[i := Some(data)][..n] == chunks[..n];
    } else {
      FilledUpdate(chunks[..n], i, data);
      assert chunks[i := Some(data)][..n] == chunks[..n][i := Some(data)];
    }
  }

  /** A put adds one filled chunk, unless it replaces one. */
  lemma {:induction false} FilledPut(chunks: seq<Option<Bytes>>, i: nat, data: Bytes)
    ensures Filled(Put(chunks, i, data)) == Filled(chunks) + if i < |chunks| && chunks[i].Some? then 0 else 1
  {
    if i < |chunks| {
      FilledUpdate(chunks, i, data);
    } else {
      var holes := chunks + seq(i - |chunks|, _ => None);
      FilledHoles(chunks, i - |chunks|);
      assert (holes + [Some(data)])[..|holes|] == holes;
    }
  }

  /** A delivery turns a full count of frames into one. */
  lemma {:induction false} Pays(d: nat, w: nat, after: nat, left: nat, total: nat, hit: nat)
    requires (after == d && left <= w + hit) || (after == d + 1 && left == 0 && w + hit >= total)
    ensures after * total + left <= d * total + w + hit
  {
  }

  lemma {:induction false} OtherPaysNothing(sent: Sent, s: Receiver, f: Frame, t: Receiver, id: int)
    requires f.id in sent && f.id != id && Advances(sent, s, f, t)
    ensures Deliveries(t.delivered, id) == Deliveries(s.delivered, id) && Waiting(t, id) == Waiting(s, id)
  {
    DeliveriesPush(s.delivered, Item(f.id, sent[f.id]), id);
  }

  lemma {:induction false} OwnPays(sent: Sent, s: Receiver, f: Frame, t: Receiver)
    requires f.id in sent && Advances(sent, s, f, t)
    ensures Deliveries(t.delivered, f.id) * Total(sent[f.id]) + Waiting(t, f.id)
         <= Deliveries(s.delivered, f.id) * Total(sent[f.id]) + Waiting(s, f.id) + 1
  {
    DeliveriesPush(s.delivered, Item(f.id, sent[f.id]), f.id);
    FilledPut(EntryFor(s, f).chunks, f.seq_, f.data);
    Pays(Deliveries(s.delivered, f.id), Waiting(s, f.id), Deliveries(t.delivered, f.id), Waiting(t, f.id), Total(sent[f.id]), 1);
  }

  lemma {:induction false} AdvancePays(sent: Sent, s: Receiver, f: Frame, t: Receiver, id: int)
    requires id in sent && f.id in sent && Advances(sent, s, f, t)
    ensures Deliveries(t.delivered, id) * Total(sent[id]) + Waiting(t, id)
         <= Deliveries(s.delivered, id) * Total(sent[id]) + Waiting(s, id) + if f.id == id then 1 else 0
  {
    if f.id == id { OwnPays(sent, s, f, t); } else { OtherPaysNothing(sent, s, f, t, id); }
  }

  /**
   * Deliveries are paid for: each one uses up as many arrived frames as the
   * transfer has chunks, beyond those still waiting.
   */
  lemma {:induction false} DeliveriesArePaidFor(sent: Sent, es: seq<Event>, id: int)
    requires AllGenuine(sent, es) && id in sent
    ensures Deliveries(Exec(es).delivered, id) * Total(sent[id]) + Waiting(Exec(es), id) <= Arrivals(es, id)
  {
    if es != [] {
      var n := |es| - 1;
      RunPreserves(sent, es[..n]);
      DeliveriesArePaidFor(sent, es[..n], id);
      if es[n].Arrives? {
        ReceiveAdvances(sent, Exec(es[..n]), es[n].frame);
        AdvancePays(sent, Exec(es[..n]), es[n].frame, Exec(es), id);
      }
    }
  }

  // ---------------------------------------------------------------------- rounds

  /** How often all chunks of a transfer have come together, and which have come since. */
  datatype Round = Round(done: nat, have: set<nat>)

  predicate HasAll(have: set<nat>, total: nat) {
    forall k | 0 <= k < total :: k in have
  }

  function Take(r: Round, k: nat, total: nat): Round {
    if HasAll(r.have + {k}, total) then Round(r.done + 1, {}) else Round(r.done, r.have + {k})
  }

  /** An independent count: only the ids and numbers of the frames matter, not what they carry. */
  function Rounds(es: seq<Event>, id: int, total: nat): Round {
    if es == [] then Round(0, {})
    else
      var r := Rounds(es[..|es| - 1], id, total);
      match es[|es| - 1]
      case Arrives(f) => if f.id == id then Take(r, f.seq_, total) else r
      case Sweep(ids) => if id in ids then Round(r.done, {}) else r
  }

  /** The filled places of the array. */
  ghost predicate FilledAt(have: set<nat>, chunks: seq<Option<Bytes>>) {
    forall k: nat :: k in have <==> k < |chunks| && chunks[k].Some?
  }

  function ChunksOf(s: Receiver, id: int): seq<Option<Bytes>> {
    if id in s.transfers then s.transfers[id].chunks else []
  }

  ghost predicate Tracks(r: Round, s: Receiver, id: int) {
    Deliveries(s.delivered, id) == r.done && FilledAt(r.have, ChunksOf(s, id))
  }

  lemma {:induction false} PutFills(have: set<nat>, chunks: seq<Option<Bytes>>, i: nat, data: Bytes)
    requires FilledAt(have, chunks)
    ensures FilledAt(have + {i}, Put(chunks, i, data))
  {
  }

  lemma {:induction false} AllIffFull(have: set<nat>, chunks: seq<Option<Bytes>>, total: nat)
    requires FilledAt(have, chunks) && 0 < total && |chunks| <= total
    ensures HasAll(have, total) <==> Filled(chunks) >= total
  {
    FilledAtMost(chunks);
    if HasAll(have, total) {
      assert total - 1 in have;
      forall k | 0 <= k < |chunks| ensures chunks[k].Some? { assert k in have; }
    }
    if Filled(chunks) >= total {
      forall k | 0 <= k < total ensures k in have { assert chunks[k].Some?; }
    }
  }

  /** A frame of another transfer. */
  lemma {:induction false} TracksOther(sent: Sent, r: Round, s: Receiver, f: Frame, t: Receiver, id: int)
    requires f.id in sent && f.id != id && Advances(sent, s, f, t) && Tracks(r, s, id)
    ensures Tracks(r, t, id)
  {
    DeliveriesPush(s.delivered, Item(f.id, sent[f.id]), id);
    assert ChunksOf(t, id) == ChunksOf(s, id);
  }

  lemma {:induction false} TracksOwn(sent: Sent, r: Round, s: Receiver, f: Frame, t: Receiver)
    requires f.id in sent && 0 < Total(sent[f.id]) && Advances(sent, s, f, t) && Tracks(r, s, f.id)
    ensures Tracks(Take(r, f.seq_, Total(sent[f.id])), t, f.id)
  {
    var before := EntryFor(s, f).chunks;
    var chunks := Put(before, f.seq_, f.data);
    assert before == ChunksOf(s, f.id);
    PutFills(r.have, before, f.seq_, f.data);
    AllIffFull(r.have + {f.seq_}, chunks, Total(sent[f.id]));
    if Filled(chunks) < Total(sent[f.id]) {
      assert ChunksOf(t, f.id) == chunks;
    } else {
      DeliveriesPush(s.delivered, Item(f.id, sent[f.id]), f.id);
      assert ChunksOf(t, f.id) == [];
    }
  }

  lemma {:induction false} TracksStep(sent: Sent, r: Round, s: Receiver, e: Event, id: int)
    requires Inv(sent, s) && Genuine(sent, e) && id in sent && Tracks(r, s, id)
    ensures var next := match e
        case Arrives(f) => if f.id == id then Take(r, f.seq_, Total(sent[id])) else r
        case Sweep(ids) => if id in ids then Round(r.done, {}) else r;
      Tracks(next, Apply(s, e), id)
  {
    match e
    case Arrives(f) =>
      ReceiveAdvances(sent, s, f);
      if f.id == id { TracksOwn(sent, r, s, f, Receive(s, f)); } else { TracksOther(sent, r, s, f, Receive(s, f), id); }
    case Sweep(ids) =>
      assert ChunksOf(Apply(s, e), id) == if id in ids then [] else ChunksOf(s, id);
  }

  lemma {:induction false} RunTracks(sent: Sent, es: seq<Event>, id: int)
    requires AllGenuine(sent, es) && id in sent
    ensures Tracks(Rounds(es, id, Total(sent[id])), Exec(es), id)
  {
    if es != [] {
      var n := |es| - 1;
      RunTracks(sent, es[..n], id);
      RunPreserves(sent, es[..n]);
      TracksStep(sent, Rounds(es[..n], id, Total(sent[id])), Exec(es[..n]), es[n], id);
    }
  }

  /**
   * In every run, whatever is reordered, repeated, lost or swept: a transfer is
   * delivered once for each time all its chunks have come together since it was
   * last delivered or swept.
   */
  lemma {:induction false} DeliveredOncePerRound(sent: Sent, es: seq<Event>, id: int)
    requires AllGenuine(sent, es) && id in sent
    ensures Deliveries(Exec(es).delivered, id) == Rounds(es, id, Total(sent[id])).done
  {
    RunTracks(sent, es, id);
  }

  // -------------------------------------------------------------- exactly when once

  predicate SweepFree(es: seq<Event>, id: int) {
    forall i | 0 <= i < |es| && es[i].Sweep? :: id !in es[i].ids
  }

  /** Chunk k of transfer id has arrived. */
  predicate Arrived(es: seq<Event>, id: int, k: nat) {
    exists i :: 0 <= i < |es| && es[i].Arrives? && es[i].frame.id == id && es[i].frame.seq_ == k
  }

  predicate Complete(es: seq<Event>, id: int, total: nat) {
    forall k | 0 <= k < total :: Arrived(es, id, k)
  }

  lemma {:induction false} ArrivedLast(es: seq<Event>, id: int, k: nat)
    requires es != []
    ensures var n := |es| - 1;
      Arrived(es, id, k) <==> Arrived(es[..n], id, k) || (es[n].Arrives? && es[n].frame.id == id && es[n].frame.seq_ == k)
  {
    var n := |es| - 1;
    if Arrived(es[..n], id, k) {
      var i :| 0 <= i < n && es[..n][i].Arrives? && es[..n][i].frame.id == id && es[..n][i].frame.seq_ == k;
      assert es[i] == es[..n][i];
    }
    if Arrived(es, id, k) {
      var i :| 0 <= i < |es| && es[i].Arrives? && es[i].frame.id == id && es[i].frame.seq_ == k;
      if i < n { assert es[..n][i] == es[i]; }
    }
  }

  lemma {:induction false} CompleteGrows(es: seq<Event>, id: int, total: nat)
    requires es != [] && Complete(es[..|es| - 1], id, total)
    ensures Complete(es, id, total)
  {
    forall k | 0 <= k < total ensures Arrived(es, id, k) { ArrivedLast(es, id, k); }
  }

  /** Until the chunks are complete the open round holds what has arrived. */
  ghost predicate Collected(es: seq<Event>, id: int, r: Round) {
    r.done == 0 && forall k: nat :: k in r.have <==> Arrived(es, id, k)
  }

  lemma {:induction false} CollectedIsComplete(es: seq<Event>, id: int, have: set<nat>, total: nat)
    requires forall k: nat :: k in have <==> Arrived(es, id, k)
    ensures HasAll(have, total) <==> Complete(es, id, total)
  {
    if HasAll(have, total) {
      forall k | 0 <= k < total ensures Arrived(es, id, k) { assert k in have; }
    }
    if Complete(es, id, total) {
      forall k | 0 <= k < total ensures k in have { assert Arrived(es, id, k); }
    }
  }

  lemma {:induction false} FirstRound(es: seq<Event>, id: int, total: nat)
    requires SweepFree(es, id) && total > 0
    ensures var r := Rounds(es, id, total); if Complete(es, id, total) then r.done >= 1 else Collected(es, id, r)
  {
    if es == [] {
      assert !Arrived(es, id, 0);
    } else {
      var n := |es| - 1;
      FirstRound(es[..n], id, total);
      if Complete(es[..n], id, total) {
        CompleteGrows(es, id, total);
      } else {
        FirstRoundNext(es, id, total);
      }
    }
  }

  lemma {:induction false} FirstRoundNext(es: seq<Event>, id: int, total: nat)
    requires es != [] && SweepFree(es, id) && total > 0
    requires Collected(es[..|es| - 1], id, Rounds(es[..|es| - 1], id, total))
    ensures var r := Rounds(es, id, total); if Complete(es, id, total) then r.done >= 1 else Collected(es, id, r)
  {
    var n := |es| - 1;
    var r := Rounds(es[..n], id, total);
    var own := es[n].Arrives? && es[n].frame.id == id;
    var have := if own then r.have + {es[n].frame.seq_} else r.have;
    forall k: nat ensures k in have <==> Arrived(es, id, k) { ArrivedLast(es, id, k); }
    CollectedIsComplete(es, id, have, total);
    if !own {
      CollectedIsComplete(es[..n], id, r.have, total);
      OpenRound(es[..n], id, total);
    }
  }

  /** The round in progress always lacks something. */
  lemma {:induction false} OpenRound(es: seq<Event>, id: int, total: nat)
    requires total > 0
    ensures !HasAll(Rounds(es, id, total).have, total)
  {
    if es == [] {
      assert 0 !in Rounds(es, id, total).have;
    } else {
      OpenRound(es[..|es| - 1], id, total);
      assert 0 !in Round(0, {}).have;
    }
  }

  /** After a completion the transfer starts over: what follows counts as if it were alone. */
  lemma {:induction false} StartsOver(a: seq<Event>, b: seq<Event>, id: int, total: nat)
    requires Rounds(a, id, total).have == {}
    ensures Rounds(a + b, id, total) == Round(Rounds(a, id, total).done + Rounds(b, id, total).done, Rounds(b, id, total).have)
    decreases |b|
  {
    if b == [] {
      assert a + b == a;
    } else {
      var n := |b| - 1;
      StartsOver(a, b[..n], id, total);
      assert (a + b)[..|a| + n] == a + b[..n] && (a + b)[|a| + n] == b[n];
    }
  }

  /** The transfer first becomes complete with the last of the first c events. */
  predicate CompletesAt(es: seq<Event>, c: nat, id: int, total: nat) {
    0 < c <= |es| && Complete(es[..c], id, total) && !Complete(es[..c - 1], id, total)
  }

  lemma {:induction false} SomewhereComplete(es: seq<Event>, id: int, total: nat) returns (c: nat)
    requires Complete(es, id, total) && total > 0
    ensures CompletesAt(es, c, id, total)
  {
    EmptyIsIncomplete(id, total);
    var n := |es| - 1;
    assert es[..n + 1] == es;
    if Complete(es[..n], id, total) {
      c := SomewhereComplete(es[..n], id, total);
      assert es[..n][..c] == es[..c] && es[..n][..c - 1] == es[..c - 1];
    } else {
      c := n + 1;
    }
  }

  lemma {:induction false} EmptyIsIncomplete(id: int, total: nat)
    requires total > 0
    ensures !Complete([], id, total)
  {
    assert !Arrived([], id, 0);
  }

  lemma {:induction false} RoundEnds(es: seq<Event>, c: nat, id: int, total: nat)
    requires SweepFree(es, id) && total > 0 && CompletesAt(es, c, id, total)
    ensures Rounds(es[..c], id, total) == Round(1, {})
  {
    var a := es[..c];
    assert a[..c - 1] == es[..c - 1];
    FirstRound(a[..c - 1], id, total);
    FirstRound(a, id, total);
  }

  /**
   * Unless it is swept, a transfer is delivered at all exactly when all its
   * chunks arrive, and a second time exactly when after its first completion
   * they all arrive again.
   */
  lemma {:induction false} DeliveredAgainIff(sent: Sent, es: seq<Event>, id: int, c: nat)
    requires AllGenuine(sent, es) && id in sent && SweepFree(es, id) && sent[id] != []
    ensures var n := Deliveries(Exec(es).delivered, id); var total := Total(sent[id]);
      && (n >= 1 <==> Complete(es, id, total))
      && (CompletesAt(es, c, id, total) ==> (n >= 2 <==> Complete(es[c..], id, total)))
  {
    var total := Total(sent[id]);
    NonEmptyHasChunks(sent[id]);
    DeliveredOncePerRound(sent, es, id);
    FirstRound(es, id, total);
    if CompletesAt(es, c, id, total) {
      RoundEnds(es, c, id, total);
      StartsOver(es[..c], es[c..], id, total);
      assert es[..c] + es[c..] == es;
      FirstRound(es[c..], id, total);
    }
  }

  lemma {:induction false} NonEmptyHasChunks(bytes: Bytes)
    requires bytes != []
    ensures Total(bytes) > 0
  {
    assert |bytes| + CHUNK_BYTES - 1 >= CHUNK_BYTES;
  }

  /** No frame twice and no sweep. */
  ghost predicate Undisturbed(es: seq<Event>) {
    && (forall i | 0 <= i < |es| :: es[i].Arrives?)
    && forall i, j | 0 <= i < j < |es| :: !(es[i].frame.id == es[j].frame.id && es[i].frame.seq_ == es[j].frame.seq_)
  }

  lemma {:induction false} NotAgain(es: seq<Event>, c: nat, id: int, k: nat)
    requires Undisturbed(es) && c <= |es| && Arrived(es[..c], id, k)
    ensures !Arrived(es[c..], id, k)
  {
    var i :| 0 <= i < c && es[..c][i].Arrives? && es[..c][i].frame.id == id && es[..c][i].frame.seq_ == k;
    forall j | 0 <= j < |es[c..]| ensures !(es[c..][j].frame.id == id && es[c..][j].frame.seq_ == k) {
      assert es[c..][j] == es[c + j] && es[..c][i] == es[i];
    }
  }

  /**
   * Without repeats and sweeps, in any order and with any other transfers in
   * between, a transfer is delivered exactly once when all its chunks have
   * arrived, and not before; an empty one, having no chunks, never is.
   */
  lemma {:induction false} DeliveredExactlyOnce(sent: Sent, es: seq<Event>, id: int)
    requires AllGenuine(sent, es) && Undisturbed(es) && id in sent
    ensures Deliveries(Exec(es).delivered, id) == if sent[id] != [] && Complete(es, id, Total(sent[id])) then 1 else 0
  {
    if sent[id] == [] {
      EmptyIsNeverDelivered(sent, es, id);
    } else if Complete(es, id, Total(sent[id])) {
      NonEmptyHasChunks(sent[id]);
      var c := SomewhereComplete(es, id, Total(sent[id]));
      DeliveredAgainIff(sent, es, id, c);
      assert Arrived(es[..c], id, 0);
      NotAgain(es, c, id, 0);
    } else {
      DeliveredAgainIff(sent, es, id, 0);
    }
  }

  /** Sending nothing sends no frame, so nothing is ever delivered for it, whatever else happens. */
  lemma {:induction false} EmptyIsNeverDelivered(sent: Sent, es: seq<Event>, id: int)
    requires AllGenuine(sent, es) && id in sent && sent[id] == []
    ensures Deliveries(Exec(es).delivered, id) == 0
  {
    if es != [] {
      var n := |es| - 1;
      EmptyIsNeverDelivered(sent, es[..n], id);
      if es[n].Arrives? {
        RunPreserves(sent, es[..n]);
        ReceiveAdvances(sent, Exec(es[..n]), es[n].frame);
        DeliveriesPush(Exec(es[..n]).delivered, Item(es[n].frame.id, sent[es[n].frame.id]), id);
      }
    }
  }

  /** A transfer of a single chunk is delivered as often as its frame arrives, swept or not. */
  lemma {:induction false} RepeatedSingleChunkRepeats(sent: Sent, es: seq<Event>, id: int)
    requires AllGenuine(sent, es) && id in sent && Total(sent[id]) == 1
    ensures Deliveries(Exec(es).delivered, id) == Arrivals(es, id)
  {
    DeliveredOncePerRound(sent, es, id);
    SingleRounds(sent, es, id);
  }

  lemma {:induction false} SingleRounds(sent: Sent, es: seq<Event>, id: int)
    requires AllGenuine(sent, es) && id in sent && Total(sent[id]) == 1
    ensures Rounds(es, id, 1) == Round(Arrivals(es, id), {})
  {
    if es != [] {
      var n := |es| - 1;
      SingleRounds(sent, es[..n], id);
      assert Genuine(sent, es[n]);
    }
  }

  // ------------------------------------------------------------------ operations

  /** merged.set(chunk, offset) */
  method CopyInto(merged: array<bv8>, chunk: Bytes, offset: nat)
    requires offset + |chunk| <= merged.Length
    modifies merged
    ensures merged[..] == old(merged[..offset]) + chunk + old(merged[offset + |chunk|..])
  {
    var i := 0;
    while i < |chunk|
      invariant 0 <= i <= |chunk|
      invariant merged[..offset] == old(merged[..offset]) && merged[offset + |chunk|..] == old(merged[offset + |chunk|..])
      invariant merged[offset..offset + i] == chunk[..i]
    {
      merged[offset + i] := chunk[i];
      i := i + 1;
      assert chunk[..i] == chunk[..i - 1] + [chunk[i - 1]];
      assert merged[offset..offset + i] == merged[offset..offset + i - 1] + [merged[offset + i - 1]];
    }
    assert merged[..] == merged[..offset] + merged[offset..offset + |chunk|] + merged[offset + |chunk|..];
  }

  lemma {:induction false} FlatNext(chunks: seq<Option<Bytes>>, k: nat)
    requires k < |chunks| && chunks[k].Some?
    ensures Flat(chunks[..k + 1]) == Flat(chunks[..k]) + chunks[k].value
  {
    assert chunks[..k + 1][..k] == chunks[..k];
  }

  lemma {:induction false} FlatGrows(chunks: seq<Option<Bytes>>, k: nat)
    requires k <= |chunks|
    ensures |Flat(chunks[..k])| <= |Flat(chunks)|
  {
    if k < |chunks| {
      var n := |chunks| - 1;
      FlatGrows(chunks[..n], k);
      assert chunks[..n][..k] == chunks[..k];
    } else {
      assert chunks[..k] == chunks;
    }
  }

  /** Merging the chunks in order; None where a hole or an overflow makes it throw. */
  method Merge(chunks: seq<Option<Bytes>>, size: nat) returns (r: Option<Bytes>)
    ensures r == Merged(chunks, size)
  {
    var merged := new bv8[size](_ => 0);
    var offset, k := 0, 0;
    ghost var rest: Bytes := seq(size, _ => 0);
    while k < |chunks|
      invariant 0 <= k <= |chunks| && NoHole(chunks[..k]) && offset == |Flat(chunks[..k])| <= size
      invariant rest == seq(size - offset, _ => 0) && merged[..] == Flat(chunks[..k]) + rest
    {
      if chunks[k].None? { return None; }
      var chunk := chunks[k].value;
      FlatNext(chunks, k);
      FlatGrows(chunks, k + 1);
      if offset + |chunk| > size { return None; }
      CopyInto(merged, chunk, offset);
      rest := seq(size - offset - |chunk|, _ => 0);
      offset, k := offset + |chunk|, k + 1;
    }
    assert chunks[..k] == chunks;
    r := Some(merged[..]);
  }

  /** The receiving side: the module's `transfers` map, when each began, and the items handed on. */
  class Inbox {
    var transfers: map<int, Entry>
    var startedAt: map<int, int>
    var delivered: seq<Item>

    function State(): Receiver
      reads this
    {
      Receiver(transfers, delivered)
    }

    predicate Valid()
      reads this
    {
      startedAt.Keys == transfers.Keys
    }

    /** Transfers that began more than a minute ago. */
    function Stale(clock: int): set<int>
      requires Valid()
      reads this
    {
      set id | id in transfers && clock - startedAt[id] > STALE_MS
    }

    constructor ()
      ensures Valid() && State() == EMPTY
    {
      transfers, startedAt, delivered := map[], map[], [];
    }

    /** A transfer keeps the time its first frame came; later frames do not refresh it. */
    method HandleChunk(f: Frame, clock: int)
      requires Valid()
      modifies this
      ensures Valid() && State() == Apply(old(State()), Arrives(f))
      ensures forall id | id in transfers :: startedAt[id] == if id in old(transfers) then old(startedAt)[id] else clock
    {
      ghost var s := State();
      var entry := if f.id in transfers then transfers[f.id] else Entry(f.size, f.total, []);
      assert entry == EntryFor(s, f);
      if f.id !in transfers { startedAt := startedAt[f.id := clock]; }
      entry := entry.(chunks := Put(entry.chunks, f.seq_, f.data));
      if Filled(entry.chunks) < entry.total {
        transfers := transfers[f.id := entry];
        assert State() == Receive(s, f);
        return;
      }
      transfers, startedAt := transfers - {f.id}, startedAt - {f.id};
      var merged := Merge(entry.chunks, entry.size);
      if merged.Some? { delivered := delivered + [Item(f.id, merged.value)]; }
      assert State() == Receive(s, f);
    }

    /** Drop one transfer if it is stale. */
    method Expire(id: int, clock: int)
      requires Valid() && id in transfers
      modifies this`transfers, this`startedAt
      ensures Valid() && var gone := if id in old(Stale(clock)) then {id} else {};
        transfers == old(transfers) - gone && startedAt == old(startedAt) - gone
    {
      if clock - startedAt[id] > STALE_MS {
        transfers, startedAt := transfers - {id}, startedAt - {id};
      }
    }

    method SweepStale(clock: int)
      requires Valid()
      modifies this`transfers, this`startedAt
      ensures Valid() && State() == Apply(old(State()), Sweep(old(Stale(clock)))) && Stale(clock) == {}
      ensures forall id :: id in transfers <==> id in old(transfers) && clock - old(startedAt)[id] <= 60_000
      ensures forall id | id in transfers :: transfers[id] == old(transfers)[id] && startedAt[id] == old(startedAt)[id]
    {
      ghost var before, since, stale := transfers, startedAt, Stale(clock);
      var todo := transfers.Keys;
      while todo != {}
        invariant Valid() && todo <= transfers.Keys
        invariant transfers == before - (stale - todo) && startedAt == since - (stale - todo)
        decreases |todo|
      {
        NonEmpty(todo);
        var id :| id in todo;
        assert id in Stale(clock) <==> id in stale;
        Expire(id, clock);
        RemoveOne(before, stale, todo, id);
        RemoveOne(since, stale, todo, id);
        todo := todo - {id};
      }
      assert stale - todo == stale;
    }
  }

  lemma {:induction false} RemoveOne<V>(m: map<int, V>, stale: set<int>, todo: set<int>, id: int)
    requires id in todo
    ensures m - (stale - todo) - (if id in stale then {id} else {}) == m - (stale - (todo - {id}))
  {
  }
}
