/** What every run of the chunked upload protocol guarantees. */
module ChunkedUploadSafety {
  import opened ChunkedUpload
  import opened Prelude
  import opened Slicing

  lemma {:induction false} ReachableInv(p: Params, es: seq<Event>)
    requires Proper(p) && Valid(p, FRESH, es)
    ensures Inv(p, Exec(p, FRESH, es))
  {
    RunPreserves(p, FRESH, es);
  }

  /**
   * When the client's chunks are slices of one file, the media service receives
   * that file and nothing else, at most once, whatever is lost, repeated,
   * reordered, cancelled or killed; a completed session has delivered it.
   */
  lemma {:induction false} CompletedUploadIsTheFile(p: Params, es: seq<Event>)
    requires Proper(p) && p.source.Some? && Valid(p, FRESH, es)
    ensures var s := Exec(p, FRESH, es);
      && (s.media == [] || s.media == [p.source.value])
      && (s.row.Some? && s.row.value.status == Complete ==> s.media == [p.source.value])
  {
    ReachableInv(p, es);
    var s := Exec(p, FRESH, es);
    SlicesRebuildFile(p.source.value, p.chunkSize);
    if s.media != [] {
      assert s.media[0] == p.source.value;
      assert s.media == [s.media[0]];
    }
  }

  /**
   * Even when the chunks are not slices of one file (a resumed session with
   * another chunk size, say), a declared whole-file hash is what the media
   * service receives; with a collision-free hash that is the declared file.
   */
  lemma {:induction false} DeclaredHashIsDelivered(p: Params, es: seq<Event>, file: Bytes)
    requires Proper(p) && p.sha == Some(p.hash(file)) && Valid(p, FRESH, es)
    requires forall b :: p.hash(b) == p.hash(file) ==> b == file
    ensures var s := Exec(p, FRESH, es);
      && (s.media == [] || s.media == [file])
      && (s.row.Some? && s.row.value.status == Complete ==> s.media == [file])
  {
    ReachableInv(p, es);
    var s := Exec(p, FRESH, es);
    if s.media != [] {
      assert p.hash(s.media[0]) == p.hash(file);
      assert s.media == [s.media[0]];
    }
  }

  /**
   * chunks_done is duplicate-free, in range and names only stored chunks until
   * the files are removed; so a full count means every chunk is stored.
   */
  lemma {:induction false} FullCountMeansEveryChunk(p: Params, es: seq<Event>)
    requires Proper(p) && Valid(p, FRESH, es) && Exec(p, FRESH, es).row.Some?
    ensures var s := Exec(p, FRESH, es); var done := s.row.value.done;
      && NoDup(done)
      && (forall i | i in done :: i < p.total && (!s.removed ==> i in s.disk))
      && (|done| == p.total ==> forall i: nat | i < p.total :: i in done && (!s.removed ==> i in s.disk))
  {
    ReachableInv(p, es);
    var s := Exec(p, FRESH, es);
    if |s.row.value.done| == p.total {
      Pigeonhole(s.row.value.done, p.total);
    }
  }

  predicate Edge(a: Status, b: Status) {
    || a == b
    || (a == Uploading && b == Assembling)
    || (a == Assembling && (b == Verifying || b == Failed))
    || (a == Verifying && (b == Processing || b == Failed))
    || (a == Processing && (b == Complete || b == Failed))
  }

  /** The row as a holder of the claim left it. */
  lemma {:induction false} HolderStatus(p: Params, s: State, f: int)
    requires Inv(p, s) && f in s.finalizers && s.finalizers[f].Holds() && s.row.Some?
    ensures s.row.value.status == s.finalizers[f].Status()
  {
  }

  lemma {:induction false} StepFollowsPath(p: Params, s: State, e: Event)
    requires Inv(p, s) && Enabled(p, s, e)
    ensures var t := Apply(p, s, e);
      && (t.row.Some? ==> s.row.Some? && Edge(s.row.value.status, t.row.value.status))
      && (t.claims == s.claims || (s.claims == 0 && t.claims == 1 && e.TryClaim?))
  {
    if s.row.Some? {
      match e
      case CheckCount(f) => HolderStatus(p, s, f);
      case CopyChunk(f) => HolderStatus(p, s, f);
      case Close(f) => HolderStatus(p, s, f);
      case Verify(f) => HolderStatus(p, s, f);
      case Persist(f) => HolderStatus(p, s, f);
      case Abort(f) => HolderStatus(p, s, f);
      case _ =>
    }
  }

  /** Every step moves the status along the documented path; uploading is never re-entered. */
  lemma {:induction false} StatusFollowsPath(p: Params, es: seq<Event>, e: Event)
    requires Proper(p) && Valid(p, FRESH, es) && Enabled(p, Exec(p, FRESH, es), e)
    ensures var s := Exec(p, FRESH, es); var t := Apply(p, s, e);
      && (t.row.Some? ==> s.row.Some? && Edge(s.row.value.status, t.row.value.status))
      && (t.claims == s.claims || (s.claims == 0 && t.claims == 1 && e.TryClaim?))
  {
    ReachableInv(p, es);
    StepFollowsPath(p, Exec(p, FRESH, es), e);
  }

  /** At most one finalisation passes the claim, and at most one media file is ever created. */
  lemma {:induction false} OneClaimOneFile(p: Params, es: seq<Event>)
    requires Proper(p) && Valid(p, FRESH, es)
    ensures var s := Exec(p, FRESH, es);
      && s.claims <= 1 && |s.media| <= s.claims
      && forall f, g | f in s.finalizers && g in s.finalizers && s.finalizers[f].Holds() && s.finalizers[g].Holds() :: f == g
  {
    ReachableInv(p, es);
  }

  /**
   * Until the files are removed, assembling a full honest upload never misses a
   * chunk and its hash check never fails.
   */
  lemma {:induction false} HonestFinalizationSucceeds(p: Params, es: seq<Event>, f: int)
    requires Proper(p) && p.source.Some? && p.sha == Some(p.hash(p.source.value))
    requires Valid(p, FRESH, es) && f in Exec(p, FRESH, es).finalizers
    ensures var s := Exec(p, FRESH, es);
      && (Enabled(p, s, CopyChunk(f)) && !s.removed ==> f in Apply(p, s, CopyChunk(f)).finalizers)
      && (Enabled(p, s, Verify(f)) ==>
            f in Apply(p, s, Verify(f)).finalizers && Apply(p, s, Verify(f)).finalizers[f] == Verified(p.source.value))
  {
    ReachableInv(p, es);
    SlicesRebuildFile(p.source.value, p.chunkSize);
    var s := Exec(p, FRESH, es);
    assert GoodFinalizer(p, s, s.finalizers[f]);
  }

  // ------------------------------------------------------- a finaliser that died

  /** Claimed, and nobody is left who holds the claim. */
  ghost predicate Abandoned(s: State) {
    && (s.row.Some? ==> s.row.value.status != Uploading)
    && forall f | f in s.finalizers :: !s.finalizers[f].Holds()
  }

  /** The row is as it was, or gone, and so is what the media service was given. */
  ghost predicate SameOutcome(s: State, t: State) {
    t.media == s.media && (t.row.Some? ==> s.row.Some? && t.row.value.status == s.row.value.status)
  }

  lemma {:induction false} AbandonedStep(p: Params, s: State, e: Event)
    requires Abandoned(s) && Enabled(p, s, e)
    ensures Abandoned(Apply(p, s, e)) && SameOutcome(s, Apply(p, s, e))
  {
  }

  lemma {:induction false} AbandonedRun(p: Params, s: State, es: seq<Event>)
    requires Abandoned(s) && Valid(p, s, es)
    ensures SameOutcome(s, Exec(p, s, es))
    decreases |es|
  {
    if es != [] {
      AbandonedStep(p, s, es[0]);
      AbandonedRun(p, Apply(p, s, es[0]), es[1..]);
    }
  }

  /**
   * A crash after the claim is for good: no later request, finish attempt or
   * clean-up moves the status or delivers anything any more, so the session
   * neither completes nor fails, and only deleting its row ends it.
   */
  lemma {:induction false} CrashAfterClaimIsFinal(p: Params, s: State, es: seq<Event>)
    requires (s.row.Some? ==> s.row.value.status != Uploading) && Valid(p, Apply(p, s, Crash), es)
    ensures SameOutcome(s, Exec(p, Apply(p, s, Crash), es))
  {
    AbandonedRun(p, Apply(p, s, Crash), es);
  }
}
