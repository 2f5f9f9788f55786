/**
 * Attachment, inline and pending-inline files (internal/media/service.go) over
 * the tables of internal/db/db.go.  Each transaction or clean-up is one step,
 * and so is deleting a note with its file bookkeeping.
 */
module FileRefs {
  import opened Prelude

  datatype Kind = Attachment | Inline

  datatype Ref = Ref(note: int, file: int, kind: Kind)

  datatype File = File(original: Option<int>, pendingNote: Option<int>, pendingAt: Option<int>, deleted: bool)

  datatype Store = Store(notes: set<int>, files: map<int, File>, refs: set<Ref>)

  function RefsTo(refs: set<Ref>, f: int): set<Ref> {
    set r | r in refs && r.file == f
  }

  /** UPDATE files SET deleted_at = now for these ids. */
  function SoftDelete(files: map<int, File>, ids: set<int>): map<int, File> {
    map f | f in files :: if f in ids then files[f].(deleted := true) else files[f]
  }

  // ----------------------------------------------------------------- operations

  function InlineRefs(n: int, ids: set<int>): set<Ref> {
    set f | f in ids :: Ref(n, f, Inline)
  }

  function OtherRefs(refs: set<Ref>, n: int): set<Ref> {
    set r | r in refs && !(r.note == n && r.kind == Inline)
  }

  /** Files named in the body of note n are no longer pending for it. */
  function ClearPending(files: map<int, File>, n: int, ids: set<int>): map<int, File> {
    map f | f in files ::
      if f in ids && files[f].pendingNote == Some(n) then files[f].(pendingNote := None, pendingAt := None) else files[f]
  }

  /** Live files pending for note n that it does not name. */
  function Orphans(files: map<int, File>, refs: set<Ref>, n: int): set<int> {
    set f | f in files && files[f].pendingNote == Some(n) && !files[f].deleted && Ref(n, f, Inline) !in refs
  }

  /** The foreign keys of the rows inserted for the body of note n. */
  predicate KeysExist(s: Store, n: int, ids: set<int>) {
    forall f | f in ids :: f in s.files && n in s.notes
  }

  function Reconciled(s: Store, n: int, ids: set<int>): Store {
    if !KeysExist(s, n, ids) then s
    else
      var refs := OtherRefs(s.refs, n) + InlineRefs(n, ids);
      var files := ClearPending(s.files, n, ids);
      Store(s.notes, SoftDelete(files, Orphans(files, refs, n)), refs)
  }

  function Removed(s: Store, n: int, f: int): Store {
    var refs := set r | r in s.refs && !(r.note == n && r.file == f);
    Store(s.notes, if RefsTo(refs, f) == {} then SoftDelete(s.files, {f}) else s.files, refs)
  }

  /** Files the note refers to or holds pending. */
  function Candidates(s: Store, n: int): set<int> {
    (set r | r in s.refs && r.note == n :: r.file)
    + (set f | f in s.files && s.files[f].pendingNote == Some(n) && !s.files[f].deleted)
  }

  predicate Deletable(s: Store, n: int, f: int) {
    |RefsTo(s.refs, f)| <= 1 && (f in s.files ==> s.files[f].pendingNote.None? || s.files[f].pendingNote == Some(n))
  }

  function DeletableFiles(s: Store, n: int): set<int> {
    set f | f in Candidates(s, n) && Deletable(s, n, f)
  }

  /** DELETE FROM notes: rows pending for the note go with it, and all its refs and theirs. */
  function Cascade(s: Store, n: int): Store {
    var gone := set f | f in s.files && s.files[f].pendingNote == Some(n);
    Store(
      s.notes - {n},
      map f | f in s.files && f !in gone :: if s.files[f].original == Some(n) then s.files[f].(original := None) else s.files[f],
      set r | r in s.refs && r.note != n && r.file !in gone)
  }

  function NoteDeleted(s: Store, n: int): Store {
    if n !in s.notes then s
    else
      var after := Cascade(s, n);
      after.(files := SoftDelete(after.files, DeletableFiles(s, n)))
  }

  /** Live files waiting since before the cutoff that nothing refers to. */
  function Abandoned(s: Store, cutoff: int): set<int> {
    set f | f in s.files && s.files[f].pendingAt.Some? && s.files[f].pendingAt.value <= cutoff && !s.files[f].deleted
            && RefsTo(s.refs, f) == {}
  }

  datatype Event =
    | AddNote(note: int)
    | CreateAttachment(note: int, file: int)
    | CreateInline(note: int, file: int)
    | MarkPending(note: int, file: int, at: int)
    | UploadFailed(file: int)
    | RemoveAttachment(note: int, file: int)
    | Reconcile(note: int, ids: set<int>)
    | DeleteNote(note: int)
    | CleanUpPending(cutoff: int)

  function NewFile(n: int): File {
    File(Some(n), None, None, false)
  }

  /** New rows get ids not yet in use. */
  predicate Enabled(s: Store, e: Event) {
    match e
    case AddNote(n) => n !in s.notes
    case CreateAttachment(_, f) => f !in s.files
    case CreateInline(_, f) => f !in s.files
    case _ => true
  }

  function Apply(s: Store, e: Event): Store {
    match e
    case AddNote(n) => s.(notes := s.notes + {n})
    case CreateAttachment(n, f) =>
      if n in s.notes then s.(files := s.files[f := NewFile(n)], refs := s.refs + {Ref(n, f, Attachment)}) else s
    case CreateInline(n, f) => if n in s.notes then s.(files := s.files[f := NewFile(n)]) else s
    case MarkPending(n, f, at) =>
      if n in s.notes && f in s.files then s.(files := s.files[f := s.files[f].(pendingNote := Some(n), pendingAt := Some(at))]) else s
    case UploadFailed(f) =>
      Store(s.notes, SoftDelete(s.files, {f}), set r | r in s.refs && r.file != f)
    case RemoveAttachment(n, f) => Removed(s, n, f)
    case Reconcile(n, ids) => Reconciled(s, n, ids)
    case DeleteNote(n) => NoteDeleted(s, n)
    case CleanUpPending(cutoff) => s.(files := SoftDelete(s.files, Abandoned(s, cutoff)))
  }

  // -------------------------------------------------------------------- theorems

  /** Every reference in the tables points at an existing row. */
  ghost predicate KeysHold(s: Store) {
    && (forall r | r in s.refs :: r.note in s.notes && r.file in s.files)
    && (forall f | f in s.files && s.files[f].pendingNote.Some? :: s.files[f].pendingNote.value in s.notes)
    && (forall f | f in s.files && s.files[f].original.Some? :: s.files[f].original.value in s.notes)
  }

  lemma {:induction false} StepKeepsKeys(s: Store, e: Event)
    requires KeysHold(s) && Enabled(s, e)
    ensures KeysHold(Apply(s, e))
  {
  }

  lemma {:induction false} AtMostOne(refs: set<Ref>, f: int, a: Ref, b: Ref)
    requires |RefsTo(refs, f)| <= 1 && a in RefsTo(refs, f) && b in RefsTo(refs, f)
    ensures a == b
  {
    if a != b {
      SubsetSize({a, b}, RefsTo(refs, f));
    }
  }

  /** File f is soft-deleted by this step while some note still refers to it. */
  ghost predicate LosesReferenced(s: Store, e: Event, f: int) {
    var t := Apply(s, e);
    f in s.files && !s.files[f].deleted && f in t.files && t.files[f].deleted && RefsTo(t.refs, f) != {}
  }

  /** Saving a note that holds f pending, no longer names it, while something else refers to it. */
  ghost predicate SaveDropsShared(s: Store, e: Event, f: int) {
    && e.Reconcile? && KeysExist(s, e.note, e.ids)
    && f in s.files && !s.files[f].deleted && s.files[f].pendingNote == Some(e.note) && f !in e.ids
    && exists r :: r in s.refs && r.file == f && !(r.note == e.note && r.kind == Inline)
  }

  lemma {:induction false} ReconcileLoses(s: Store, n: int, ids: set<int>, f: int)
    requires KeysHold(s)
    ensures LosesReferenced(s, Reconcile(n, ids), f) <==> SaveDropsShared(s, Reconcile(n, ids), f)
  {
    if KeysExist(s, n, ids) {
      var t := Reconciled(s, n, ids);
      if LosesReferenced(s, Reconcile(n, ids), f) {
        var r :| r in RefsTo(t.refs, f);
        assert Ref(n, f, Inline) !in t.refs;
        assert f !in ids;
        assert r in OtherRefs(s.refs, n);
      }
      if SaveDropsShared(s, Reconcile(n, ids), f) {
        var r :| r in s.refs && r.file == f && !(r.note == n && r.kind == Inline);
        assert r in RefsTo(t.refs, f);
      }
    }
  }

  lemma {:induction false} DeleteNoteLosesNone(s: Store, n: int, f: int)
    requires KeysHold(s)
    ensures !LosesReferenced(s, DeleteNote(n), f)
  {
    if n in s.notes && LosesReferenced(s, DeleteNote(n), f) {
      var t := NoteDeleted(s, n);
      var r :| r in RefsTo(t.refs, f);
      assert f in DeletableFiles(s, n) && s.files[f].pendingNote != Some(n);
      var own :| own in s.refs && own.note == n && own.file == f;
      AtMostOne(s.refs, f, own, r);
    }
  }

  /**
   * A file is soft-deleted while still referred to in exactly one situation:
   * saving a note that holds it pending and does not name it, when some other
   * reference to it exists.  In particular a file that is not pending never is.
   */
  lemma {:induction false} ReferencedLossIff(s: Store, e: Event, f: int)
    requires KeysHold(s) && Enabled(s, e)
    ensures LosesReferenced(s, e, f) <==> SaveDropsShared(s, e, f)
    ensures f in s.files && s.files[f].pendingNote.None? ==> !LosesReferenced(s, e, f)
  {
    match e
    case Reconcile(n, ids) => ReconcileLoses(s, n, ids, f);
    case DeleteNote(n) => DeleteNoteLosesNone(s, n, f);
    case _ =>
  }

  /** File rows go only with the note they are pending for. */
  lemma {:induction false} RowsVanishIff(s: Store, e: Event, f: int)
    requires Enabled(s, e) && f in s.files
    ensures f !in Apply(s, e).files <==> e.DeleteNote? && e.note in s.notes && s.files[f].pendingNote == Some(e.note)
  {
    match e
    case DeleteNote(n) =>
    case _ =>
  }

  predicate Runs(s: Store, es: seq<Event>)
    decreases |es|
  {
    es == [] || (Enabled(s, es[0]) && Runs(Apply(s, es[0]), es[1..]))
  }

  function Exec(s: Store, es: seq<Event>): Store
    decreases |es|
  {
    if es == [] then s else Exec(Apply(s, es[0]), es[1..])
  }

  lemma {:induction false} RunKeepsKeys(s: Store, es: seq<Event>)
    requires KeysHold(s) && Runs(s, es)
    ensures KeysHold(Exec(s, es))
    decreases |es|
  {
    if es != [] {
      StepKeepsKeys(s, es[0]);
      RunKeepsKeys(Apply(s, es[0]), es[1..]);
    }
  }

  const EMPTY := Store({}, map[], {})

  /** In every run, no step soft-deletes a file that is not pending while a note refers to it. */
  lemma {:induction false} OnlyUnreferencedFilesGo(es: seq<Event>, e: Event, f: int)
    requires Runs(EMPTY, es) && Enabled(Exec(EMPTY, es), e)
    ensures var s := Exec(EMPTY, es); f in s.files && s.files[f].pendingNote.None? ==> !LosesReferenced(s, e, f)
  {
    RunKeepsKeys(EMPTY, es);
    ReferencedLossIff(Exec(EMPTY, es), e, f);
  }

  /** The exception is reached: note 2 names a file still pending for note 1, which is then saved without it. */
  lemma {:induction false} SharedPendingFileIsLost()
    ensures var es := [AddNote(1), AddNote(2), CreateInline(1, 7), MarkPending(1, 7, 0), Reconcile(2, {7})];
      Runs(EMPTY, es) && LosesReferenced(Exec(EMPTY, es), Reconcile(1, {}), 7)
  {
    var es := [AddNote(1), AddNote(2), CreateInline(1, 7), MarkPending(1, 7, 0), Reconcile(2, {7})];
    var s1 := Apply(EMPTY, es[0]);
    var s2 := Apply(s1, es[1]);
    var s3 := Apply(s2, es[2]);
    var s4 := Apply(s3, es[3]);
    var s5 := Apply(s4, es[4]);
    assert es[1..][1..][1..][1..][1..] == [];
    assert es[1..][1..][1..][1..] == [es[4]];
    assert Exec(s4, [es[4]]) == s5 && Runs(s4, [es[4]]);
    assert Exec(s3, es[1..][1..][1..]) == s5 && Runs(s3, es[1..][1..][1..]);
    assert Exec(s2, es[1..][1..]) == s5 && Runs(s2, es[1..][1..]);
    assert Ref(2, 7, Inline) in RefsTo(Apply(s5, Reconcile(1, {})).refs, 7);
  }

  /**
   * Reconciling succeeds exactly when the named files (and then the note)
   * exist.  The note's inline references become exactly the named files, all
   * other references stay, and exactly its live pending files that it does not
   * name are soft-deleted.
   */
  lemma {:induction false} ReconcileIsExact(s: Store, n: int, ids: set<int>, f: int, r: Ref)
    ensures var t := Reconciled(s, n, ids);
      if !(forall i | i in ids :: i in s.files && n in s.notes) then t == s
      else
        && t.notes == s.notes
        && (Ref(n, f, Inline) in t.refs <==> f in ids)
        && (!(r.note == n && r.kind == Inline) ==> (r in t.refs <==> r in s.refs))
        && (f in t.files <==> f in s.files)
        && (f in s.files ==>
             && (t.files[f].deleted <==> s.files[f].deleted || (s.files[f].pendingNote == Some(n) && f !in ids))
             && (t.files[f].pendingNote == if f in ids && s.files[f].pendingNote == Some(n) then None else s.files[f].pendingNote)
             && (t.files[f].pendingAt == if f in ids && s.files[f].pendingNote == Some(n) then None else s.files[f].pendingAt)
             && t.files[f].original == s.files[f].original)
  {
    if KeysExist(s, n, ids) {
      var t := Reconciled(s, n, ids);
      assert Ref(n, f, Inline) in t.refs <==> f in ids;
    }
  }

  ghost predicate SameButDeleted(a: File, b: File) {
    a.original == b.original && a.pendingNote == b.pendingNote && a.pendingAt == b.pendingAt
  }

  /**
   * Removing a file from a note drops both kinds of reference of this pair and
   * no other.  It soft-deletes the file exactly when all its references were of
   * this note.
   */
  lemma {:induction false} RemovalIsExact(s: Store, n: int, f: int, g: int, r: Ref)
    ensures var t := Apply(s, RemoveAttachment(n, f));
      && t.notes == s.notes && (r in t.refs <==> r in s.refs && !(r.note == n && r.file == f)) && t.files.Keys == s.files.Keys
      && (g in s.files ==>
           && SameButDeleted(t.files[g], s.files[g])
           && (t.files[g].deleted <==> s.files[g].deleted || (g == f && forall q | q in s.refs && q.file == f :: q.note == n)))
  {
    var t := Apply(s, RemoveAttachment(n, f));
    if q :| q in s.refs && q.file == f && q.note != n { assert q in RefsTo(t.refs, f); }
    assert t.files.Keys == s.files.Keys;
  }

  /** A failed upload loses its references and is soft-deleted, and that is all. */
  lemma {:induction false} FailedUploadIsExact(s: Store, f: int, g: int, r: Ref)
    ensures var t := Apply(s, UploadFailed(f));
      && t.notes == s.notes && (r in t.refs <==> r in s.refs && r.file != f) && t.files.Keys == s.files.Keys
      && (g in s.files ==> SameButDeleted(t.files[g], s.files[g]) && (t.files[g].deleted <==> s.files[g].deleted || g == f))
  {
    assert Apply(s, UploadFailed(f)).files.Keys == s.files.Keys;
  }

  ghost predicate PendingUnused(s: Store, cutoff: int, g: int)
    requires g in s.files
  {
    s.files[g].pendingAt.Some? && s.files[g].pendingAt.value <= cutoff && forall r | r in s.refs :: r.file != g
  }

  /** The clean-up soft-deletes the files pending since the cutoff or before that nothing refers to, and that is all. */
  lemma {:induction false} CleanUpIsExact(s: Store, cutoff: int, g: int)
    ensures var t := Apply(s, CleanUpPending(cutoff));
      && t.notes == s.notes && t.refs == s.refs && t.files.Keys == s.files.Keys
      && (g in s.files ==>
           && SameButDeleted(t.files[g], s.files[g])
           && (t.files[g].deleted <==> s.files[g].deleted || PendingUnused(s, cutoff, g)))
  {
    assert Apply(s, CleanUpPending(cutoff)).files.Keys == s.files.Keys;
    if r :| r in s.refs && r.file == g { assert r in RefsTo(s.refs, g); }
  }

  /** A new file belongs to its note, is neither pending nor deleted, and is referred to as it was created. */
  lemma {:induction false} CreationIsExact(s: Store, e: Event, g: int, r: Ref)
    requires e.CreateAttachment? || e.CreateInline?
    ensures var t := Apply(s, e);
      if e.note !in s.notes then t == s
      else
        && t.notes == s.notes && (r in t.refs <==> r in s.refs || (e.CreateAttachment? && r == Ref(e.note, e.file, Attachment)))
        && (g in t.files <==> g in s.files || g == e.file)
        && (g in t.files ==> t.files[g] == if g == e.file then File(Some(e.note), None, None, false) else s.files[g])
  {
  }

  lemma {:induction false} FewRefs(refs: set<Ref>, f: int)
    ensures |RefsTo(refs, f)| <= 1 <==> forall p, q | p in refs && q in refs && p.file == f && q.file == f :: p == q
  {
    var to := RefsTo(refs, f);
    if |to| <= 1 {
      forall p, q | p in refs && q in refs && p.file == f && q.file == f ensures p == q { AtMostOne(refs, f, p, q); }
    }
    if forall p, q | p in refs && q in refs && p.file == f && q.file == f :: p == q {
      if p :| p in to { SubsetSize(to, {p}); }
    }
  }

  /**
   * Deleting a note takes its references, the files pending for it and their
   * references.  Of the other files it soft-deletes those it refers to that are
   * pending for nobody and have no second reference, its own included.
   */
  lemma {:induction false} DeletionIsExact(s: Store, n: int, g: int, r: Ref)
    ensures var t := Apply(s, DeleteNote(n));
      if n !in s.notes then t == s
      else
        && t.notes == s.notes - {n}
        && (r in t.refs <==> r in s.refs && r.note != n && !(r.file in s.files && s.files[r.file].pendingNote == Some(n)))
        && (g in t.files <==> g in s.files && s.files[g].pendingNote != Some(n))
        && (g in t.files ==>
             && t.files[g].original == (if s.files[g].original == Some(n) then None else s.files[g].original)
             && t.files[g].pendingNote == s.files[g].pendingNote && t.files[g].pendingAt == s.files[g].pendingAt
             && (t.files[g].deleted <==> s.files[g].deleted || (s.files[g].pendingNote.None? && RefersAlone(s.refs, n, g))))
  {
    FewRefs(s.refs, g);
    if n in s.notes && g in s.files && s.files[g].pendingNote != Some(n) {
      assert g in Candidates(s, n) <==> exists q :: q in s.refs && q.note == n && q.file == g;
    }
  }

  /** Note n refers to file f, and there is no other reference to it. */
  ghost predicate RefersAlone(refs: set<Ref>, n: int, f: int) {
    && (exists q :: q in refs && q.note == n && q.file == f)
    && forall p, q | p in refs && q in refs && p.file == f && q.file == f :: p == q
  }

  /** Saving twice with the same body is saving once. */
  lemma {:induction false} ReconcileTwice(s: Store, n: int, ids: set<int>)
    ensures Reconciled(Reconciled(s, n, ids), n, ids) == Reconciled(s, n, ids)
  {
    if KeysExist(s, n, ids) {
      var t := Reconciled(s, n, ids);
      var u := Reconciled(t, n, ids);
      assert u.refs == t.refs;
      forall f | f in t.files ensures u.files[f] == t.files[f] {
        assert Ref(n, f, Inline) in u.refs <==> f in ids;
        assert Ref(n, f, Inline) in t.refs <==> f in ids;
      }
      assert u.files == t.files;
    }
  }

  /** Only note n refers to f. */
  ghost predicate OnlyOwner(s: Store, n: int, f: int) {
    RefsTo(s.refs, f) != {} && forall r | r in RefsTo(s.refs, f) :: r.note == n
  }

  lemma {:induction false} EitherKind(r: Ref)
    ensures r == Ref(r.note, r.file, Attachment) || r == Ref(r.note, r.file, Inline)
  {
    match r.kind
    case Attachment =>
    case Inline =>
  }

  /**
   * Deleting the only note that refers to a settled file soft-deletes the file
   * exactly when the note refers to it in one way; a file both attached and
   * inline in that note counts two references and is left behind.
   */
  lemma {:induction false} NoteDeletionCollectsIff(s: Store, n: int, f: int)
    requires KeysHold(s) && n in s.notes && f in s.files && !s.files[f].deleted && s.files[f].pendingNote.None? && OnlyOwner(s, n, f)
    ensures var t := NoteDeleted(s, n);
      && f in t.files && RefsTo(t.refs, f) == {}
      && (t.files[f].deleted <==> !(Ref(n, f, Attachment) in s.refs && Ref(n, f, Inline) in s.refs))
  {
    var own :| own in RefsTo(s.refs, f);
    assert f in Candidates(s, n);
    if Ref(n, f, Attachment) in s.refs && Ref(n, f, Inline) in s.refs {
      if |RefsTo(s.refs, f)| <= 1 { AtMostOne(s.refs, f, Ref(n, f, Attachment), Ref(n, f, Inline)); }
    } else {
      forall r | r in RefsTo(s.refs, f) ensures r == own {
        EitherKind(r);
        EitherKind(own);
      }
      assert RefsTo(s.refs, f) == {own};
    }
  }

  /** A file attached to its note and then named in the note's body as well outlives the note. */
  lemma {:induction false} AttachedAndNamed(s: Store, n: int, f: int)
    requires KeysHold(s) && n in s.notes && f in s.files && s.files[f] == NewFile(n) && s.refs == {Ref(n, f, Attachment)}
    ensures var t := NoteDeleted(Reconciled(s, n, {f}), n); f in t.files && !t.files[f].deleted && RefsTo(t.refs, f) == {}
  {
    var named := Reconciled(s, n, {f});
    ReconcileIsExact(s, n, {f}, f, Ref(n, f, Attachment));
    assert KeysHold(named) && n in named.notes by { StepKeepsKeys(s, Reconcile(n, {f})); }
    forall r | r in RefsTo(named.refs, f) ensures r.note == n {
      if r !in OtherRefs(s.refs, n) { assert r in InlineRefs(n, {f}); }
    }
    assert Ref(n, f, Inline) in RefsTo(named.refs, f);
    NoteDeletionCollectsIff(named, n, f);
  }

  lemma {:induction false} RunNext(s: Store, e: Event, es: seq<Event>, t: Store)
    requires Enabled(s, e) && Runs(Apply(s, e), es) && Exec(Apply(s, e), es) == t
    ensures Runs(s, [e] + es) && Exec(s, [e] + es) == t
  {
    assert ([e] + es)[1..] == es;
  }

  ghost predicate Next(s: Store, e: Event, t: Store) {
    Enabled(s, e) && Apply(s, e) == t
  }

  lemma {:induction false} FourSteps(s: seq<Store>, e: seq<Event>)
    requires |s| == 5 && |e| == 4 && forall i | 0 <= i < 4 :: Next(s[i], e[i], s[i + 1])
    ensures Runs(s[0], e) && Exec(s[0], e) == s[4]
  {
    RunNext(s[3], e[3], [], s[4]);
    RunNext(s[2], e[2], [e[3]], s[4]);
    RunNext(s[1], e[1], [e[2], e[3]], s[4]);
    RunNext(s[0], e[0], [e[1], e[2], e[3]], s[4]);
    assert [e[3]] + [] == [e[3]] && [e[2]] + [e[3]] == [e[2], e[3]];
    assert [e[1]] + [e[2], e[3]] == [e[1], e[2], e[3]];
    assert e == [e[0]] + [e[1], e[2], e[3]];
  }

  /** It happens to every file: attached to a note, then named in its body, then the note is deleted. */
  lemma {:induction false} DeletedNoteLeavesFile(n: int, f: int)
    ensures var es := [AddNote(n), CreateAttachment(n, f), Reconcile(n, {f}), DeleteNote(n)];
      var t := Exec(EMPTY, es);
      Runs(EMPTY, es) && f in t.files && !t.files[f].deleted && RefsTo(t.refs, f) == {}
  {
    var s1 := Store({n}, map[], {});
    var s2 := Store({n}, map[f := NewFile(n)], {Ref(n, f, Attachment)});
    assert Next(EMPTY, AddNote(n), s1) && Next(s1, CreateAttachment(n, f), s2);
    AttachedAndNamed(s2, n, f);
    var s3 := Reconciled(s2, n, {f});
    var s4 := NoteDeleted(s3, n);
    FourSteps([EMPTY, s1, s2, s3, s4], [AddNote(n), CreateAttachment(n, f), Reconcile(n, {f}), DeleteNote(n)]);
  }

  // --------------------------------------------------------------- the service

  class Service {
    var notes: set<int>
    var files: map<int, File>
    var refs: set<Ref>

    function State(): Store
      reads this
    {
      Store(notes, files, refs)
    }

    constructor ()
      ensures State() == EMPTY
    {
      notes, files, refs := {}, map[], {};
    }

    /** The rows of a query over ids, in any order. */
    method Rows(ids: set<int>) returns (rows: seq<int>)
      ensures Elements(rows) == ids
    {
      rows := [];
      ghost var done: set<int> := {};
      var todo := ids;
      while todo != {}
        invariant done + todo == ids && Elements(rows) == done
        decreases |todo|
      {
        NonEmpty(todo);
        var id :| id in todo;
        ElementsPush(rows, id);
        rows, done, todo := rows + [id], done + {id}, todo - {id};
      }
    }

    method SoftDeleteFiles(ids: seq<int>)
      modifies this`files
      ensures files == SoftDelete(old(files), Elements(ids))
    {
      ghost var done: set<int> := {};
      var i := 0;
      while i < |ids|
        invariant 0 <= i <= |ids| && done == Elements(ids[..i])
        invariant files == SoftDelete(old(files), done)
      {
        ElementsPush(ids[..i], ids[i]);
        assert ids[..i + 1] == ids[..i] + [ids[i]];
        files := SoftDelete(files, {ids[i]});
        done := done + {ids[i]};
        i := i + 1;
      }
      assert ids[..|ids|] == ids;
    }

    method CleanupFailedUpload(f: int)
      modifies this
      ensures State() == Apply(old(State()), UploadFailed(f))
    {
      refs := set r | r in refs && r.file != f;
      files := SoftDelete(files, {f});
    }

    method RemoveAttachment(n: int, f: int)
      modifies this
      ensures State() == Apply(old(State()), Event.RemoveAttachment(n, f))
    {
      refs := set r | r in refs && !(r.note == n && r.file == f);
      var refCount := |RefsTo(refs, f)|;
      if refCount == 0 {
        files := SoftDelete(files, {f});
      }
    }

    /** The insert loop of a save; false when a foreign key fails. */
    method InsertInlineRefs(n: int, ids: seq<int>, files0: map<int, File>, refs0: set<Ref>)
      returns (ok: bool, files1: map<int, File>, refs1: set<Ref>)
      requires files0.Keys == files.Keys
      ensures ok <==> KeysExist(State(), n, Elements(ids))
      ensures ok ==> files1 == ClearPending(files0, n, Elements(ids)) && refs1 == refs0 + InlineRefs(n, Elements(ids))
    {
      files1, refs1 := files0, refs0;
      ghost var done: set<int> := {};
      var i := 0;
      while i < |ids|
        invariant 0 <= i <= |ids| && done == Elements(ids[..i])
        invariant KeysExist(State(), n, done)
        invariant files1 == ClearPending(files0, n, done) && refs1 == refs0 + InlineRefs(n, done)
      {
        var f := ids[i];
        if f !in files || n !in notes {
          assert f in Elements(ids);
          return false, files1, refs1;
        }
        ElementsPush(ids[..i], f);
        assert ids[..i + 1] == ids[..i] + [f];
        InlineRefsPush(n, done, f);
        refs1 := refs1 + {Ref(n, f, Inline)};
        files1 := ClearPending(files1, n, {f});
        done := done + {f};
        i := i + 1;
      }
      assert ids[..|ids|] == ids;
      ok := true;
    }

    lemma {:induction false} InlineRefsPush(n: int, ids: set<int>, f: int)
      ensures InlineRefs(n, ids + {f}) == InlineRefs(n, ids) + {Ref(n, f, Inline)}
    {
      forall r | r in InlineRefs(n, ids + {f}) ensures r in InlineRefs(n, ids) + {Ref(n, f, Inline)} {
        var g :| g in ids + {f} && r == Ref(n, g, Inline);
      }
      assert f in ids + {f};
    }

    /** One transaction: nothing is kept unless every insert succeeds. */
    method ReconcileInlineRefs(n: int, ids: seq<int>) returns (ok: bool, orphaned: seq<int>)
      modifies this
      ensures ok <==> KeysExist(old(State()), n, Elements(ids))
      ensures State() == Apply(old(State()), Reconcile(n, Elements(ids)))
      ensures ok ==> forall f :: f in orphaned <==>
        f in old(files) && !old(files)[f].deleted && old(files)[f].pendingNote == Some(n) && f !in ids
    {
      var files1, refs1;
      ok, files1, refs1 := InsertInlineRefs(n, ids, files, OtherRefs(refs, n));
      if !ok { return false, []; }
      ghost var orphans := Orphans(files1, refs1, n);
      assert forall f :: f in InlineIds(refs1, n) <==> f in Elements(ids);
      orphaned := Rows(Orphans(files1, refs1, n));
      files, refs := files1, refs1;
      SoftDeleteFiles(orphaned);
      assert forall f :: f in orphaned <==> f in Elements(orphaned);
    }

    static function InlineIds(refs: set<Ref>, n: int): set<int> {
      set r | r in refs && r.note == n && r.kind == Inline :: r.file
    }

    method CollectDeletableFiles(n: int) returns (deletable: seq<int>)
      ensures Elements(deletable) == DeletableFiles(State(), n)
    {
      var fileIds := Rows(set r | r in refs && r.note == n :: r.file);
      var pending := Rows(set f | f in files && files[f].pendingNote == Some(n) && !files[f].deleted);
      assert forall f :: f in fileIds <==> f in Elements(fileIds);
      assert forall f :: f in pending <==> f in Elements(pending);
      fileIds := fileIds + pending;
      assert forall f :: f in fileIds <==> f in Candidates(State(), n);
      deletable := [];
      var i := 0;
      while i < |fileIds|
        invariant 0 <= i <= |fileIds|
        invariant forall f :: f in deletable <==> f in fileIds[..i] && Deletable(State(), n, f)
      {
        var f := fileIds[i];
        var refCount := |RefsTo(refs, f)|;
        var owner := if f in files then files[f].pendingNote else None;
        if refCount <= 1 && (owner.None? || owner == Some(n)) {
          deletable := deletable + [f];
        }
        i := i + 1;
      }
      assert fileIds[..|fileIds|] == fileIds;
      assert forall f :: f in deletable <==> f in DeletableFiles(State(), n);
    }

    /** The handler for deleting a note, with its file bookkeeping. */
    method DeleteNote(n: int) returns (found: bool)
      modifies this
      ensures found <==> n in old(notes)
      ensures State() == Apply(old(State()), Event.DeleteNote(n))
    {
      var deletable := CollectDeletableFiles(n);
      found := n in notes;
      if !found { return; }
      var after := Cascade(State(), n);
      notes, files, refs := after.notes, after.files, after.refs;
      SoftDeleteFiles(deletable);
    }

    method PendingInlineCleanup(cutoff: int)
      modifies this
      ensures State() == Apply(old(State()), CleanUpPending(cutoff))
    {
      var ids := Rows(Abandoned(State(), cutoff));
      SoftDeleteFiles(ids);
    }
  }
}
