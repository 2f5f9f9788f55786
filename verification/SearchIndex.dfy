/**
 * The semantic search index (internal/searchindex/searchindex.go): chunk rows,
 * and a vector table keyed by their ids that no foreign key watches.  Replacing
 * a note's index and dropping it are transactions; deleting a note drops its
 * index first and the note in a later statement.
 */
module SearchIndex {
  import opened NoteChunks
  import opened Prelude
  import TagNames

  datatype Vector = Vector(coordinates: seq<real>)

  datatype Row = Row(note: int, chunk: Chunk)

  /** `next` is the id the AUTOINCREMENT column gives next. */
  datatype Tables = Tables(notes: set<int>, rows: map<nat, Row>, vectors: map<nat, Vector>, next: nat)

  const EMPTY := Tables({}, map[], map[], 1)

  /** One job's embedding client: it may fail, and another job may get other vectors. */
  type Embedder = string -> Option<Vector>

  /** Which vectors embed a text. */
  type Embeds = (string, Vector) -> bool

  // ------------------------------------------------------------------------ steps

  function RowsOf(s: Tables, n: int): set<nat> {
    set id | id in s.rows && s.rows[id].note == n
  }

  function Cleared(s: Tables, n: int): Tables {
    s.(rows := s.rows - RowsOf(s, n), vectors := s.vectors - RowsOf(s, n))
  }

  function Added(s: Tables, n: int, c: Chunk, v: Vector): Tables {
    s.(rows := s.rows[s.next := Row(n, c)], vectors := s.vectors[s.next := v], next := s.next + 1)
  }

  ghost predicate Embeddable(chunks: seq<Chunk>, embed: Embedder) {
    forall i | 0 <= i < |chunks| :: embed(chunks[i].text).Some?
  }

  ghost function Inserted(s: Tables, n: int, chunks: seq<Chunk>, k: nat, embed: Embedder): Tables
    requires k <= |chunks| && Embeddable(chunks, embed)
  {
    if k == 0 then s else Added(Inserted(s, n, chunks, k - 1, embed), n, chunks[k - 1], embed(chunks[k - 1].text).value)
  }

  /** All chunks are embedded before the transaction; a missing note fails its first insert. */
  ghost predicate Accepted(s: Tables, n: int, chunks: seq<Chunk>, embed: Embedder) {
    Embeddable(chunks, embed) && (chunks == [] || n in s.notes)
  }

  ghost function Replaced(s: Tables, n: int, chunks: seq<Chunk>, embed: Embedder): Tables {
    if Accepted(s, n, chunks, embed) then Inserted(Cleared(s, n), n, chunks, |chunks|, embed) else s
  }

  /** DELETE FROM notes: the rows cascade, the vectors stay. */
  function NoteGone(s: Tables, n: int): Tables {
    s.(notes := s.notes - {n}, rows := s.rows - RowsOf(s, n))
  }

  /** handleDeleteSearchLeftovers, first statement: vectors without a row. */
  function VectorsSwept(s: Tables): Tables {
    s.(vectors := map id | id in s.vectors && id in s.rows :: s.vectors[id])
  }

  /** Second statement: rows without a note. */
  function RowsSwept(s: Tables): Tables {
    s.(rows := map id | id in s.rows && s.rows[id].note in s.notes :: s.rows[id])
  }

  datatype Event =
    | AddNote(note: int)
    | Replace(note: int, chunks: seq<Chunk>, embed: Embedder)
    | DeleteIndex(note: int)
    | DeleteNote(note: int)
    | SweepVectors
    | SweepRows

  ghost function Apply(s: Tables, e: Event): Tables {
    match e
    case AddNote(n) => s.(notes := s.notes + {n})
    case Replace(n, chunks, embed) => Replaced(s, n, chunks, embed)
    case DeleteIndex(n) => Cleared(s, n)
    case DeleteNote(n) => NoteGone(s, n)
    case SweepVectors => VectorsSwept(s)
    case SweepRows => RowsSwept(s)
  }

  ghost function Exec(s: Tables, es: seq<Event>): Tables
    decreases |es|
  {
    if es == [] then s else Exec(Apply(s, es[0]), es[1..])
  }

  /** What the client returns for a text embeds it. */
  ghost predicate Honest(e: Event, embeds: Embeds) {
    e.Replace? ==> forall text :: e.embed(text).Some? ==> embeds(text, e.embed(text).value)
  }

  ghost predicate AllHonest(es: seq<Event>, embeds: Embeds) {
    forall i | 0 <= i < |es| :: Honest(es[i], embeds)
  }

  // ------------------------------------------------------------------- invariant

  /** Every chunk row belongs to a note and has a vector of its own text; ids below `next` only. */
  ghost predicate Inv(s: Tables, embeds: Embeds) {
    && (forall id | id in s.rows :: GoodRow(s, id, embeds))
    && (forall id | id in s.vectors :: id < s.next)
  }

  ghost predicate GoodRow(s: Tables, id: nat, embeds: Embeds) {
    && id in s.rows && id < s.next && s.rows[id].note in s.notes
    && id in s.vectors && embeds(s.rows[id].chunk.text, s.vectors[id])
  }

  lemma {:induction false} AddedKeeps(s: Tables, n: int, c: Chunk, v: Vector, embeds: Embeds)
    requires Inv(s, embeds) && n in s.notes && embeds(c.text, v)
    ensures Inv(Added(s, n, c, v), embeds) && s.next !in s.vectors && s.next !in s.rows
  {
    var t := Added(s, n, c, v);
    forall id | id in s.rows ensures id != s.next { assert GoodRow(s, id, embeds); }
    forall id | id in t.rows ensures GoodRow(t, id, embeds) {
      if id != s.next { assert GoodRow(s, id, embeds); }
    }
  }

  /** No insert of a replacement is refused: neither table has the id yet. */
  lemma {:induction false} InsertedKeeps(s: Tables, n: int, chunks: seq<Chunk>, k: nat, embed: Embedder, embeds: Embeds)
    requires Inv(s, embeds) && Honest(Replace(n, chunks, embed), embeds)
    requires k <= |chunks| && Accepted(s, n, chunks, embed)
    ensures var t := Inserted(s, n, chunks, k, embed);
      Inv(t, embeds) && t.notes == s.notes && t.next == s.next + k && t.next !in t.vectors && t.next !in t.rows
  {
    if k > 0 {
      InsertedKeeps(s, n, chunks, k - 1, embed, embeds);
      AddedKeeps(Inserted(s, n, chunks, k - 1, embed), n, chunks[k - 1], embed(chunks[k - 1].text).value, embeds);
    }
    var t := Inserted(s, n, chunks, k, embed);
    forall id | id in t.rows ensures id != t.next { assert GoodRow(t, id, embeds); }
  }

  lemma {:induction false} ClearedKeeps(s: Tables, n: int, embeds: Embeds)
    requires Inv(s, embeds)
    ensures Inv(Cleared(s, n), embeds)
  {
    var t := Cleared(s, n);
    forall id | id in t.rows ensures GoodRow(t, id, embeds) { assert GoodRow(s, id, embeds); }
  }

  lemma {:induction false} StepKeeps(s: Tables, e: Event, embeds: Embeds)
    requires Inv(s, embeds) && Honest(e, embeds)
    ensures Inv(Apply(s, e), embeds)
  {
    if e.Replace? {
      if Accepted(s, e.note, e.chunks, e.embed) {
        ClearedKeeps(s, e.note, embeds);
        InsertedKeeps(Cleared(s, e.note), e.note, e.chunks, |e.chunks|, e.embed, embeds);
      }
    } else {
      var t := Apply(s, e);
      forall id | id in t.rows ensures GoodRow(t, id, embeds) { assert GoodRow(s, id, embeds); }
    }
  }

  lemma {:induction false} RunKeeps(s: Tables, es: seq<Event>, embeds: Embeds)
    requires Inv(s, embeds) && AllHonest(es, embeds)
    ensures Inv(Exec(s, es), embeds)
    decreases |es|
  {
    if es != [] {
      StepKeeps(s, es[0], embeds);
      RunKeeps(Apply(s, es[0]), es[1..], embeds);
    }
  }

  // ------------------------------------------------------------- leftover vectors

  function Leftover(s: Tables): set<nat> {
    s.vectors.Keys - s.rows.Keys
  }

  lemma {:induction false} InsertedLeaves(s: Tables, n: int, chunks: seq<Chunk>, k: nat, embed: Embedder, embeds: Embeds)
    requires Inv(s, embeds) && Honest(Replace(n, chunks, embed), embeds)
    requires k <= |chunks| && Accepted(s, n, chunks, embed)
    ensures Leftover(Inserted(s, n, chunks, k, embed)) == Leftover(s)
  {
    if k > 0 {
      InsertedLeaves(s, n, chunks, k - 1, embed, embeds);
      InsertedKeeps(s, n, chunks, k - 1, embed, embeds);
    }
  }

  /**
   * A vector loses its row exactly when the note is deleted while rows of it
   * are still there, and leaves the table again exactly at a sweep.
   */
  lemma {:induction false} LeftoverIff(s: Tables, e: Event, embeds: Embeds, id: nat)
    requires Inv(s, embeds) && Honest(e, embeds)
    ensures var t := Apply(s, e);
      && (id in Leftover(t) && id !in Leftover(s) <==> e.DeleteNote? && id in s.rows && s.rows[id].note == e.note)
      && (id !in Leftover(t) && id in Leftover(s) <==> e.SweepVectors? && id in Leftover(s))
  {
    if id in s.rows { assert GoodRow(s, id, embeds); }
    match e
    case Replace(n, chunks, embed) =>
      if Accepted(s, n, chunks, embed) {
        ClearedKeeps(s, n, embeds);
        InsertedLeaves(Cleared(s, n), n, chunks, |chunks|, embed, embeds);
        assert id in Leftover(Cleared(s, n)) <==> id in Leftover(s);
      }
    case _ =>
  }

  /**
   * The first clean-up statement leaves no such vector; the second, whatever
   * happened in between, never finds a row to remove.
   */
  lemma {:induction false} SweepIsClean(s: Tables, embeds: Embeds)
    requires Inv(s, embeds)
    ensures Leftover(VectorsSwept(s)) == {} && VectorsSwept(s).rows == s.rows
    ensures RowsSwept(s) == s
  {
    forall id | id in s.rows ensures id in RowsSwept(s).rows { assert GoodRow(s, id, embeds); }
  }

  /** Dropping the index right before the note leaves nothing of it behind. */
  lemma {:induction false} UndisturbedDeletionIsClean(s: Tables, n: int, embeds: Embeds, id: nat)
    requires Inv(s, embeds)
    ensures var t := Apply(Apply(s, DeleteIndex(n)), DeleteNote(n));
      Leftover(t) == Leftover(s) && (id in t.rows <==> id in s.rows && s.rows[id].note != n)
  {
    forall j | j in s.rows ensures j in s.vectors { assert GoodRow(s, j, embeds); }
  }

  /** An indexing job that runs between the two statements leaves its vectors behind. */
  lemma {:induction false} IndexingDuringDeletionLeaks(s: Tables, n: int, c: Chunk, embed: Embedder, embeds: Embeds)
    requires Inv(s, embeds) && n in s.notes && embed(c.text).Some? && Honest(Replace(n, [c], embed), embeds)
    ensures s.next in Leftover(Exec(s, [DeleteIndex(n), Replace(n, [c], embed), DeleteNote(n)]))
  {
    var cleared := Cleared(s, n);
    ClearedKeeps(s, n, embeds);
    ClearedKeeps(cleared, n, embeds);
    InsertedKeeps(Cleared(cleared, n), n, [c], 1, embed, embeds);
    var indexed := Apply(cleared, Replace(n, [c], embed));
    IndexedAlone(Cleared(cleared, n), n, c, embed);
    var gone := NoteGone(indexed, n);
    var es := [DeleteIndex(n), Replace(n, [c], embed), DeleteNote(n)];
    assert es[1..][1..] == [DeleteNote(n)] && es[1..][1..][1..] == [];
    assert Exec(indexed, [DeleteNote(n)]) == Exec(gone, []) == gone;
    assert Exec(cleared, es[1..]) == Exec(indexed, es[1..][1..]);
    assert Exec(s, es) == Exec(cleared, es[1..]);
  }

  lemma {:induction false} IndexedAlone(s: Tables, n: int, c: Chunk, embed: Embedder)
    requires embed(c.text).Some?
    ensures Embeddable([c], embed) && Inserted(s, n, [c], 1, embed) == Added(s, n, c, embed(c.text).value)
  {
    assert Inserted(s, n, [c], 0, embed) == s;
  }

  // ------------------------------------------------------------------ the index

  /** The chunks of note n among the ids below `upto`, in id order. */
  function Listed(rows: map<nat, Row>, n: int, upto: nat): seq<Chunk> {
    if upto == 0 then []
    else Listed(rows, n, upto - 1) + if upto - 1 in rows && rows[upto - 1].note == n then [rows[upto - 1].chunk] else []
  }

  ghost predicate AgreeOn(a: map<nat, Row>, b: map<nat, Row>, n: int, upto: nat) {
    forall id: nat | id < upto :: (id in a && a[id].note == n <==> id in b && b[id].note == n) && (id in a && a[id].note == n ==> a[id] == b[id])
  }

  lemma {:induction false} ListedSame(a: map<nat, Row>, b: map<nat, Row>, n: int, upto: nat)
    requires AgreeOn(a, b, n, upto)
    ensures Listed(a, n, upto) == Listed(b, n, upto)
  {
    if upto > 0 { ListedSame(a, b, n, upto - 1); }
  }

  lemma {:induction false} ListedNone(rows: map<nat, Row>, n: int, upto: nat)
    requires forall id | id in rows :: rows[id].note != n
    ensures Listed(rows, n, upto) == []
  {
    if upto > 0 { ListedNone(rows, n, upto - 1); }
  }

  lemma {:induction false} ListedAdded(s: Tables, n: int, c: Chunk, v: Vector, m: int)
    ensures Listed(Added(s, n, c, v).rows, m, s.next + 1) == Listed(s.rows, m, s.next) + if m == n then [c] else []
  {
    ListedSame(Added(s, n, c, v).rows, s.rows, m, s.next);
  }

  lemma {:induction false} ListedInserted(s: Tables, n: int, chunks: seq<Chunk>, k: nat, embed: Embedder, m: int)
    requires k <= |chunks| && Embeddable(chunks, embed)
    ensures var t := Inserted(s, n, chunks, k, embed);
      Listed(t.rows, m, t.next) == Listed(s.rows, m, s.next) + if m == n then chunks[..k] else []
  {
    if k > 0 {
      ListedInserted(s, n, chunks, k - 1, embed, m);
      ListedAdded(Inserted(s, n, chunks, k - 1, embed), n, chunks[k - 1], embed(chunks[k - 1].text).value, m);
      assert chunks[..k] == chunks[..k - 1] + [chunks[k - 1]];
    }
  }

  /** A replacement leaves exactly these chunks for the note, in order, and every other note's as they were. */
  lemma {:induction false} ReplaceIsExact(s: Tables, n: int, chunks: seq<Chunk>, embed: Embedder, m: int)
    requires Accepted(s, n, chunks, embed)
    ensures var t := Replaced(s, n, chunks, embed);
      Listed(t.rows, m, t.next) == if m == n then chunks else Listed(s.rows, m, s.next)
  {
    var cleared := Cleared(s, n);
    ListedInserted(cleared, n, chunks, |chunks|, embed, m);
    if m == n {
      ListedNone(cleared.rows, n, cleared.next);
    } else {
      ListedSame(cleared.rows, s.rows, m, s.next);
    }
    assert chunks[..|chunks|] == chunks;
  }

  /** The note's listed rows are the document's headers and then its body. */
  ghost predicate Holds(s: Tables, doc: Document, limit: nat, same: (string, string) -> bool) {
    Represents(doc, limit, same, Listed(s.rows, doc.note, s.next))
  }

  /**
   * After any history, indexing a document of an existing note leaves the
   * note's rows holding its headers and then body pieces that carry every
   * visible character of its body in order; each row of any note has a vector
   * that embeds its own text.
   */
  lemma {:induction false} IndexedNoteIsSearchable(es: seq<Event>, doc: Document, limit: nat, same: (string, string) -> bool,
                                                   chunks: seq<Chunk>, embed: Embedder, embeds: Embeds, id: nat)
    requires AllHonest(es, embeds) && Honest(Replace(doc.note, chunks, embed), embeds)
    requires Represents(doc, limit, same, chunks) && doc.note in Exec(EMPTY, es).notes
    requires forall i | 0 <= i < |chunks| :: embed(chunks[i].text).Some?
    ensures var t := Replaced(Exec(EMPTY, es), doc.note, chunks, embed);
      Holds(t, doc, limit, same) && (id in t.rows ==> id in t.vectors && embeds(t.rows[id].chunk.text, t.vectors[id]))
  {
    var s := Exec(EMPTY, es);
    RunKeeps(EMPTY, es, embeds);
    StepKeeps(s, Replace(doc.note, chunks, embed), embeds);
    ReplaceIsExact(s, doc.note, chunks, embed, doc.note);
    var t := Apply(s, Replace(doc.note, chunks, embed));
    if id in t.rows { assert GoodRow(t, id, embeds); }
  }

  // ------------------------------------------------------------------ operations

  class NoteIndex {
    const limit: nat
    const same: (string, string) -> bool
    var notes: set<int>
    var rows: map<nat, Row>
    var vectors: map<nat, Vector>
    var next: nat

    function State(): Tables
      reads this
    {
      Tables(notes, rows, vectors, next)
    }

    constructor (limit: nat, same: (string, string) -> bool)
      ensures State() == EMPTY && this.limit == limit && this.same == same
    {
      this.limit, this.same := limit, same;
      notes, rows, vectors, next := {}, map[], map[], 1;
    }

    /** Embed every chunk before touching the tables. */
    method EmbedChunks(chunks: seq<Chunk>, embed: Embedder) returns (found: Option<seq<Vector>>)
      requires forall i | 0 <= i < |chunks| :: IsText(chunks[i])
      ensures found.Some? <==> Embeddable(chunks, embed)
      ensures found.Some? ==> |found.value| == |chunks| && forall i | 0 <= i < |chunks| :: embed(chunks[i].text) == Some(found.value[i])
    {
      var indexed := [];
      var i := 0;
      while i < |chunks|
        invariant 0 <= i <= |chunks| && |indexed| == i
        invariant forall k | 0 <= k < i :: embed(chunks[k].text) == Some(indexed[k])
      {
        var vector := embed(TagNames.TrimSpace(chunks[i].text));
        if vector.None? { return None; }
        indexed := indexed + [vector.value];
        i := i + 1;
      }
      return Some(indexed);
    }

    method DeleteNoteIndex(n: int)
      modifies this
      ensures State() == Apply(old(State()), DeleteIndex(n))
    {
      var ids := RowsOf(State(), n);
      vectors := vectors - ids;
      rows := rows - ids;
    }

    /** The transaction: drop the note's rows, insert the new ones; a failing insert rolls it back. */
    method SwapRows(n: int, chunks: seq<Chunk>, found: seq<Vector>, ghost embed: Embedder) returns (ok: bool)
      requires Embeddable(chunks, embed) && |found| == |chunks|
      requires forall i | 0 <= i < |chunks| :: embed(chunks[i].text) == Some(found[i])
      modifies this
      ensures ok <==> Accepted(old(State()), n, chunks, embed)
      ensures State() == Replaced(old(State()), n, chunks, embed)
    {
      ghost var s := Cleared(State(), n);
      var t := Cleared(State(), n);
      var i := 0;
      while i < |chunks|
        invariant 0 <= i <= |chunks| && t == Inserted(s, n, chunks, i, embed) && t.notes == notes && (i > 0 ==> n in notes)
        invariant State() == old(State())
      {
        if n !in t.notes { return false; }
        t := Added(t, n, chunks[i], found[i]);
        i := i + 1;
      }
      rows, vectors, next := t.rows, t.vectors, t.next;
      ok := true;
    }

    /** Build the chunks, embed them all, then swap the note's rows in one transaction. */
    method ReplaceNoteIndex(doc: Document, embed: Embedder) returns (count: Option<nat>, ghost chunks: seq<Chunk>)
      requires limit > 0
      modifies this
      ensures Represents(doc, limit, same, chunks)
      ensures State() == Apply(old(State()), Replace(doc.note, chunks, embed))
      ensures count.Some? <==> (forall i | 0 <= i < |chunks| :: embed(chunks[i].text).Some?) && (chunks == [] || doc.note in old(notes))
      ensures if count.Some? then count.value == |chunks| else State() == old(State())
      ensures count.Some? ==> Holds(State(), doc, limit, same)
    {
      var built := BuildChunks(doc, limit, same);
      chunks := built;
      ChunksAreText(doc, limit, same, chunks);
      var found := EmbedChunks(built, embed);
      if found.None? { return None, chunks; }
      ghost var before := State();
      var ok := SwapRows(doc.note, built, found.value, embed);
      if !ok { return None, chunks; }
      ReplaceIsExact(before, doc.note, chunks, embed, doc.note);
      count := Some(|built|);
    }
  }
}
