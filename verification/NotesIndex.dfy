/**
 * The note, tag and reference tables with the full-text index that triggers keep
 * beside them (internal/db/db.go).  Each method is one SQL statement with its
 * foreign-key cascades and its row-level triggers.
 */
module NotesIndex {
  import opened Prelude

  datatype Ref = Ref(note: int, tag: int)

  datatype RefTable = Manual | Auto

  datatype Tables = Tables(notes: map<int, string>, tags: map<int, string>, manual: set<Ref>, auto: set<Ref>)
  {
    function Refs(k: RefTable): set<Ref> {
      if k == Manual then manual else auto
    }

    function WithRefs(k: RefTable, refs: set<Ref>): Tables {
      if k == Manual then this.(manual := refs) else this.(auto := refs)
    }
  }

  /** Each of the two names stands for its own table. */
  lemma {:induction false} RefTables(t: Tables, refs: set<Ref>)
    ensures t.Refs(Manual) == t.manual && t.Refs(Auto) == t.auto
    ensures t.WithRefs(Manual, refs) == Tables(t.notes, t.tags, refs, t.auto)
    ensures t.WithRefs(Auto, refs) == Tables(t.notes, t.tags, t.manual, refs)
  {
  }

  /** One row of notes_fts; nothing in the table's schema makes note ids unique. */
  datatype FtsRow = FtsRow(note: int, title: string, tags: string)

  ghost predicate ForeignKeys(t: Tables) {
    forall r | r in t.manual || r in t.auto :: r.note in t.notes && r.tag in t.tags
  }

  ghost predicate UniqueNames(tags: map<int, string>) {
    forall a, b | a in tags && b in tags && a != b :: tags[a] != tags[b]
  }

  /** The DISTINCT ... UNION ... of a note's manual and automatic tag names. */
  function TagSet(t: Tables, note: int): set<string> {
    set r | r in t.manual + t.auto && r.note == note && r.tag in t.tags :: t.tags[r.tag]
  }

  /** A name is listed for a note exactly when a tag of that name is attached in either table. */
  lemma {:induction false} TagSetIs(t: Tables, note: int, name: string)
    ensures name in TagSet(t, note) <==>
      exists tag :: tag in t.tags && t.tags[tag] == name && (Ref(note, tag) in t.manual || Ref(note, tag) in t.auto)
  {
    if name in TagSet(t, note) {
      var r :| r in t.manual + t.auto && r.note == note && r.tag in t.tags && t.tags[r.tag] == name;
      assert r == Ref(note, r.tag);
    }
    if tag :| tag in t.tags && t.tags[tag] == name && (Ref(note, tag) in t.manual || Ref(note, tag) in t.auto) {
      assert Ref(note, tag) in t.manual + t.auto;
    }
  }

  /** COALESCE(GROUP_CONCAT(...), ''), for whatever text GROUP_CONCAT makes of a set of names. */
  function TagText(concat: set<string> -> string, t: Tables, note: int): string {
    if TagSet(t, note) == {} then "" else concat(TagSet(t, note))
  }

  function BackfillRow(concat: set<string> -> string, t: Tables, note: int): FtsRow
    requires note in t.notes
  {
    FtsRow(note, t.notes[note], TagText(concat, t, note))
  }

  function SetTags(rows: seq<FtsRow>, note: int, text: string): (r: seq<FtsRow>)
    ensures |r| == |rows| && forall i | 0 <= i < |rows| :: r[i] == if rows[i].note == note then rows[i].(tags := text) else rows[i]
  {
    seq(|rows|, i requires 0 <= i < |rows| => if rows[i].note == note then rows[i].(tags := text) else rows[i])
  }

  function SetTitle(rows: seq<FtsRow>, note: int, title: string): (r: seq<FtsRow>)
    ensures |r| == |rows| && forall i | 0 <= i < |rows| :: r[i] == if rows[i].note == note then rows[i].(title := title) else rows[i]
  {
    seq(|rows|, i requires 0 <= i < |rows| => if rows[i].note == note then rows[i].(title := title) else rows[i])
  }

  function DropRows(rows: seq<FtsRow>, note: int): seq<FtsRow> {
    if rows == [] then []
    else DropRows(rows[..|rows| - 1], note) + if rows[|rows| - 1].note == note then [] else [rows[|rows| - 1]]
  }

  ghost function Ids(rows: seq<FtsRow>): (ids: seq<int>)
    ensures |ids| == |rows| && forall i | 0 <= i < |rows| :: ids[i] == rows[i].note
  {
    seq(|rows|, i requires 0 <= i < |rows| => rows[i].note)
  }

  /** Exactly one row per note. */
  ghost predicate OneRowPerNote(t: Tables, rows: seq<FtsRow>) {
    NoDup(Ids(rows)) && Elements(Ids(rows)) == t.notes.Keys
  }

  ghost predicate RowRight(concat: set<string> -> string, t: Tables, row: FtsRow, stale: set<int>) {
    && row.note in t.notes && row.title == t.notes[row.note]
    && (row.note !in stale ==> row.tags == TagText(concat, t, row.note))
  }

  /** One row per note, with the right title, and the right tag text outside `stale`. */
  ghost predicate SyncedBut(concat: set<string> -> string, t: Tables, rows: seq<FtsRow>, stale: set<int>) {
    OneRowPerNote(t, rows) && forall i | 0 <= i < |rows| :: RowRight(concat, t, rows[i], stale)
  }

  ghost predicate Synced(concat: set<string> -> string, t: Tables, rows: seq<FtsRow>) {
    SyncedBut(concat, t, rows, {})
  }

  /** Being in sync is exactly what rebuilding the index from the base tables would give. */
  lemma {:induction false} SyncedIffRebuilt(concat: set<string> -> string, t: Tables, rows: seq<FtsRow>)
    ensures Synced(concat, t, rows) <==>
      && NoDup(Ids(rows))
      && Elements(rows) == set n | n in t.notes :: BackfillRow(concat, t, n)
  {
    var built := set n | n in t.notes :: BackfillRow(concat, t, n);
    if Synced(concat, t, rows) {
      forall n | n in t.notes ensures BackfillRow(concat, t, n) in rows {
        assert n in Elements(Ids(rows));
        var i :| 0 <= i < |rows| && Ids(rows)[i] == n;
        assert RowRight(concat, t, rows[i], {});
      }
      forall i | 0 <= i < |rows| ensures rows[i] in built {
        assert RowRight(concat, t, rows[i], {});
        assert rows[i] == BackfillRow(concat, t, rows[i].note);
      }
      assert Elements(rows) == built;
    }
    if NoDup(Ids(rows)) && Elements(rows) == built {
      forall i | 0 <= i < |rows| ensures RowRight(concat, t, rows[i], {}) {
        assert rows[i] in Elements(rows);
      }
      forall n | n in t.notes ensures n in Elements(Ids(rows)) {
        assert BackfillRow(concat, t, n) in Elements(rows);
        var i :| 0 <= i < |rows| && rows[i] == BackfillRow(concat, t, n);
        assert Ids(rows)[i] == n;
      }
      forall n | n in Elements(Ids(rows)) ensures n in t.notes {
        var i :| 0 <= i < |rows| && Ids(rows)[i] == n;
        assert RowRight(concat, t, rows[i], {});
      }
      assert Elements(Ids(rows)) == t.notes.Keys;
    }
  }

  /** What being in sync says of a note: its only row has its title and lists the names of its tags. */
  lemma {:induction false} SyncedSays(concat: set<string> -> string, t: Tables, rows: seq<FtsRow>, note: int, names: set<string>)
    requires Synced(concat, t, rows)
    requires forall name :: name in names <==>
      exists tag :: tag in t.tags && t.tags[tag] == name && (Ref(note, tag) in t.manual || Ref(note, tag) in t.auto)
    ensures note in t.notes ==>
      exists i :: 0 <= i < |rows| && rows[i] == FtsRow(note, t.notes[note], if names == {} then "" else concat(names))
        && forall j | 0 <= j < |rows| && rows[j].note == note :: j == i
    ensures note !in t.notes ==> forall j | 0 <= j < |rows| :: rows[j].note != note
  {
    forall name ensures name in names <==> name in TagSet(t, note) { TagSetIs(t, note, name); }
    assert names == TagSet(t, note);
    forall j | 0 <= j < |rows| ensures rows[j].note in t.notes { assert RowRight(concat, t, rows[j], {}); }
    if note in t.notes {
      assert note in Elements(Ids(rows));
      var i :| 0 <= i < |rows| && Ids(rows)[i] == note;
      assert RowRight(concat, t, rows[i], {});
      forall j | 0 <= j < |rows| && rows[j].note == note ensures j == i { assert Ids(rows)[j] == Ids(rows)[i]; }
    }
  }

  lemma {:induction false} IdsPush(rows: seq<FtsRow>, row: FtsRow)
    ensures Ids(rows + [row]) == Ids(rows) + [row.note] && Elements(Ids(rows + [row])) == Elements(Ids(rows)) + {row.note}
  {
    assert Ids(rows + [row]) == Ids(rows) + [row.note];
    ElementsPush(Ids(rows), row.note);
  }

  /** Right rows, at most one per note; some notes may have none yet. */
  ghost predicate RightSoFar(concat: set<string> -> string, t: Tables, rows: seq<FtsRow>) {
    NoDup(Ids(rows)) && forall i | 0 <= i < |rows| :: RowRight(concat, t, rows[i], {})
  }

  /** Right rows for every note are an index in sync. */
  lemma {:induction false} PartialIsSynced(concat: set<string> -> string, t: Tables, rows: seq<FtsRow>)
    requires RightSoFar(concat, t, rows) && t.notes.Keys <= Elements(Ids(rows))
    ensures Synced(concat, t, rows)
  {
    forall n | n in Elements(Ids(rows)) ensures n in t.notes {
      var i :| 0 <= i < |rows| && Ids(rows)[i] == n;
      assert RowRight(concat, t, rows[i], {});
    }
    assert Elements(Ids(rows)) == t.notes.Keys;
  }

  lemma {:induction false} BackfillNext(concat: set<string> -> string, t: Tables, rows: seq<FtsRow>, n: int)
    requires RightSoFar(concat, t, rows) && n in t.notes && n !in Elements(Ids(rows))
    ensures RightSoFar(concat, t, rows + [BackfillRow(concat, t, n)])
  {
    var row := BackfillRow(concat, t, n);
    IdsPush(rows, row);
    NoDupPush(Ids(rows), n);
    forall i | 0 <= i < |rows + [row]| ensures RowRight(concat, t, (rows + [row])[i], {}) {
      if i < |rows| { assert RowRight(concat, t, rows[i], {}); }
    }
  }

  /** DELETE FROM notes_fts WHERE note_id = ?. */
  lemma {:induction false} DropRowsHolds(rows: seq<FtsRow>, note: int, x: FtsRow)
    ensures x in DropRows(rows, note) <==> x in rows && x.note != note
    decreases |rows|
  {
    if rows != [] {
      var n := |rows| - 1;
      DropRowsHolds(rows[..n], note, x);
      InPush(rows[..n], rows[n], x);
      assert rows == rows[..n] + [rows[n]];
      InPush(DropRows(rows[..n], note), rows[n], x);
    }
  }

  lemma {:induction false} InPush(rows: seq<FtsRow>, row: FtsRow, x: FtsRow)
    ensures x in rows + [row] <==> x in rows || x == row
  {
    assert (rows + [row])[|rows|] == row;
    if x in rows {
      var i :| 0 <= i < |rows| && rows[i] == x;
      assert (rows + [row])[i] == x;
    }
  }

  lemma {:induction false} NoDupPush(ids: seq<int>, id: int)
    requires NoDup(ids) && id !in ids
    ensures NoDup(ids + [id])
  {
  }

  lemma {:induction false} DropRowsDistinct(rows: seq<FtsRow>, note: int)
    requires NoDup(Ids(rows))
    ensures NoDup(Ids(DropRows(rows, note)))
    decreases |rows|
  {
    if rows != [] {
      var n := |rows| - 1;
      var kept := DropRows(rows[..n], note);
      assert Ids(rows[..n]) == Ids(rows)[..n];
      DropRowsDistinct(rows[..n], note);
      if rows[n].note != note {
        forall i | 0 <= i < |kept| ensures kept[i].note != rows[n].note { DroppedFrom(rows, n, note, kept[i]); }
        IdsPush(kept, rows[n]);
        NoDupPush(Ids(kept), rows[n].note);
      }
    }
  }

  lemma {:induction false} DroppedFrom(rows: seq<FtsRow>, n: nat, note: int, x: FtsRow)
    requires NoDup(Ids(rows)) && n < |rows| && x in DropRows(rows[..n], note)
    ensures x.note != rows[n].note
  {
    DropRowsHolds(rows[..n], note, x);
    var j :| 0 <= j < n && rows[..n][j] == x;
    assert Ids(rows)[j] != Ids(rows)[n];
  }

  lemma {:induction false} DropRowsShape(rows: seq<FtsRow>, note: int)
    requires NoDup(Ids(rows))
    ensures NoDup(Ids(DropRows(rows, note)))
    ensures forall x :: x in DropRows(rows, note) <==> x in rows && x.note != note
  {
    DropRowsDistinct(rows, note);
    forall x ensures x in DropRows(rows, note) <==> x in rows && x.note != note { DropRowsHolds(rows, note, x); }
  }

  lemma {:induction false} DropIds(t: Tables, rows: seq<FtsRow>, note: int)
    requires OneRowPerNote(t, rows)
    ensures OneRowPerNote(t.(notes := t.notes - {note}), DropRows(rows, note))
  {
    DropRowsShape(rows, note);
    var kept := DropRows(rows, note);
    forall n | n in t.notes && n != note ensures n in Elements(Ids(kept)) {
      assert n in Elements(Ids(rows));
      var j :| 0 <= j < |rows| && Ids(rows)[j] == n;
      assert rows[j] in kept;
      var i :| 0 <= i < |kept| && kept[i] == rows[j];
      assert Ids(kept)[i] == n;
    }
    forall n | n in Elements(Ids(kept)) ensures n in t.notes && n != note {
      var i :| 0 <= i < |kept| && Ids(kept)[i] == n;
      assert kept[i] in rows;
      var j :| 0 <= j < |rows| && rows[j] == kept[i];
      assert Ids(rows)[j] in Elements(Ids(rows));
    }
    assert Elements(Ids(kept)) == (t.notes - {note}).Keys;
  }

  lemma {:induction false} DropSyncs(concat: set<string> -> string, t: Tables, u: Tables, rows: seq<FtsRow>, note: int)
    requires Synced(concat, t, rows) && u == t.(notes := t.notes - {note})
    ensures Synced(concat, u, DropRows(rows, note))
  {
    DropIds(t, rows, note);
    DropRowsShape(rows, note);
    var kept := DropRows(rows, note);
    forall i | 0 <= i < |kept| ensures RowRight(concat, u, kept[i], {}) {
      assert kept[i] in rows;
      var j :| 0 <= j < |rows| && rows[j] == kept[i];
      assert RowRight(concat, t, rows[j], {});
      assert TagSet(u, kept[i].note) == TagSet(t, kept[i].note);
    }
  }

  /** A trigger's refresh repairs one stale note. */
  lemma {:induction false} RefreshRepairs(concat: set<string> -> string, t: Tables, rows: seq<FtsRow>, stale: set<int>, note: int)
    requires SyncedBut(concat, t, rows, stale)
    ensures SyncedBut(concat, t, SetTags(rows, note, TagText(concat, t, note)), stale - {note})
  {
    var fixed := SetTags(rows, note, TagText(concat, t, note));
    assert Ids(fixed) == Ids(rows);
    forall i | 0 <= i < |fixed| ensures RowRight(concat, t, fixed[i], stale - {note}) {
      assert RowRight(concat, t, rows[i], stale);
    }
  }

  lemma {:induction false} RetitleSyncs(concat: set<string> -> string, t: Tables, u: Tables, rows: seq<FtsRow>, id: int, title: string)
    requires Synced(concat, t, rows) && id in t.notes && u == t.(notes := t.notes[id := title])
    ensures Synced(concat, u, SetTitle(rows, id, title))
  {
    var fixed := SetTitle(rows, id, title);
    assert Ids(fixed) == Ids(rows) && u.notes.Keys == t.notes.Keys;
    forall i | 0 <= i < |fixed| ensures RowRight(concat, u, fixed[i], {}) {
      assert RowRight(concat, t, rows[i], {});
      assert TagSet(u, fixed[i].note) == TagSet(t, fixed[i].note);
    }
  }

  lemma {:induction false} AppendIds(t: Tables, rows: seq<FtsRow>, row: FtsRow)
    requires OneRowPerNote(t, rows) && row.note !in t.notes
    ensures OneRowPerNote(t.(notes := t.notes[row.note := row.title]), rows + [row])
  {
    IdsPush(rows, row);
    assert row.note !in Elements(Ids(rows));
    NoDupPush(Ids(rows), row.note);
  }

  lemma {:induction false} AppendSyncs(concat: set<string> -> string, t: Tables, rows: seq<FtsRow>, id: int, title: string)
    requires Synced(concat, t, rows) && ForeignKeys(t) && id !in t.notes
    ensures Synced(concat, t.(notes := t.notes[id := title]), rows + [FtsRow(id, title, "")])
  {
    var u, grown := t.(notes := t.notes[id := title]), rows + [FtsRow(id, title, "")];
    assert OneRowPerNote(u, grown) by { AppendIds(t, rows, FtsRow(id, title, "")); }
    assert TagSet(u, id) == {};
    forall i | 0 <= i < |rows| ensures RowRight(concat, u, grown[i], {}) {
      assert RowRight(concat, t, rows[i], {});
      assert Ids(rows)[i] in Elements(Ids(rows));
      assert TagSet(u, rows[i].note) == TagSet(t, rows[i].note);
    }
  }

  /** Changing references or tag names spoils only the notes whose name set changes. */
  lemma {:induction false} SpoilsOnly(concat: set<string> -> string, t: Tables, u: Tables, rows: seq<FtsRow>, stale: set<int>, more: set<int>)
    requires SyncedBut(concat, t, rows, stale) && u.notes == t.notes
    requires forall n | n in t.notes && n !in stale && n !in more :: TagSet(u, n) == TagSet(t, n)
    ensures SyncedBut(concat, u, rows, stale + more)
  {
    forall i | 0 <= i < |rows| ensures RowRight(concat, u, rows[i], stale + more) {
      assert RowRight(concat, t, rows[i], stale);
    }
  }

  lemma {:induction false} RenameSpoils(concat: set<string> -> string, t: Tables, u: Tables, rows: seq<FtsRow>, id: int, name: string, users: set<int>)
    requires Synced(concat, t, rows) && u == t.(tags := t.tags[id := name]) && id in t.tags
    requires users == set r | r in t.manual + t.auto && r.tag == id :: r.note
    ensures SyncedBut(concat, u, rows, users)
  {
    forall n | n in t.notes && n !in users ensures TagSet(u, n) == TagSet(t, n) {}
    SpoilsOnly(concat, t, u, rows, {}, users);
    assert {} + users == users;
  }

  function RefsOfTag(refs: set<Ref>, tag: int): (of: set<Ref>)
    ensures forall note, t :: Ref(note, t) in of <==> t == tag && Ref(note, tag) in refs
  {
    set r | r in refs && r.tag == tag
  }

  function RefsOfNote(refs: set<Ref>, note: int): (of: set<Ref>)
    ensures forall n, tag :: Ref(n, tag) in of <==> n == note && Ref(note, tag) in refs
  {
    set r | r in refs && r.note == note
  }

  ghost function NotesOf(refs: set<Ref>): set<int> {
    set r | r in refs :: r.note
  }

  lemma {:induction false} TagDeletionSpoils(concat: set<string> -> string, t: Tables, rows: seq<FtsRow>, id: int)
    requires Synced(concat, t, rows)
    ensures SyncedBut(concat, t.(tags := t.tags - {id}), rows,
      NotesOf(RefsOfTag(t.manual, id)) + NotesOf(RefsOfTag(t.auto, id)))
  {
    var u := t.(tags := t.tags - {id});
    var mine, theirs := RefsOfTag(t.manual, id), RefsOfTag(t.auto, id);
    var stale := NotesOf(mine) + NotesOf(theirs);
    forall n | n in t.notes && n !in stale ensures TagSet(u, n) == TagSet(t, n) {
      forall r | r in t.manual + t.auto && r.note == n ensures r.tag != id {
        assert r in mine ==> r.note in NotesOf(mine);
        assert r in theirs ==> r.note in NotesOf(theirs);
      }
    }
    SpoilsOnly(concat, t, u, rows, {}, stale);
    assert {} + stale == stale;
  }

  class NotesDb {
    const concat: set<string> -> string
    var notes: map<int, string>
    var tags: map<int, string>
    var manual: set<Ref>
    var auto: set<Ref>
    var fts: seq<FtsRow>

    ghost function T(): Tables
      reads this
    {
      Tables(notes, tags, manual, auto)
    }

    function Current(): (t: Tables)
      reads this
      ensures t == T()
    {
      Tables(notes, tags, manual, auto)
    }

    ghost predicate Valid()
      reads this
    {
      ForeignKeys(T()) && UniqueNames(tags)
    }

    ghost predicate InSync(stale: set<int>)
      reads this
    {
      SyncedBut(concat, T(), fts, stale)
    }

    constructor (concat: set<string> -> string, notes: map<int, string>, tags: map<int, string>, manual: set<Ref>, auto: set<Ref>)
      requires ForeignKeys(Tables(notes, tags, manual, auto)) && UniqueNames(tags)
      ensures Valid() && T() == Tables(notes, tags, manual, auto) && this.concat == concat && fts == []
    {
      this.concat, this.notes, this.tags, this.manual, this.auto := concat, notes, tags, manual, auto;
      fts := [];
    }

    /** At most one row a note, and each of them right; some notes may have none yet. */
    ghost predicate Partial()
      reads this
    {
      RightSoFar(concat, T(), fts)
    }

    /** INSERT INTO notes_fts SELECT ... FROM notes n WHERE n.id NOT IN (the notes with a row). */
    method Backfill()
      modifies `fts
      ensures old(Partial()) ==> InSync({})
      ensures old(fts) <= fts && (old(InSync({})) ==> fts == old(fts))
    {
      var todo := notes.Keys - (set i | 0 <= i < |fts| :: fts[i].note);
      assert (set i | 0 <= i < |fts| :: fts[i].note) == Elements(Ids(fts)) by {
        forall i | 0 <= i < |fts| ensures fts[i].note in Elements(Ids(fts)) { assert Ids(fts)[i] == fts[i].note; }
      }
      while todo != {}
        invariant old(Partial()) ==> Partial()
        invariant todo == notes.Keys - Elements(Ids(fts)) && old(fts) <= fts
        invariant fts == old(fts) || !old(InSync({}))
        decreases todo
      {
        NonEmpty(todo);
        var n :| n in todo;
        ghost var rows, row := fts, BackfillRow(concat, T(), n);
        IdsPush(rows, row);
        if RightSoFar(concat, T(), rows) { BackfillNext(concat, T(), rows, n); }
        fts := fts + [BackfillRow(concat, Current(), n)];
        todo := todo - {n};
      }
      if old(Partial()) {
        forall n | n in notes ensures n in Elements(Ids(fts)) { assert n !in todo; }
        PartialIsSynced(concat, T(), fts);
      }
    }

    /** The body the four reference triggers share, for one note. */
    method RefreshTags(note: int, ghost stale: set<int>)
      modifies `fts
      ensures old(InSync(stale)) ==> InSync(stale - {note})
    {
      if SyncedBut(concat, T(), fts, stale) {
        RefreshRepairs(concat, T(), fts, stale, note);
      }
      fts := SetTags(fts, note, TagText(concat, Current(), note));
    }

    /** notes_fts_ai: the new note has no tags yet. */
    method InsertNote(id: int, title: string)
      requires Valid() && id !in notes
      modifies this
      ensures Valid() && T() == old(T()).(notes := old(notes)[id := title])
      ensures old(InSync({})) ==> InSync({})
    {
      if Synced(concat, T(), fts) { AppendSyncs(concat, T(), fts, id, title); }
      notes := notes[id := title];
      fts := fts + [FtsRow(id, title, "")];
    }

    /** notes_fts_au. */
    method Retitle(id: int, title: string)
      requires Valid()
      modifies this
      ensures Valid() && T() == if id in old(notes) then old(T()).(notes := old(notes)[id := title]) else old(T())
      ensures old(InSync({})) ==> InSync({})
    {
      if id !in notes {
        return;
      }
      ghost var t, rows := T(), fts;
      notes := notes[id := title];
      fts := SetTitle(fts, id, title);
      if Synced(concat, t, rows) { RetitleSyncs(concat, t, T(), rows, id, title); }
    }

    /** INSERT OR IGNORE INTO tags_refs / auto_tags_refs; the trigger fires for an inserted row only. */
    method Attach(k: RefTable, note: int, tag: int) returns (ok: bool)
      requires Valid()
      modifies this
      ensures Valid() && (ok <==> note in old(notes) && tag in old(tags))
      ensures T() == if ok then old(T()).WithRefs(k, old(T()).Refs(k) + {Ref(note, tag)}) else old(T())
      ensures old(InSync({})) ==> InSync({})
    {
      ok := note in notes && tag in tags;          // the foreign keys
      if !ok || Ref(note, tag) in Current().Refs(k) {
        assert ok ==> T().Refs(k) + {Ref(note, tag)} == T().Refs(k);
        return;
      }
      ghost var t := T();
      if k == Manual { manual := manual + {Ref(note, tag)}; } else { auto := auto + {Ref(note, tag)}; }
      if Synced(concat, t, fts) {
        forall n | n in notes && n != note ensures TagSet(T(), n) == TagSet(t, n) {}
        SpoilsOnly(concat, t, T(), fts, {}, {note});
      }
      RefreshTags(note, {note});
      assert {note} - {note} == {} && {} + {note} == {note};
    }

    /** DELETE of one reference row and its trigger, possibly in the middle of a cascade. */
    method DetachRow(k: RefTable, r: Ref, ghost stale: set<int>)
      modifies this
      ensures T() == old(T()).WithRefs(k, old(T()).Refs(k) - {r})
      ensures old(InSync(stale)) ==> InSync(stale - {r.note})
    {
      ghost var t := T();
      if k == Manual { manual := manual - {r}; } else { auto := auto - {r}; }
      if SyncedBut(concat, t, fts, stale) {
        forall n | n in notes && n != r.note ensures TagSet(T(), n) == TagSet(t, n) {}
        SpoilsOnly(concat, t, T(), fts, stale, {r.note});
      }
      RefreshTags(r.note, stale + {r.note});
      assert stale + {r.note} - {r.note} == stale - {r.note};
    }

    /** DELETE FROM a reference table of all the given rows, row by row in any order. */
    method DetachRows(k: RefTable, rows: set<Ref>, ghost stale: set<int>)
      modifies this
      ensures T() == old(T()).WithRefs(k, old(T()).Refs(k) - rows)
      ensures old(InSync(stale)) ==> InSync(stale - NotesOf(rows))
    {
      var todo := rows;
      ghost var t := T();
      ghost var left := stale;
      assert T() == t.WithRefs(k, t.Refs(k) - (rows - todo));
      while todo != {}
        invariant todo <= rows && T() == t.WithRefs(k, t.Refs(k) - (rows - todo))
        invariant left == stale - NotesOf(rows - todo)
        invariant old(InSync(stale)) ==> InSync(left)
        decreases todo
      {
        var r :| r in todo;
        DetachRow(k, r, left);
        assert t.Refs(k) - (rows - todo) - {r} == t.Refs(k) - (rows - (todo - {r}));
        assert NotesOf(rows - (todo - {r})) == NotesOf(rows - todo) + {r.note};
        todo := todo - {r};
        left := left - {r.note};
      }
      assert rows - {} == rows;
    }

    /** DELETE FROM tags_refs WHERE note_id = ? (or any other condition). */
    method Detach(k: RefTable, rows: set<Ref>)
      requires Valid()
      modifies this
      ensures Valid() && T() == old(T()).WithRefs(k, old(T()).Refs(k) - rows)
      ensures old(InSync({})) ==> InSync({})
    {
      DetachRows(k, rows, {});
    }

    method InsertTag(id: int, name: string) returns (ok: bool)
      requires Valid() && id !in tags
      modifies this
      ensures Valid() && (ok <==> forall a | a in old(tags) :: old(tags)[a] != name)
      ensures T() == if ok then old(T()).(tags := old(tags)[id := name]) else old(T())
      ensures old(InSync({})) ==> InSync({})
    {
      ok := forall a | a in tags :: tags[a] != name;
      if ok {
        ghost var t := T();
        tags := tags[id := name];
        if Synced(concat, t, fts) {
          forall n | n in notes ensures TagSet(T(), n) == TagSet(t, n) {}
          SpoilsOnly(concat, t, T(), fts, {}, {});
        }
      }
    }

    /** UPDATE tags SET name = ?, under UNIQUE(name); notes_fts_tags_au refreshes every note using the tag. */
    method RenameTag(id: int, name: string) returns (ok: bool)
      requires Valid() && id in tags
      modifies this
      ensures Valid() && (ok <==> forall a | a in old(tags) && a != id :: old(tags)[a] != name)
      ensures T() == if ok then old(T()).(tags := old(tags)[id := name]) else old(T())
      ensures old(InSync({})) ==> InSync({})
    {
      ok := forall a | a in tags && a != id :: tags[a] != name;
      if !ok {
        return;
      }
      ghost var t, rows := T(), fts;
      tags := tags[id := name];
      var users := set r | r in manual + auto && r.tag == id :: r.note;
      if Synced(concat, t, rows) {
        RenameSpoils(concat, t, T(), rows, id, name, users);
      }
      var todo := users;
      while todo != {}
        invariant T() == t.(tags := t.tags[id := name])
        invariant Synced(concat, t, rows) ==> InSync(todo)
        decreases todo
      {
        NonEmpty(todo);
        var n :| n in todo;
        RefreshTags(n, todo);
        todo := todo - {n};
      }
    }

    /** DELETE FROM tags WHERE id = ?; the cascade deletes its references, each firing its trigger. */
    method DeleteTag(id: int)
      requires Valid()
      modifies this
      ensures Valid() && notes == old(notes) && tags == old(tags) - {id}
      ensures manual == old(manual) - RefsOfTag(old(manual), id) && auto == old(auto) - RefsOfTag(old(auto), id)
      ensures old(InSync({})) ==> InSync({})
    {
      ghost var t, rows := T(), fts;
      tags := tags - {id};
      var mine, theirs := RefsOfTag(manual, id), RefsOfTag(auto, id);
      ghost var stale := NotesOf(mine) + NotesOf(theirs);
      if Synced(concat, t, rows) { TagDeletionSpoils(concat, t, rows, id); }
      DetachRows(Manual, mine, stale);
      DetachRows(Auto, theirs, stale - NotesOf(mine));
      assert stale - NotesOf(mine) - NotesOf(theirs) == {};
    }

    /**
     * DELETE FROM notes WHERE id = ?.  The reference cascade and the note's own
     * AFTER DELETE trigger run in either order.
     */
    method DeleteNote(id: int, cascadeFirst: bool)
      requires Valid()
      modifies this
      ensures Valid() && notes == old(notes) - {id} && tags == old(tags)
      ensures manual == old(manual) - RefsOfNote(old(manual), id) && auto == old(auto) - RefsOfNote(old(auto), id)
      ensures old(InSync({})) ==> InSync({})
    {
      var mine, theirs := RefsOfNote(manual, id), RefsOfNote(auto, id);
      if !cascadeFirst { DropNoteRow(id); }
      DetachRows(Manual, mine, {});
      DetachRows(Auto, theirs, {});
      if cascadeFirst { DropNoteRow(id); }
    }

    /** The parent row and its AFTER DELETE trigger alone. */
    method DropNoteRow(id: int)
      modifies this
      ensures T() == old(T()).(notes := old(notes) - {id})
      ensures old(InSync({})) ==> InSync({})
    {
      if Synced(concat, T(), fts) { DropSyncs(concat, T(), T().(notes := notes - {id}), fts, id); }
      notes := notes - {id};
      fts := DropRows(fts, id);
    }
  }

  // ------------------------------------------------------------------ any run

  datatype Statement =
    | AddNote(id: int, title: string)
    | SetNoteTitle(id: int, title: string)
    | RemoveNote(id: int, cascadeFirst: bool)
    | AddTag(id: int, name: string)
    | SetTagName(id: int, name: string)
    | RemoveTag(id: int)
    | AddRef(k: RefTable, note: int, tag: int)
    | RemoveRefs(k: RefTable, rows: set<Ref>)

  /** Any sequence of statements leaves the index what a rebuild would make it. */
  method RunStatements(db: NotesDb, statements: seq<Statement>)
    requires db.Valid() && db.InSync({})
    modifies db
    ensures db.Valid() && NoDup(Ids(db.fts))
    ensures Elements(db.fts) == set n | n in db.notes :: BackfillRow(db.concat, db.T(), n)
  {
    for k := 0 to |statements|
      invariant db.Valid() && db.InSync({})
    {
      match statements[k]
      case AddNote(id, title) => if id !in db.notes { db.InsertNote(id, title); }
      case SetNoteTitle(id, title) => db.Retitle(id, title);
      case RemoveNote(id, cascadeFirst) => db.DeleteNote(id, cascadeFirst);
      case AddTag(id, name) => if id !in db.tags { var _ := db.InsertTag(id, name); }
      case SetTagName(id, name) => if id in db.tags { var _ := db.RenameTag(id, name); }
      case RemoveTag(id) => db.DeleteTag(id);
      case AddRef(k, note, tag) => var _ := db.Attach(k, note, tag);
      case RemoveRefs(k, rows) => db.Detach(k, rows);
    }
    SyncedIffRebuilt(db.concat, db.T(), db.fts);
  }
}
