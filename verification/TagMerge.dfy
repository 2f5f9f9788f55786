/** The start-up migration that normalises tag names and merges the duplicates (internal/db/db.go). */
module TagMerge {
  import opened Prelude
  import opened NotesIndex
  import TagNames

  ghost predicate Idempotent(norm: string -> string) {
    forall s :: norm(norm(s)) == norm(s)
  }

  // ------------------------------------------------------------- specification

  ghost predicate SameName(norm: string -> string, tags: map<int, string>, a: int, b: int) {
    a in tags && b in tags && norm(tags[a]) == norm(tags[b])
  }

  /** The tag of its group with the smallest id. */
  ghost predicate Canonical(norm: string -> string, tags: map<int, string>, id: int) {
    && id in tags && norm(tags[id]) != ""
    && forall a | a in tags && norm(tags[a]) == norm(tags[id]) :: id <= a
  }

  ghost function Canon(norm: string -> string, tags: map<int, string>, id: int): (c: int)
    requires id in tags && norm(tags[id]) != "" && forall a | a in tags :: a > 0
    ensures Canonical(norm, tags, c) && SameName(norm, tags, c, id)
    decreases id
  {
    if Canonical(norm, tags, id) then id
    else var a :| a in tags && norm(tags[a]) == norm(tags[id]) && a < id; Canon(norm, tags, a)
  }

  ghost predicate Ids(tags: map<int, string>) {
    forall a | a in tags :: a > 0
  }

  /** The references once the tags in `done` have been merged away. */
  ghost function Image(norm: string -> string, tags: map<int, string>, done: set<int>, refs: set<Ref>): set<Ref>
    requires Ids(tags) && forall r | r in refs :: r.tag in tags
  {
    set r | r in refs && (r.tag !in done || norm(tags[r.tag]) != "") ::
      Ref(r.note, if r.tag in done then Canon(norm, tags, r.tag) else r.tag)
  }

  ghost function Names(norm: string -> string, tags: map<int, string>, done: set<int>, renamed: set<string>): map<int, string> {
    map id | id in tags && id !in done :: if norm(tags[id]) in renamed then norm(tags[id]) else tags[id]
  }

  ghost function Redundant(norm: string -> string, tags: map<int, string>): set<int> {
    set id | id in tags && !Canonical(norm, tags, id)
  }

  ghost function Merged(norm: string -> string, t: Tables): Tables
    requires Ids(t.tags) && ForeignKeys(t)
  {
    var done := Redundant(norm, t.tags);
    Tables(t.notes, map id | id in t.tags && id !in done :: norm(t.tags[id]),
           Image(norm, t.tags, done, t.manual), Image(norm, t.tags, done, t.auto))
  }

  /** The normalised, non-blank names a note carries in one reference table. */
  ghost function NamesOn(norm: string -> string, tags: map<int, string>, refs: set<Ref>, note: int): set<string> {
    set r | r in refs && r.note == note && r.tag in tags && norm(tags[r.tag]) != "" :: norm(tags[r.tag])
  }

  lemma {:induction false} NamesOnIs(norm: string -> string, tags: map<int, string>, refs: set<Ref>, note: int, name: string)
    ensures name in NamesOn(norm, tags, refs, note) <==>
      name != "" && exists tag :: tag in tags && Ref(note, tag) in refs && norm(tags[tag]) == name
  {
    if tag :| tag in tags && Ref(note, tag) in refs && norm(tags[tag]) == name && name != "" {
      assert Ref(note, tag).tag == tag;
    }
    if name in NamesOn(norm, tags, refs, note) {
      var r :| r in refs && r.note == note && r.tag in tags && norm(tags[r.tag]) == name;
      assert r == Ref(note, r.tag);
    }
  }

  // -------------------------------------------------------------- main results

  /** Every note keeps its set of normalised names, in each reference table on its own. */
  lemma {:induction false} MergeKeepsNames(norm: string -> string, t: Tables, k: RefTable, note: int)
    requires Idempotent(norm) && Ids(t.tags) && ForeignKeys(t)
    ensures NamesOn(norm, Merged(norm, t).tags, Merged(norm, t).Refs(k), note) == NamesOn(norm, t.tags, t.Refs(k), note)
  {
    var done, u := Redundant(norm, t.tags), Merged(norm, t);
    forall x ensures x in NamesOn(norm, t.tags, t.Refs(k), note) ==> x in NamesOn(norm, u.tags, u.Refs(k), note) {
      if x in NamesOn(norm, t.tags, t.Refs(k), note) {
        var r :| r in t.Refs(k) && r.note == note && norm(t.tags[r.tag]) != "" && norm(t.tags[r.tag]) == x;
        var c := if r.tag in done then Canon(norm, t.tags, r.tag) else r.tag;
        assert Ref(note, c) in u.Refs(k);
        assert c in u.tags && u.tags[c] == x;
      }
    }
    forall x ensures x in NamesOn(norm, u.tags, u.Refs(k), note) ==> x in NamesOn(norm, t.tags, t.Refs(k), note) {
      if x in NamesOn(norm, u.tags, u.Refs(k), note) {
        var q :| q in u.Refs(k) && q.note == note && q.tag in u.tags && norm(u.tags[q.tag]) == x;
        var r :| r in t.Refs(k) && r.note == q.note && (r.tag !in done || norm(t.tags[r.tag]) != "")
          && q.tag == (if r.tag in done then Canon(norm, t.tags, r.tag) else r.tag);
        assert norm(t.tags[r.tag]) == x;
      }
    }
  }

  /** The tag that survives for a name is the oldest row that normalises to it, renamed to it. */
  lemma {:induction false} SurvivorIs(norm: string -> string, t: Tables, id: int)
    requires Ids(t.tags) && ForeignKeys(t)
    ensures Merged(norm, t).notes == t.notes
    ensures id in Merged(norm, t).tags <==>
      id in t.tags && norm(t.tags[id]) != "" && forall a | a in t.tags && a < id :: norm(t.tags[a]) != norm(t.tags[id])
    ensures id in Merged(norm, t).tags ==> Merged(norm, t).tags[id] == norm(t.tags[id])
  {
    if id in t.tags && id !in Merged(norm, t).tags {
      assert !Canonical(norm, t.tags, id);
    }
  }

  /** Afterwards every name is normalised and non-blank, no two tags share one, and no reference dangles. */
  lemma {:induction false} MergedIsNormal(norm: string -> string, t: Tables)
    requires Idempotent(norm) && Ids(t.tags) && ForeignKeys(t)
    ensures var u := Merged(norm, t);
      && (forall id | id in u.tags :: u.tags[id] != "" && norm(u.tags[id]) == u.tags[id])
      && UniqueNames(u.tags) && ForeignKeys(u) && Ids(u.tags)
  {
    var u := Merged(norm, t);
    forall a, b | a in u.tags && b in u.tags && a != b ensures u.tags[a] != u.tags[b] {
      assert Canonical(norm, t.tags, a) && Canonical(norm, t.tags, b);
    }
    forall r | r in u.manual || r in u.auto ensures r.note in u.notes && r.tag in u.tags {
      assert Canonical(norm, t.tags, r.tag);
    }
  }

  /** A second run finds nothing to do. */
  lemma {:induction false} MergeTwice(norm: string -> string, t: Tables)
    requires Idempotent(norm) && Ids(t.tags) && ForeignKeys(t)
    ensures MergedIsNormalFor(norm, t) && Merged(norm, Merged(norm, t)) == Merged(norm, t)
  {
    MergedIsNormal(norm, t);
    var u := Merged(norm, t);
    forall id | id in u.tags ensures Canonical(norm, u.tags, id) {
      assert Canonical(norm, t.tags, id);
    }
    assert Redundant(norm, u.tags) == {};
    assert Image(norm, u.tags, {}, u.manual) == u.manual;
    assert Image(norm, u.tags, {}, u.auto) == u.auto;
  }

  ghost predicate MergedIsNormalFor(norm: string -> string, t: Tables)
    requires Ids(t.tags) && ForeignKeys(t)
  {
    Ids(Merged(norm, t).tags) && ForeignKeys(Merged(norm, t))
  }

  // --------------------------------------------------------------------- steps

  ghost function Moved(refs: set<Ref>, from: int, to: int): set<Ref> {
    (set r | r in refs && r.tag != from) + if to > 0 then set r | r in refs && r.tag == from :: Ref(r.note, to) else {}
  }

  /** Moving one redundant tag's references to its canonical tag, or dropping a blank tag's. */
  lemma {:induction false} MoveAdvances(norm: string -> string, tags: map<int, string>, done: set<int>, refs: set<Ref>, from: int, to: int)
    requires Ids(tags) && forall r | r in refs :: r.tag in tags
    requires from in Redundant(norm, tags) - done && done <= Redundant(norm, tags)
    requires to == if norm(tags[from]) == "" then 0 else Canon(norm, tags, from)
    ensures Moved(Image(norm, tags, done, refs), from, to) == Image(norm, tags, done + {from}, refs)
  {
    var before, after := Image(norm, tags, done, refs), Image(norm, tags, done + {from}, refs);
    forall q | q in Moved(before, from, to) ensures q in after {
      if q in before && q.tag != from {
        var r :| r in refs && (r.tag !in done || norm(tags[r.tag]) != "")
          && q == Ref(r.note, if r.tag in done then Canon(norm, tags, r.tag) else r.tag);
        assert r.tag != from;
      } else {
        var p :| p in before && p.tag == from && q == Ref(p.note, to);
        var r :| r in refs && (r.tag !in done || norm(tags[r.tag]) != "")
          && p == Ref(r.note, if r.tag in done then Canon(norm, tags, r.tag) else r.tag);
        assert r.tag == from;
      }
    }
    forall q | q in after ensures q in Moved(before, from, to) {
      var r :| r in refs && (r.tag !in done + {from} || norm(tags[r.tag]) != "")
        && q == Ref(r.note, if r.tag in done + {from} then Canon(norm, tags, r.tag) else r.tag);
      if r.tag == from {
        assert Ref(r.note, from) in before;
      } else {
        assert q in before;
        assert q.tag != from;
      }
    }
  }

  /** INSERT OR IGNORE INTO <table> SELECT note_id, to FROM <table> WHERE tag_id = from. */
  method CopyRefs(db: NotesDb, k: RefTable, rows: set<Ref>, to: int)
    requires db.Valid() && to in db.tags && rows <= db.T().Refs(k)
    modifies db
    ensures db.Valid() && db.T() == old(db.T()).WithRefs(k, old(db.T()).Refs(k) + set r | r in rows :: Ref(r.note, to))
    ensures old(db.InSync({})) ==> db.InSync({})
  {
    ghost var t := db.T();
    var todo := rows;
    while todo != {}
      invariant db.Valid() && todo <= rows
      invariant db.T() == t.WithRefs(k, t.Refs(k) + set r | r in rows - todo :: Ref(r.note, to))
      invariant old(db.InSync({})) ==> db.InSync({})
      decreases todo
    {
      var r :| r in todo;
      var ok := db.Attach(k, r.note, to);
      assert (set q | q in rows - (todo - {r}) :: Ref(q.note, to)) == (set q | q in rows - todo :: Ref(q.note, to)) + {Ref(r.note, to)};
      todo := todo - {r};
    }
    assert rows - {} == rows;
  }

  method ReassignMergedTagRefs(db: NotesDb, k: RefTable, from: int, to: int)
    requires db.Valid() && from > 0 && from in db.tags && to != from && (to > 0 ==> to in db.tags)
    modifies db
    ensures db.Valid() && db.T() == old(db.T()).WithRefs(k, Moved(old(db.T()).Refs(k), from, to))
    ensures old(db.InSync({})) ==> db.InSync({})
  {
    ghost var t := db.T();
    if to > 0 {
      CopyRefs(db, k, RefsOfTag(db.Current().Refs(k), from), to);
    }
    db.Detach(k, RefsOfTag(db.Current().Refs(k), from));
    assert db.T().Refs(k) == Moved(t.Refs(k), from, to);
  }

  ghost predicate Increasing(s: seq<int>) {
    forall i, j | 0 <= i < j < |s| :: s[i] < s[j]
  }

  /** SELECT id, name FROM tags ORDER BY id ASC, as the ids in order. */
  ghost predicate SelectedById(tags: map<int, string>, rows: seq<int>) {
    Increasing(rows) && Elements(rows) == tags.Keys
  }

  /** The ids among the first n rows whose name normalises to x, in row order. */
  ghost function GroupOf(norm: string -> string, tags: map<int, string>, rows: seq<int>, n: nat, x: string): seq<int>
    requires n <= |rows| && forall i | 0 <= i < |rows| :: rows[i] in tags
  {
    if n == 0 then []
    else GroupOf(norm, tags, rows, n - 1, x) + if norm(tags[rows[n - 1]]) == x then [rows[n - 1]] else []
  }

  lemma {:induction false} RowsAreTags(tags: map<int, string>, rows: seq<int>)
    requires SelectedById(tags, rows)
    ensures forall i | 0 <= i < |rows| :: rows[i] in tags
  {
    forall i | 0 <= i < |rows| ensures rows[i] in tags {
      assert rows[i] in Elements(rows);
    }
  }

  lemma {:induction false} GroupMembers(norm: string -> string, tags: map<int, string>, rows: seq<int>, n: nat, x: string)
    requires n <= |rows| && forall i | 0 <= i < |rows| :: rows[i] in tags
    ensures forall k :: k in GroupOf(norm, tags, rows, n, x) <==> k in rows[..n] && norm(tags[k]) == x
  {
    if n > 0 {
      GroupMembers(norm, tags, rows, n - 1, x);
      assert rows[..n] == rows[..n - 1] + [rows[n - 1]];
    }
  }

  lemma {:induction false} GroupIncreasing(norm: string -> string, tags: map<int, string>, rows: seq<int>, n: nat, x: string)
    requires n <= |rows| && Increasing(rows) && forall i | 0 <= i < |rows| :: rows[i] in tags
    ensures Increasing(GroupOf(norm, tags, rows, n, x))
    ensures n < |rows| ==> forall i | 0 <= i < |GroupOf(norm, tags, rows, n, x)| :: GroupOf(norm, tags, rows, n, x)[i] < rows[n]
  {
    if n > 0 {
      GroupIncreasing(norm, tags, rows, n - 1, x);
    }
  }

  ghost predicate IsGroup(norm: string -> string, tags: map<int, string>, x: string, group: seq<int>) {
    && x != "" && group != []
    && Increasing(group)
    && (forall k :: k in group <==> k in tags && norm(tags[k]) == x)
    && (forall i | 0 <= i < |group| :: Canonical(norm, tags, group[i]) <==> i == 0)
  }

  /** Over all rows a group is exactly the tags of that name, led by the canonical one. */
  lemma {:induction false} WholeGroup(norm: string -> string, tags: map<int, string>, rows: seq<int>, x: string)
    requires SelectedById(tags, rows) && forall i | 0 <= i < |rows| :: rows[i] in tags
    ensures var g := GroupOf(norm, tags, rows, |rows|, x);
      && Increasing(g)
      && (forall k :: k in g <==> k in tags && norm(tags[k]) == x)
      && (x != "" && g != [] ==> IsGroup(norm, tags, x, g))
  {
    GroupMembers(norm, tags, rows, |rows|, x);
    GroupIncreasing(norm, tags, rows, |rows|, x);
    assert rows[..|rows|] == rows;
    var g := GroupOf(norm, tags, rows, |rows|, x);
    forall k ensures k in g <==> k in tags && norm(tags[k]) == x {
      assert k in rows <==> k in Elements(rows);
    }
    if x != "" && g != [] {
      assert g[0] in g;
      forall a | a in tags && norm(tags[a]) == x ensures g[0] <= a {
        assert a in g;
      }
      forall i | 0 < i < |g| ensures !Canonical(norm, tags, g[i]) {
        assert g[i] in g;
      }
    }
  }

  /** What the scan has collected from the first n rows. */
  ghost predicate Grouped(norm: string -> string, tags: map<int, string>, rows: seq<int>, n: nat,
                          groups: map<string, seq<int>>, names: seq<string>, blanks: seq<int>)
    requires forall i | 0 <= i < |rows| :: rows[i] in tags
  {
    && n <= |rows|
    && blanks == GroupOf(norm, tags, rows, n, "")
    && NoDup(names) && Elements(names) == groups.Keys
    && forall x :: GroupKept(norm, tags, rows, n, groups, x)
  }

  /** The group of name x is listed exactly when some row has that name. */
  ghost predicate GroupKept(norm: string -> string, tags: map<int, string>, rows: seq<int>, n: nat, groups: map<string, seq<int>>, x: string)
    requires n <= |rows| && forall i | 0 <= i < |rows| :: rows[i] in tags
  {
    var group := GroupOf(norm, tags, rows, n, x);
    (x in groups <==> x != "" && group != []) && (x in groups ==> groups[x] == group)
  }

  method SelectById(tags: map<int, string>) returns (rows: seq<int>)
    ensures SelectedById(tags, rows)
  {
    rows := [];
    var todo := tags.Keys;
    while todo != {}
      invariant todo <= tags.Keys && Increasing(rows) && Elements(rows) == tags.Keys - todo
      invariant forall i, id | 0 <= i < |rows| && id in todo :: rows[i] < id
      decreases todo
    {
      var id := Least(todo);
      ElementsPush(rows, id);
      rows := rows + [id];
      todo := todo - {id};
    }
  }

  method Least(s: set<int>) returns (m: int)
    requires s != {}
    ensures m in s && forall x | x in s :: m <= x
  {
    NonEmpty(s);
    m :| m in s;
    var todo := s - {m};
    while todo != {}
      invariant m in s && todo <= s && forall x | x in s && x !in todo :: m <= x
      decreases todo
    {
      NonEmpty(todo);
      var x :| x in todo;
      todo := todo - {x};
      if x < m { m := x; }
    }
  }

  /** Row n joins the group of its name; the other groups stay. */
  lemma {:induction false} GroupGrows(norm: string -> string, tags: map<int, string>, rows: seq<int>, n: nat, x: string)
    requires n < |rows| && forall i | 0 <= i < |rows| :: rows[i] in tags
    ensures GroupOf(norm, tags, rows, n + 1, x) ==
      if norm(tags[rows[n]]) == x then GroupOf(norm, tags, rows, n, x) + [rows[n]] else GroupOf(norm, tags, rows, n, x)
  {
  }

  lemma {:induction false} GroupedBlank(norm: string -> string, tags: map<int, string>, rows: seq<int>, n: nat,
                                        groups: map<string, seq<int>>, names: seq<string>, blanks: seq<int>)
    requires n < |rows| && (forall i | 0 <= i < |rows| :: rows[i] in tags) && norm(tags[rows[n]]) == ""
    requires Grouped(norm, tags, rows, n, groups, names, blanks)
    ensures Grouped(norm, tags, rows, n + 1, groups, names, blanks + [rows[n]])
  {
    GroupGrows(norm, tags, rows, n, "");
    var m := n + 1;
    forall x ensures GroupKept(norm, tags, rows, m, groups, x) {
      assert GroupKept(norm, tags, rows, n, groups, x);
      GroupGrows(norm, tags, rows, n, x);
    }
  }

  function GroupIn(groups: map<string, seq<int>>, x: string): seq<int> {
    if x in groups then groups[x] else []
  }

  lemma {:induction false} KeptNext(norm: string -> string, tags: map<int, string>, rows: seq<int>, n: nat, groups: map<string, seq<int>>,
                                    x: string, y: string)
    requires n < |rows| && (forall i | 0 <= i < |rows| :: rows[i] in tags) && norm(tags[rows[n]]) == x && x != ""
    requires GroupKept(norm, tags, rows, n, groups, x) && GroupKept(norm, tags, rows, n, groups, y)
    ensures GroupKept(norm, tags, rows, n + 1, groups[x := GroupIn(groups, x) + [rows[n]]], y)
  {
    GroupGrows(norm, tags, rows, n, y);
  }

  lemma {:induction false} GroupedNamed(norm: string -> string, tags: map<int, string>, rows: seq<int>, n: nat, x: string,
                                        groups: map<string, seq<int>>, names: seq<string>, blanks: seq<int>)
    requires n < |rows| && (forall i | 0 <= i < |rows| :: rows[i] in tags) && norm(tags[rows[n]]) == x && x != ""
    requires Grouped(norm, tags, rows, n, groups, names, blanks)
    ensures Grouped(norm, tags, rows, n + 1, groups[x := GroupIn(groups, x) + [rows[n]]], if x in groups then names else names + [x], blanks)
  {
    GroupGrows(norm, tags, rows, n, "");
    var m, after := n + 1, groups[x := GroupIn(groups, x) + [rows[n]]];
    forall y ensures GroupKept(norm, tags, rows, m, after, y) {
      assert GroupKept(norm, tags, rows, n, groups, x) && GroupKept(norm, tags, rows, n, groups, y);
      KeptNext(norm, tags, rows, n, groups, x, y);
    }
    NamesNext(groups, names, x, GroupIn(groups, x) + [rows[n]]);
  }

  lemma {:induction false} NamesNext(groups: map<string, seq<int>>, names: seq<string>, x: string, group: seq<int>)
    requires NoDup(names) && Elements(names) == groups.Keys
    ensures var after := if x in groups then names else names + [x]; NoDup(after) && Elements(after) == groups[x := group].Keys
  {
    if x !in groups {
      assert x !in Elements(names);
      ElementsPush(names, x);
    }
  }

  /** The normalised names of the rows, in row order. */
  ghost function RowNames(norm: string -> string, tags: map<int, string>, rows: seq<int>): seq<string>
    requires forall i | 0 <= i < |rows| :: rows[i] in tags
  {
    seq(|rows|, i requires 0 <= i < |rows| => norm(tags[rows[i]]))
  }

  /** The map that counts as `exists` in the scan holds exactly the names listed so far. */
  lemma {:induction false} NameListed(all: seq<string>, n: nat, names: seq<string>, keys: set<string>)
    requires n < |all| && names == TagNames.FirstSeen(all[..n]) && Elements(names) == keys
    ensures TagNames.FirstSeen(all[..n + 1]) == if all[n] == "" || all[n] in keys then names else names + [all[n]]
  {
    TagNames.FirstSeenPush(all, n);
    assert all[n] in names <==> all[n] in Elements(names);
  }

  /** What the scan has collected, with the names in the order in which the rows first show them. */
  ghost predicate Scanned(norm: string -> string, tags: map<int, string>, rows: seq<int>, n: nat,
                          groups: map<string, seq<int>>, names: seq<string>, blanks: seq<int>)
    requires forall i | 0 <= i < |rows| :: rows[i] in tags
  {
    n <= |rows| && Grouped(norm, tags, rows, n, groups, names, blanks) && names == TagNames.FirstSeen(RowNames(norm, tags, rows)[..n])
  }

  lemma {:induction false} NothingScanned(norm: string -> string, tags: map<int, string>, rows: seq<int>)
    requires forall i | 0 <= i < |rows| :: rows[i] in tags
    ensures Scanned(norm, tags, rows, 0, map[], [], [])
  {
    assert RowNames(norm, tags, rows)[..0] == [];
  }

  lemma {:induction false} AllScanned(norm: string -> string, tags: map<int, string>, rows: seq<int>,
                                      groups: map<string, seq<int>>, names: seq<string>, blanks: seq<int>)
    requires (forall i | 0 <= i < |rows| :: rows[i] in tags) && Scanned(norm, tags, rows, |rows|, groups, names, blanks)
    ensures Grouped(norm, tags, rows, |rows|, groups, names, blanks) && names == TagNames.FirstSeen(RowNames(norm, tags, rows))
  {
    assert RowNames(norm, tags, rows)[..|rows|] == RowNames(norm, tags, rows);
  }

  /** The scan over the selected rows. */
  method GroupRows(norm: string -> string, tags: map<int, string>, rows: seq<int>)
    returns (groups: map<string, seq<int>>, names: seq<string>, blanks: seq<int>)
    requires forall i | 0 <= i < |rows| :: rows[i] in tags
    ensures Grouped(norm, tags, rows, |rows|, groups, names, blanks)
    ensures names == TagNames.FirstSeen(RowNames(norm, tags, rows))
  {
    groups, names, blanks := map[], [], [];
    NothingScanned(norm, tags, rows);
    var n := 0;
    while n < |rows|
      invariant n <= |rows| && Scanned(norm, tags, rows, n, groups, names, blanks)
    {
      groups, names, blanks := GroupRow(norm, tags, rows, n, groups, names, blanks);
      n := n + 1;
    }
    AllScanned(norm, tags, rows, groups, names, blanks);
  }

  /** One row of the scan. */
  method GroupRow(norm: string -> string, tags: map<int, string>, rows: seq<int>, n: nat,
                  groups: map<string, seq<int>>, names: seq<string>, blanks: seq<int>)
    returns (groups': map<string, seq<int>>, names': seq<string>, blanks': seq<int>)
    requires n < |rows| && forall i | 0 <= i < |rows| :: rows[i] in tags
    requires Scanned(norm, tags, rows, n, groups, names, blanks)
    ensures Scanned(norm, tags, rows, n + 1, groups', names', blanks')
  {
    var id := rows[n];
    var x := norm(tags[id]);
    NameListed(RowNames(norm, tags, rows), n, names, groups.Keys);
    if x == "" {
      GroupedBlank(norm, tags, rows, n, groups, names, blanks);
      return groups, names, blanks + [id];
    }
    GroupedNamed(norm, tags, rows, n, x, groups, names, blanks);
    names' := if x in groups then names else names + [x];
    groups' := groups[x := GroupIn(groups, x) + [id]];
    blanks' := blanks;
  }

  // ----------------------------------------------------------------- migration

  /** The tables after `done` has been merged away and the names in `renamed` have been written. */
  ghost predicate At(norm: string -> string, t0: Tables, done: set<int>, renamed: set<string>, t: Tables)
    requires Ids(t0.tags) && ForeignKeys(t0)
  {
    t == Tables(t0.notes, Names(norm, t0.tags, done, renamed), Image(norm, t0.tags, done, t0.manual), Image(norm, t0.tags, done, t0.auto))
  }

  /** Reassign both reference tables, then DELETE FROM tags: nothing is left for the cascade to take. */
  method MergeAway(db: NotesDb, norm: string -> string, from: int, to: int,
                   ghost t0: Tables, ghost done: set<int>, ghost renamed: set<string>)
    requires db.Valid() && Ids(t0.tags) && ForeignKeys(t0) && At(norm, t0, done, renamed, db.T())
    requires done <= Redundant(norm, t0.tags) && from in Redundant(norm, t0.tags) - done
    requires to == if norm(t0.tags[from]) == "" then 0 else Canon(norm, t0.tags, from)
    modifies db
    ensures db.Valid() && At(norm, t0, done + {from}, renamed, db.T())
    ensures old(db.InSync({})) ==> db.InSync({})
  {
    MoveAdvances(norm, t0.tags, done, t0.manual, from, to);
    MoveAdvances(norm, t0.tags, done, t0.auto, from, to);
    ReassignMergedTagRefs(db, Manual, from, to);
    ReassignMergedTagRefs(db, Auto, from, to);
    assert RefsOfTag(db.manual, from) == {} && RefsOfTag(db.auto, from) == {};
    db.DeleteTag(from);
    assert db.tags == Names(norm, t0.tags, done + {from}, renamed);
  }

  /** The tags merged away once the groups of these names are finished. */
  ghost function DoneFor(norm: string -> string, tags: map<int, string>, finished: set<string>): set<int> {
    set id | id in Redundant(norm, tags) && (norm(tags[id]) == "" || norm(tags[id]) in finished)
  }

  /** Merge away a list of redundant tags that share one target. */
  method MergeAll(db: NotesDb, norm: string -> string, dups: seq<int>, to: int,
                  ghost t0: Tables, ghost done: set<int>, ghost renamed: set<string>)
    requires db.Valid() && Ids(t0.tags) && ForeignKeys(t0) && At(norm, t0, done, renamed, db.T())
    requires NoDup(dups) && done <= Redundant(norm, t0.tags)
    requires forall i | 0 <= i < |dups| :: dups[i] in Redundant(norm, t0.tags) - done
    requires forall i | 0 <= i < |dups| :: to == if norm(t0.tags[dups[i]]) == "" then 0 else Canon(norm, t0.tags, dups[i])
    modifies db
    ensures db.Valid() && At(norm, t0, done + Elements(dups), renamed, db.T())
    ensures old(db.InSync({})) ==> db.InSync({})
  {
    ghost var merged := done;
    var i := 0;
    while i < |dups|
      invariant 0 <= i <= |dups| && db.Valid() && At(norm, t0, merged, renamed, db.T())
      invariant done <= merged <= Redundant(norm, t0.tags) && merged <= done + Elements(dups)
      invariant forall k | 0 <= k < i :: dups[k] in merged
      invariant forall k | i <= k < |dups| :: dups[k] !in merged
      invariant old(db.InSync({})) ==> db.InSync({})
    {
      MergeAway(db, norm, dups[i], to, t0, merged, renamed);
      merged := merged + {dups[i]};
      i := i + 1;
    }
    assert merged == done + Elements(dups);
  }

  lemma {:induction false} GroupTail(norm: string -> string, tags: map<int, string>, x: string, group: seq<int>, finished: set<string>)
    requires Ids(tags) && IsGroup(norm, tags, x, group) && x !in finished
    ensures var dups := group[1..];
      && NoDup(dups)
      && forall i | 0 <= i < |dups| ::
           dups[i] in Redundant(norm, tags) - DoneFor(norm, tags, finished) && norm(tags[dups[i]]) == x && Canon(norm, tags, dups[i]) == group[0]
  {
    var dups := group[1..];
    forall i | 0 <= i < |dups|
      ensures dups[i] in Redundant(norm, tags) - DoneFor(norm, tags, finished) && norm(tags[dups[i]]) == x && Canon(norm, tags, dups[i]) == group[0]
    {
      assert dups[i] == group[i + 1] && group[i + 1] in group && group[0] in group;
    }
  }

  /** Merge a group's duplicates into its first tag, then give that tag the normalised name. */
  method MergeGroup(db: NotesDb, norm: string -> string, x: string, group: seq<int>, ghost t0: Tables, ghost finished: set<string>) returns (ok: bool)
    requires db.Valid() && Idempotent(norm) && Ids(t0.tags) && ForeignKeys(t0)
    requires IsGroup(norm, t0.tags, x, group) && x !in finished
    requires At(norm, t0, DoneFor(norm, t0.tags, finished), finished, db.T())
    modifies db
    ensures ok && db.Valid() && At(norm, t0, DoneFor(norm, t0.tags, finished + {x}), finished + {x}, db.T())
    ensures old(db.InSync({})) ==> db.InSync({})
  {
    GroupTail(norm, t0.tags, x, group, finished);
    MergeAll(db, norm, group[1..], group[0], t0, DoneFor(norm, t0.tags, finished), finished);
    GroupFinished(norm, t0.tags, finished, x, group);
    assert group[0] in group;
    ok := RenameCanonical(db, norm, x, group[0], t0, finished, DoneFor(norm, t0.tags, finished + {x}));
  }

  lemma {:induction false} GroupFinished(norm: string -> string, tags: map<int, string>, finished: set<string>, x: string, group: seq<int>)
    requires IsGroup(norm, tags, x, group)
    ensures DoneFor(norm, tags, finished) + Elements(group[1..]) == DoneFor(norm, tags, finished + {x})
  {
    forall k | k in DoneFor(norm, tags, finished + {x}) && k !in DoneFor(norm, tags, finished) ensures k in group[1..] {
      assert k in group;
      var i :| 0 <= i < |group| && group[i] == k;
      assert group[1..][i - 1] == k;
    }
    forall k | k in group[1..] ensures k in DoneFor(norm, tags, finished + {x}) {
      var i :| 0 <= i < |group| - 1 && group[1..][i] == k;
      assert group[i + 1] == k && k in group;
    }
  }

  /** The rename cannot meet a row that already has the name: such a row was in the group. */
  method RenameCanonical(db: NotesDb, norm: string -> string, x: string, id: int,
                         ghost t0: Tables, ghost finished: set<string>, ghost done: set<int>) returns (ok: bool)
    requires db.Valid() && Idempotent(norm) && Ids(t0.tags) && ForeignKeys(t0)
    requires x != "" && Canonical(norm, t0.tags, id) && norm(t0.tags[id]) == x
    requires done == DoneFor(norm, t0.tags, finished + {x}) && At(norm, t0, done, finished, db.T())
    modifies db
    ensures ok && db.Valid() && At(norm, t0, done, finished + {x}, db.T())
    ensures old(db.InSync({})) ==> db.InSync({})
  {
    assert id in db.tags;
    ok := true;
    forall a | a in t0.tags && norm(t0.tags[a]) == x && a != id ensures a in done {}
    if db.tags[id] != x {
      forall a | a in db.tags && a != id ensures db.tags[a] != x {
        assert norm(norm(t0.tags[a])) == norm(t0.tags[a]) && norm(norm(t0.tags[id])) == x;
      }
      ok := db.RenameTag(id, x);
    }
    assert db.tags == Names(norm, t0.tags, done, finished + {x});
  }

  /** The loop over the groups, in the order their names were first seen. */
  method MergeGroups(db: NotesDb, norm: string -> string, groups: map<string, seq<int>>, names: seq<string>, ghost t0: Tables)
    requires db.Valid() && Idempotent(norm) && Ids(t0.tags) && ForeignKeys(t0)
    requires NoDup(names) && forall i | 0 <= i < |names| :: names[i] in groups && IsGroup(norm, t0.tags, names[i], groups[names[i]])
    requires At(norm, t0, DoneFor(norm, t0.tags, {}), {}, db.T())
    modifies db
    ensures db.Valid() && At(norm, t0, DoneFor(norm, t0.tags, Elements(names)), Elements(names), db.T())
    ensures old(db.InSync({})) ==> db.InSync({})
  {
    ghost var finished: set<string> := {};
    var i := 0;
    while i < |names|
      invariant 0 <= i <= |names| && db.Valid() && At(norm, t0, DoneFor(norm, t0.tags, finished), finished, db.T())
      invariant finished <= Elements(names)
      invariant forall k | 0 <= k < i :: names[k] in finished
      invariant forall k | i <= k < |names| :: names[k] !in finished
      invariant old(db.InSync({})) ==> db.InSync({})
    {
      var _ := MergeGroup(db, norm, names[i], groups[names[i]], t0, finished);
      finished := finished + {names[i]};
      i := i + 1;
    }
    assert finished == Elements(names);
  }

  /** normalizeTagNames: no statement fails, and the result is the specified merge. */
  method NormalizeTagNames(db: NotesDb, norm: string -> string) returns (ok: bool)
    requires db.Valid() && Ids(db.tags) && Idempotent(norm)
    modifies db
    ensures ok && db.Valid() && db.T() == Merged(norm, old(db.T()))
    ensures old(db.InSync({})) ==> db.InSync({})
  {
    ghost var t0 := db.T();
    var rows := SelectById(db.tags);
    RowsAreTags(t0.tags, rows);
    var groups, names, blanks := GroupRows(norm, db.tags, rows);
    ScanResult(norm, t0.tags, rows, groups, names, blanks);
    NothingMerged(norm, t0);
    MergeAll(db, norm, blanks, 0, t0, {}, {});
    assert {} + Elements(blanks) == DoneFor(norm, t0.tags, {});
    MergeGroups(db, norm, groups, names, t0);
    forall x ensures x in Elements(names) <==> x != "" && GroupOf(norm, t0.tags, rows, |rows|, x) != [] {
      assert GroupKept(norm, t0.tags, rows, |rows|, groups, x);
    }
    AllFinished(norm, t0, rows, Elements(names));
    ok := true;
  }

  lemma {:induction false} NothingMerged(norm: string -> string, t0: Tables)
    requires Ids(t0.tags) && ForeignKeys(t0)
    ensures At(norm, t0, {}, {}, t0)
  {
    assert Names(norm, t0.tags, {}, {}) == t0.tags;
    assert Image(norm, t0.tags, {}, t0.manual) == t0.manual && Image(norm, t0.tags, {}, t0.auto) == t0.auto;
  }

  lemma {:induction false} ListedGroup(norm: string -> string, tags: map<int, string>, rows: seq<int>, groups: map<string, seq<int>>, x: string)
    requires SelectedById(tags, rows) && forall i | 0 <= i < |rows| :: rows[i] in tags
    requires GroupKept(norm, tags, rows, |rows|, groups, x)
    ensures x in groups ==> IsGroup(norm, tags, x, groups[x])
  {
    WholeGroup(norm, tags, rows, x);
  }

  lemma {:induction false} ScanResult(norm: string -> string, tags: map<int, string>, rows: seq<int>,
                                      groups: map<string, seq<int>>, names: seq<string>, blanks: seq<int>)
    requires SelectedById(tags, rows) && forall i | 0 <= i < |rows| :: rows[i] in tags
    requires Grouped(norm, tags, rows, |rows|, groups, names, blanks)
    ensures NoDup(blanks) && Elements(blanks) == DoneFor(norm, tags, {})
    ensures forall i | 0 <= i < |blanks| :: blanks[i] in Redundant(norm, tags) && norm(tags[blanks[i]]) == ""
    ensures forall i | 0 <= i < |names| :: names[i] in groups && IsGroup(norm, tags, names[i], groups[names[i]])
  {
    WholeGroup(norm, tags, rows, "");
    forall i | 0 <= i < |blanks| ensures blanks[i] in Redundant(norm, tags) && norm(tags[blanks[i]]) == "" {
      assert blanks[i] in blanks;
    }
    assert Elements(blanks) == DoneFor(norm, tags, {});
    forall i | 0 <= i < |names| ensures names[i] in groups && IsGroup(norm, tags, names[i], groups[names[i]]) {
      assert names[i] in Elements(names);
      ListedGroup(norm, tags, rows, groups, names[i]);
    }
  }

  lemma {:induction false} AllFinished(norm: string -> string, t0: Tables, rows: seq<int>, finished: set<string>)
    requires Ids(t0.tags) && ForeignKeys(t0) && SelectedById(t0.tags, rows) && forall i | 0 <= i < |rows| :: rows[i] in t0.tags
    requires forall x :: x in finished <==> x != "" && GroupOf(norm, t0.tags, rows, |rows|, x) != []
    ensures DoneFor(norm, t0.tags, finished) == Redundant(norm, t0.tags)
    ensures Names(norm, t0.tags, DoneFor(norm, t0.tags, finished), finished) == Merged(norm, t0).tags
  {
    forall id | id in t0.tags && norm(t0.tags[id]) != "" ensures norm(t0.tags[id]) in finished {
      WholeGroup(norm, t0.tags, rows, norm(t0.tags[id]));
    }
  }

  ghost predicate SameNamesEverywhere(norm: string -> string, t: Tables, u: Tables) {
    forall k, note :: NamesOn(norm, u.tags, u.Refs(k), note) == NamesOn(norm, t.tags, t.Refs(k), note)
  }

  ghost predicate AllNormal(norm: string -> string, tags: map<int, string>) {
    forall id | id in tags :: tags[id] != "" && norm(tags[id]) == tags[id]
  }

  /** With the repository's own normalisation. */
  method MigrateTags(db: NotesDb, lower: char -> char) returns (ok: bool)
    requires db.Valid() && Ids(db.tags) && TagNames.CaseMap(lower)
    modifies db
    ensures ok && db.Valid() && UniqueNames(db.tags)
    ensures AllNormal(s => TagNames.Normalize(s, lower), db.tags)
    ensures SameNamesEverywhere(s => TagNames.Normalize(s, lower), old(db.T()), db.T())
    ensures old(db.InSync({})) ==> db.InSync({})
  {
    var norm := s => TagNames.Normalize(s, lower);
    assert Idempotent(norm) by {
      forall s ensures norm(norm(s)) == norm(s) { TagNames.NormalizeIdempotent(s, lower); }
    }
    ghost var t0 := db.T();
    ok := NormalizeTagNames(db, norm);
    MergedIsNormal(norm, t0);
    forall k, note ensures NamesOn(norm, db.tags, db.T().Refs(k), note) == NamesOn(norm, t0.tags, t0.Refs(k), note) {
      MergeKeepsNames(norm, t0, k, note);
    }
  }
}
