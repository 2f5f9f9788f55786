/** The local scope of a note in the note tree (pkg/notetype/index/index.go). */
module NoteScope {
  import opened Prelude

  /** notes.id and notes.parent_id. */
  type Tree = map<int, Option<int>>

  /** Parent links never form a cycle: some ranking grows from every parent to its children. */
  ghost predicate Ranked(t: Tree, rank: int -> int) {
    forall c | c in t && t[c].Some? && t[c].value in t :: rank(t[c].value) < rank(c)
  }

  /** The note k links above d. */
  function Up(t: Tree, d: int, k: nat): Option<int>
    decreases k
  {
    if d !in t then None
    else if k == 0 then Some(d)
    else if t[d].None? then None
    else Up(t, t[d].value, k - 1)
  }

  ghost predicate Sibling(t: Tree, n: int, s: int) {
    n in t && s in t && t[s] == t[n]
  }

  /** d lies k levels below a sibling of n (which n itself is). */
  ghost predicate AtLevel(t: Tree, n: int, d: int, k: nat) {
    Up(t, d, k).Some? && Sibling(t, n, Up(t, d, k).value)
  }

  /** A sibling of n or a descendant of one. */
  ghost predicate InScope(t: Tree, n: int, d: int) {
    exists k: nat :: AtLevel(t, n, d, k)
  }

  lemma {:induction false} UpLowersRank(t: Tree, rank: int -> int, d: int, k: nat)
    requires Ranked(t, rank) && Up(t, d, k).Some?
    ensures Up(t, d, k).value in t && rank(Up(t, d, k).value) <= rank(d) - k
    decreases k
  {
    if k > 0 { UpLowersRank(t, rank, t[d].value, k - 1); }
  }

  /** Going i links up and then m more. */
  lemma {:induction false} UpSplit(t: Tree, d: int, i: nat, m: nat)
    requires Up(t, d, i).Some?
    ensures Up(t, d, i + m) == Up(t, Up(t, d, i).value, m)
    decreases i
  {
    if i > 0 { UpSplit(t, t[d].value, i - 1, m); }
  }

  /** No sibling is a proper descendant of a sibling. */
  lemma {:induction false} SiblingsAreLevel(t: Tree, rank: int -> int, n: int, s: int, m: nat)
    requires Ranked(t, rank) && Sibling(t, n, s) && AtLevel(t, n, s, m)
    ensures m == 0
  {
    if m > 0 {
      UpLowersRank(t, rank, t[s].value, m - 1);
    }
  }

  /** A note is at one level only. */
  lemma {:induction false} OneLevel(t: Tree, rank: int -> int, n: int, d: int, i: nat, j: nat)
    requires Ranked(t, rank) && AtLevel(t, n, d, i) && AtLevel(t, n, d, j)
    ensures i == j
  {
    if i < j {
      UpSplit(t, d, i, j - i);
      SiblingsAreLevel(t, rank, n, Up(t, d, i).value, j - i);
    }
    if j < i {
      UpSplit(t, d, j, i - j);
      SiblingsAreLevel(t, rank, n, Up(t, d, j).value, i - j);
    }
  }

  /** Below an empty level there is nothing. */
  lemma {:induction false} NoneBelow(t: Tree, n: int, k: nat, d: int, j: nat)
    requires forall c :: !AtLevel(t, n, c, k)
    requires AtLevel(t, n, d, j)
    ensures j < k
    decreases j
  {
    if j > k {
      NoneBelow(t, n, k, t[d].value, j - 1);
    }
  }

  lemma {:induction false} NoDupJoin(a: seq<int>, b: seq<int>)
    requires NoDup(a) && NoDup(b) && forall x | x in b :: x !in a
    ensures NoDup(a + b)
  {
    forall i, j | 0 <= i < j < |a + b| ensures (a + b)[i] != (a + b)[j] {
      if i < |a| <= j { assert (a + b)[j] in b && (a + b)[i] in a; }
    }
  }

  /** The ids a query returns, each once, in any order. */
  method Rows(ids: set<int>) returns (rows: seq<int>)
    ensures NoDup(rows) && forall x :: x in rows <==> x in ids
  {
    rows := [];
    var todo := ids;
    while todo != {}
      invariant NoDup(rows) && todo <= ids && forall x :: x in rows <==> x in ids - todo
      decreases |todo|
    {
      NonEmpty(todo);
      var id :| id in todo;
      NoDupJoin(rows, [id]);
      rows, todo := rows + [id], todo - {id};
    }
  }

  /** `all` lists exactly the notes of the levels up to the given one. */
  ghost predicate Covers(t: Tree, n: int, all: seq<int>, level: nat) {
    forall d :: d in all <==> UpTo(t, n, d, level)
  }

  ghost predicate UpTo(t: Tree, n: int, d: int, level: nat) {
    exists k: nat :: k <= level && AtLevel(t, n, d, k)
  }

  ghost predicate IsLevel(t: Tree, n: int, ids: seq<int>, level: nat) {
    forall d :: d in ids <==> AtLevel(t, n, d, level)
  }

  lemma {:induction false} NextLevel(t: Tree, rank: int -> int, n: int, all: seq<int>, level: nat, children: seq<int>)
    requires Ranked(t, rank) && NoDup(all) && NoDup(children) && Covers(t, n, all, level) && IsLevel(t, n, children, level + 1)
    ensures NoDup(all + children) && Covers(t, n, all + children, level + 1)
    ensures Elements(all) <= t.Keys && (children != [] ==> Elements(all) < Elements(all + children) <= t.Keys)
  {
    forall d | d in children ensures d !in all {
      if d in all {
        var k: nat :| k <= level && AtLevel(t, n, d, k);
        OneLevel(t, rank, n, d, k, level + 1);
      }
    }
    NoDupJoin(all, children);
    forall d | d in all + children ensures d in t {
      if d in all { assert UpTo(t, n, d, level); }
    }
    forall d ensures d in all + children <==> UpTo(t, n, d, level + 1) {
      if UpTo(t, n, d, level + 1) && !UpTo(t, n, d, level) {
        var k: nat :| k <= level + 1 && AtLevel(t, n, d, k);
        assert d in children;
      }
    }
    if children != [] { assert children[0] in Elements(all + children) && children[0] !in Elements(all); }
  }

  lemma {:induction false} ChildrenAreNext(t: Tree, n: int, queue: seq<int>, level: nat, children: seq<int>)
    requires IsLevel(t, n, queue, level)
    requires forall c :: c in children <==> c in t && t[c].Some? && t[c].value in t && t[c].value in queue
    ensures IsLevel(t, n, children, level + 1)
  {
    forall c ensures c in children <==> AtLevel(t, n, c, level + 1) {
      if c in t && t[c].Some? { assert t[c].value in queue <==> AtLevel(t, n, t[c].value, level); }
    }
  }

  lemma {:induction false} ScopeIsCovered(t: Tree, n: int, all: seq<int>, level: nat, empty: nat)
    requires Covers(t, n, all, level) && empty <= level + 1 && forall c :: !AtLevel(t, n, c, empty)
    ensures forall d :: d in all <==> InScope(t, n, d)
  {
    forall d ensures d in all <==> InScope(t, n, d) {
      if InScope(t, n, d) {
        var k: nat :| AtLevel(t, n, d, k);
        NoneBelow(t, n, empty, d, k);
        assert UpTo(t, n, d, level);
      }
    }
  }

  /** Level by level from the siblings down; the ranking only serves the proof. */
  method LocalScopeIds(t: Tree, noteId: int, ghost rank: int -> int) returns (r: Option<seq<int>>)
    requires Ranked(t, rank)
    ensures r.None? <==> noteId !in t
    ensures r.Some? ==> NoDup(r.value) && forall d :: d in r.value <==> InScope(t, noteId, d)
  {
    if noteId !in t { return None; }
    var siblings := Rows(set s | s in t && t[s] == t[noteId]);
    var all, queue := siblings, siblings;
    ghost var level, empty := 0, 0;
    assert IsLevel(t, noteId, queue, 0);
    while |queue| > 0
      invariant NoDup(all) && IsLevel(t, noteId, queue, level) && Covers(t, noteId, all, level)
      invariant empty == level
      decreases t.Keys - Elements(all), |queue|
    {
      var children := Rows(set c | c in t && t[c].Some? && t[c].value in t && t[c].value in queue);
      ChildrenAreNext(t, noteId, queue, level, children);
      if |children| == 0 {
        empty := level + 1;
        break;
      }
      NextLevel(t, rank, noteId, all, level, children);
      all, queue, level, empty := all + children, children, level + 1, level + 1;
    }
    ScopeIsCovered(t, noteId, all, level, empty);
    r := Some(all);
  }

  /** All notes with the parent of n, and with any note its children. */
  ghost predicate Encloses(t: Tree, n: int, all: iset<int>) {
    && (forall s | s in t && n in t && t[s] == t[n] :: s in all)
    && (forall c | c in t && t[c].Some? && t[c].value in t && t[c].value in all :: c in all)
  }

  /** The scope is the least such set. */
  lemma {:induction false} ScopeIsLeast(t: Tree, n: int)
    requires n in t
    ensures Encloses(t, n, iset d | InScope(t, n, d))
    ensures forall all, d | Encloses(t, n, all) && InScope(t, n, d) :: d in all
  {
    forall s | s in t && t[s] == t[n] ensures InScope(t, n, s) { assert AtLevel(t, n, s, 0); }
    forall c | c in t && t[c].Some? && InScope(t, n, t[c].value) ensures InScope(t, n, c) { ScopeIsClosed(t, n, c); }
    forall all, d | Encloses(t, n, all) && InScope(t, n, d) ensures d in all {
      var k: nat :| AtLevel(t, n, d, k);
      LevelsInside(t, n, all, d, k);
    }
  }

  lemma {:induction false} LevelsInside(t: Tree, n: int, all: iset<int>, d: int, k: nat)
    requires n in t && AtLevel(t, n, d, k) && Encloses(t, n, all)
    ensures d in all
    decreases k
  {
    if k > 0 { LevelsInside(t, n, all, t[d].value, k - 1); }
  }

  /** The scope holds the note and, with any note, all its children. */
  lemma {:induction false} ScopeIsClosed(t: Tree, n: int, c: int)
    requires n in t
    ensures InScope(t, n, n)
    ensures c in t && t[c].Some? && InScope(t, n, t[c].value) ==> InScope(t, n, c)
  {
    assert AtLevel(t, n, n, 0);
    if c in t && t[c].Some? && InScope(t, n, t[c].value) {
      var k: nat :| AtLevel(t, n, t[c].value, k);
      assert AtLevel(t, n, c, k + 1);
    }
  }
}
