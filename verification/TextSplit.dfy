/** Splitting long text for the embedding model (internal/searchindex/searchindex.go), on code points. */
module TextSplit {
  import opened TagNames

  function Visible(c: char): string {
    if IsSpace(c) then [] else [c]
  }

  /** The text without its white space. */
  function Solid(s: string): string {
    if s == [] then [] else Visible(s[0]) + Solid(s[1..])
  }

  /** The first n pieces without their white space. */
  function SolidUpTo(pieces: seq<string>, n: nat): string
    requires n <= |pieces|
  {
    if n == 0 then [] else SolidUpTo(pieces, n - 1) + Solid(pieces[n - 1])
  }

  function SolidAll(pieces: seq<string>): string {
    SolidUpTo(pieces, |pieces|)
  }

  lemma {:induction false} Regroup(a: string, b: string, c: string)
    ensures a + b + c == a + (b + c)
  {
  }

  lemma {:induction false} SolidJoin(a: string, b: string)
    ensures Solid(a + b) == Solid(a) + Solid(b)
  {
    if a == [] {
      assert a + b == b;
    } else {
      SolidJoin(a[1..], b);
      assert (a + b)[0] == a[0] && (a + b)[1..] == a[1..] + b;
      Regroup(Visible(a[0]), Solid(a[1..]), Solid(b));
    }
  }

  /** One more character counts unless it is white space. */
  lemma {:induction false} SolidPush(s: string, c: char)
    ensures Solid(s + [c]) == if IsSpace(c) then Solid(s) else Solid(s) + [c]
  {
    SolidJoin(s, [c]);
    assert Solid([c]) == Visible(c) + Solid([]);
  }

  lemma {:induction false} SolidSplit(s: string, i: nat, j: nat)
    requires i <= j <= |s|
    ensures Solid(s[i..]) == Solid(s[i..j]) + Solid(s[j..])
  {
    SolidJoin(s[i..j], s[j..]);
    assert s[i..j] + s[j..] == s[i..];
  }

  lemma {:induction false} SolidPrefix(pieces: seq<string>, c: string, n: nat)
    requires n <= |pieces|
    ensures SolidUpTo(pieces + [c], n) == SolidUpTo(pieces, n)
  {
    if n > 0 { SolidPrefix(pieces, c, n - 1); }
  }

  lemma {:induction false} SolidAllPush(pieces: seq<string>, c: string)
    ensures SolidAll(pieces + [c]) == SolidAll(pieces) + Solid(c)
  {
    SolidPrefix(pieces, c, |pieces|);
  }

  lemma {:induction false} SolidAllOne(s: string)
    ensures SolidAll([s]) == Solid(s)
  {
    assert SolidUpTo([s], 1) == SolidUpTo([s], 0) + Solid(s);
  }

  lemma {:induction false} SolidBlank(s: string)
    requires forall i | 0 <= i < |s| :: IsSpace(s[i])
    ensures Solid(s) == []
  {
    if s != [] { SolidBlank(s[1..]); }
  }

  lemma {:induction false} SolidTrimLeft(s: string)
    ensures Solid(TrimLeft(s)) == Solid(s)
    decreases |s|
  {
    if s != [] && IsSpace(s[0]) { SolidTrimLeft(s[1..]); }
  }

  lemma {:induction false} SolidTrimRight(s: string)
    ensures Solid(TrimRight(s)) == Solid(s)
    decreases |s|
  {
    if s != [] && IsSpace(s[|s| - 1]) {
      var n := |s| - 1;
      SolidTrimRight(s[..n]);
      SolidSplit(s, 0, n);
      SolidBlank(s[n..]);
      assert s[0..] == s && s[0..n] == s[..n];
    }
  }

  lemma {:induction false} SolidTrim(s: string)
    ensures Solid(TrimSpace(s)) == Solid(s)
  {
    SolidTrimLeft(s);
    SolidTrimRight(TrimLeft(s));
  }

  ghost predicate GoodChunk(c: string, limit: nat) {
    c != [] && Trimmed(c) && |c| <= limit
  }

  ghost predicate GoodChunks(chunks: seq<string>, limit: nat) {
    forall k | 0 <= k < |chunks| :: GoodChunk(chunks[k], limit)
  }

  lemma {:induction false} GoodPush(chunks: seq<string>, c: string, limit: nat)
    requires GoodChunks(chunks, limit) && GoodChunk(c, limit)
    ensures GoodChunks(chunks + [c], limit)
  {
  }

  lemma {:induction false} TrimKeepsText(s: string)
    requires s != [] && !IsSpace(s[0])
    ensures TrimSpace(s) != []
  {
    TrimRightShape(s);
  }

  ghost predicate Blanks(runes: string, from: nat, to: nat) {
    from <= to <= |runes| && forall k | from <= k < to :: IsSpace(runes[k])
  }

  /**
   * A full window from `start` is cut right after its last white space, if that
   * lies in its second half, and otherwise where it ends.
   */
  ghost predicate CutAt(runes: string, start: nat, limit: nat, split: nat) {
    && start < split <= start + limit < |runes|
    && (split < start + limit ==> split > start + limit / 2 && IsSpace(runes[split - 1]))
    && forall k | start + limit / 2 <= k < start + limit && split <= k :: !IsSpace(runes[k])
  }

  method FindSplit(runes: string, start: nat, limit: nat) returns (split: nat)
    requires limit > 0 && start + limit < |runes|
    ensures CutAt(runes, start, limit, split)
  {
    var end := start + limit;
    split := end;
    var i := end;
    while i > start + limit / 2
      invariant start + limit / 2 <= i <= end && split == end
      invariant forall k | i <= k < end :: !IsSpace(runes[k])
    {
      if IsSpace(runes[i - 1]) {
        split := i;
        break;
      }
      i := i - 1;
    }
  }

  method SkipSpaces(runes: string, from: nat) returns (start: nat)
    requires from <= |runes|
    ensures from <= start <= |runes| && (start < |runes| ==> !IsSpace(runes[start])) && Blanks(runes, from, start)
    ensures Solid(runes[start..]) == Solid(runes[from..])
  {
    start := from;
    while start < |runes| && IsSpace(runes[start])
      invariant from <= start <= |runes| && Blanks(runes, from, start) && Solid(runes[start..]) == Solid(runes[from..])
    {
      assert runes[start..][1..] == runes[start + 1..];
      start := start + 1;
    }
  }

  /** The chunks so far carry what precedes position `start`. */
  ghost predicate Carries(chunks: seq<string>, runes: string, start: nat, text: string) {
    start <= |runes| && SolidAll(chunks) + Solid(runes[start..]) == Solid(text)
  }

  lemma {:induction false} ChunkAdded(chunks: seq<string>, chunk: string, runes: string, start: nat, split: nat, text: string)
    requires start <= split <= |runes| && Solid(chunk) == Solid(runes[start..split]) && Carries(chunks, runes, start, text)
    ensures Carries(chunks + [chunk], runes, split, text)
  {
    SolidAllPush(chunks, chunk);
    SolidSplit(runes, start, split);
    Regroup(SolidAll(chunks), Solid(chunk), Solid(runes[split..]));
  }

  /** The part of the text a chunk is trimmed from. */
  datatype Window = Window(start: nat, end: nat)

  /** It begins with a visible character, and reaches the end of the text when the limit allows. */
  ghost predicate IsWindow(runes: string, limit: nat, w: Window, chunk: string) {
    && w.start < w.end <= |runes| && !IsSpace(runes[w.start]) && chunk == TrimSpace(runes[w.start..w.end])
    && if w.start + limit < |runes| then CutAt(runes, w.start, limit, w.end) else w.end == |runes|
  }

  /** The chunks come from these windows, and what precedes `start` outside them is white space. */
  ghost predicate Windowed(runes: string, limit: nat, chunks: seq<string>, windows: seq<Window>, start: nat)
    decreases |windows|
  {
    && |windows| == |chunks|
    && if windows == [] then start == 0
       else
         var n := |windows| - 1;
         && IsWindow(runes, limit, windows[n], chunks[n]) && Blanks(runes, windows[n].end, start)
         && Windowed(runes, limit, chunks[..n], windows[..n], windows[n].start)
  }

  lemma {:induction false} WindowAdded(runes: string, limit: nat, chunks: seq<string>, windows: seq<Window>, w: Window, chunk: string, start: nat)
    requires Windowed(runes, limit, chunks, windows, w.start) && IsWindow(runes, limit, w, chunk) && Blanks(runes, w.end, start)
    ensures Windowed(runes, limit, chunks + [chunk], windows + [w], start)
  {
    assert (chunks + [chunk])[..|chunks|] == chunks && (windows + [w])[..|windows|] == windows;
  }

  /** One pass of the loop; a window starts with a visible character, so its chunk is never empty. */
  method CutWindow(runes: string, start: nat, limit: nat) returns (chunk: string, split: nat)
    requires limit > 0 && start < |runes| && !IsSpace(runes[start])
    ensures IsWindow(runes, limit, Window(start, split), chunk) && GoodChunk(chunk, limit)
    ensures Solid(chunk) == Solid(runes[start..split])
  {
    var end := start + limit;
    split := |runes|;
    if end < |runes| { split := FindSplit(runes, start, limit); }
    chunk := TrimSpace(runes[start..split]);
    TrimKeepsText(runes[start..split]);
    TrimShortens(runes[start..split]);
    SolidTrim(runes[start..split]);
  }

  /**
   * Every chunk is non-empty, trimmed and within the limit, and the chunks in
   * order carry exactly the text's characters other than white space.  A text
   * over the limit is cut into these windows.
   */
  method SplitLongText(input: string, limit: nat) returns (chunks: seq<string>, ghost windows: seq<Window>)
    requires limit > 0
    ensures GoodChunks(chunks, limit)
    ensures |TrimSpace(input)| > limit ==> Windowed(TrimSpace(input), limit, chunks, windows, |TrimSpace(input)|)
    ensures SolidAll(chunks) == Solid(input)
    ensures |TrimSpace(input)| <= limit ==> chunks == if TrimSpace(input) == [] then [] else [TrimSpace(input)]
  {
    var runes := TrimSpace(input);
    SolidTrim(input);
    TrimShortens(input);
    windows := [];
    if runes == [] { return [], []; }
    if |runes| <= limit {
      SolidAllOne(runes);
      return [runes], [];
    }
    chunks := [];
    var start := 0;
    assert runes[0..] == runes;
    while start < |runes|
      invariant Carries(chunks, runes, start, input) && (start < |runes| ==> !IsSpace(runes[start]))
      invariant GoodChunks(chunks, limit)
      invariant Windowed(runes, limit, chunks, windows, start)
    {
      var chunk, split := CutWindow(runes, start, limit);
      ChunkAdded(chunks, chunk, runes, start, split, input);
      GoodPush(chunks, chunk, limit);
      var next := SkipSpaces(runes, split);
      WindowAdded(runes, limit, chunks, windows, Window(start, split), chunk, next);
      windows := windows + [Window(start, split)];
      chunks := chunks + [chunk];
      start := next;
    }
    assert runes[start..] == [];
  }
}
