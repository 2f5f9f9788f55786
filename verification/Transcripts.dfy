/** Chunked transcription: audio windows and merging of transcripts (internal/media/sttchunk.go). */
module Transcripts {
  import TagNames

  // -------------------------------------------------------------------- windows

  const CHUNK := 30.0
  const OVERLAP := 3.0
  const MIN_OVERLAP_WORDS := 4

  datatype Window = Window(start: real, length: real)

  function End(w: Window): real {
    w.start + w.length
  }

  function Min(a: real, b: real): real {
    if a < b then a else b
  }

  function Max(a: real, b: real): real {
    if a > b then a else b
  }

  /** Neighbouring windows overlap by three seconds, or by what is left of the file. */
  ghost predicate Linked(ws: seq<Window>, duration: real) {
    forall i | 0 < i < |ws| ::
      ws[i - 1].start < ws[i].start && End(ws[i - 1]) - ws[i].start == Min(OVERLAP, duration - ws[i].start)
  }

  ghost predicate Covers(ws: seq<Window>, x: real) {
    exists i :: 0 <= i < |ws| && ws[i].start <= x < End(ws[i])
  }

  /** A chain of linked windows from zero leaves no gap. */
  lemma {:induction false} NoGap(ws: seq<Window>, duration: real, x: real)
    requires ws != [] && ws[0].start == 0.0 && Linked(ws, duration)
    requires forall i | 0 <= i < |ws| :: ws[i].start < duration
    requires 0.0 <= x < End(ws[|ws| - 1])
    ensures Covers(ws, x)
  {
    var n := |ws| - 1;
    if x < ws[n].start {
      NoGap(ws[..n], duration, x);
      var i :| 0 <= i < n && ws[..n][i].start <= x < End(ws[..n][i]);
      assert ws[i].start <= x < End(ws[i]);
    }
  }

  /** Exactly the moments of the file are covered, neighbours overlap as asked, no window is too long. */
  method ChunkWindows(duration: real) returns (wins: seq<Window>)
    ensures wins != [] && wins[0].start == 0.0 && Linked(wins, duration)
    ensures forall x :: Covers(wins, x) <==> 0.0 <= x < duration
    ensures duration <= 30.0 ==> wins == [Window(0.0, if duration > 0.0 then duration else 0.0)]
    ensures duration > 30.0 ==>
      && 27.0 * (|wins| - 1) as real < duration <= 27.0 * |wins| as real
      && forall i | 0 <= i < |wins| ::
           wins[i] == Window(27.0 * i as real, if duration - 27.0 * i as real > 30.0 then 30.0 else duration - 27.0 * i as real)
  {
    if duration <= CHUNK {
      wins := [Window(0.0, Max(0.0, duration))];
      forall x | 0.0 <= x < duration ensures Covers(wins, x) { assert wins[0].start <= x < End(wins[0]); }
      return;
    }
    var step := CHUNK - OVERLAP;
    wins := [];
    var start := 0.0;
    while start < duration
      invariant start == 27.0 * |wins| as real
      invariant forall i | 0 <= i < |wins| ::
        wins[i].start == 27.0 * i as real && wins[i].start < duration && wins[i].length == Min(CHUNK, duration - wins[i].start)
      decreases duration - start
    {
      wins := wins + [Window(start, Min(CHUNK, duration - start))];
      start := start + step;
    }
    assert wins[|wins| - 1].start < duration;
    StepsCover(wins, duration);
  }

  /** Windows every 27 seconds, clamped to the file, cover it. */
  lemma {:induction false} StepsCover(wins: seq<Window>, duration: real)
    requires wins != [] && 27.0 * |wins| as real >= duration
    requires forall i | 0 <= i < |wins| ::
      wins[i].start == 27.0 * i as real && wins[i].start < duration && wins[i].length == Min(CHUNK, duration - wins[i].start)
    ensures Linked(wins, duration) && forall x :: Covers(wins, x) <==> 0.0 <= x < duration
  {
    forall i | 0 < i < |wins|
      ensures wins[i - 1].start < wins[i].start && End(wins[i - 1]) - wins[i].start == Min(OVERLAP, duration - wins[i].start)
    {
      assert wins[i].start == wins[i - 1].start + 27.0;
    }
    forall x | 0.0 <= x < duration ensures Covers(wins, x) { NoGap(wins, duration, x); }
  }

  // -------------------------------------------------------------------- merging

  /** The last k words before are the first k words after, up to normalisation. */
  ghost predicate Repeats(prev: seq<string>, next: seq<string>, k: nat, norm: string -> string) {
    k <= |prev| && k <= |next| && forall j | 0 <= j < k :: norm(prev[|prev| - k + j]) == norm(next[j])
  }

  /** k is the overlap to drop: the largest of at least four words, or none. */
  ghost predicate IsOverlap(prev: seq<string>, next: seq<string>, k: nat, norm: string -> string) {
    && Repeats(prev, next, k, norm)
    && (k == 0 || k >= 4)
    && forall m: nat | m > k && m >= 4 :: !Repeats(prev, next, m, norm)
  }

  /** The largest overlap of at most k words. */
  ghost function OverlapUpTo(prev: seq<string>, next: seq<string>, k: nat, norm: string -> string): (m: nat)
    requires k <= |prev| && k <= |next|
    ensures m <= k && Repeats(prev, next, m, norm) && (m == 0 || m >= MIN_OVERLAP_WORDS)
    ensures forall j: nat | m < j <= k && j >= MIN_OVERLAP_WORDS :: !Repeats(prev, next, j, norm)
    decreases k
  {
    if k < MIN_OVERLAP_WORDS then 0 else if Repeats(prev, next, k, norm) then k else OverlapUpTo(prev, next, k - 1, norm)
  }

  ghost function Overlap(prev: seq<string>, next: seq<string>, norm: string -> string): (k: nat)
    ensures IsOverlap(prev, next, k, norm)
  {
    OverlapUpTo(prev, next, if |next| < |prev| then |next| else |prev|, norm)
  }

  lemma {:induction false} OneOverlap(prev: seq<string>, next: seq<string>, j: nat, k: nat, norm: string -> string)
    requires IsOverlap(prev, next, j, norm) && IsOverlap(prev, next, k, norm)
    ensures j == k
  {
  }

  method MergeOverlap(prev: seq<string>, next: seq<string>, norm: string -> string) returns (k: nat)
    ensures IsOverlap(prev, next, k, norm) && k == Overlap(prev, next, norm)
  {
    k := if |next| < |prev| then |next| else |prev|;
    while k >= MIN_OVERLAP_WORDS
      invariant k <= |prev| && k <= |next|
      invariant forall m: nat | m > k && m >= MIN_OVERLAP_WORDS :: !Repeats(prev, next, m, norm)
    {
      var match_, j := true, 0;
      while j < k
        invariant 0 <= j <= k && match_
        invariant forall i | 0 <= i < j :: norm(prev[|prev| - k + i]) == norm(next[i])
      {
        if norm(prev[|prev| - k + j]) != norm(next[j]) {
          match_ := false;
          break;
        }
        j := j + 1;
      }
      if match_ {
        OneOverlap(prev, next, k, Overlap(prev, next, norm), norm);
        return;
      }
      k := k - 1;
    }
    k := 0;
    OneOverlap(prev, next, k, Overlap(prev, next, norm), norm);
  }

  /** The first n transcripts merged: each adds what does not repeat the words before it. */
  ghost function Merged(parts: seq<seq<string>>, n: nat, norm: string -> string): seq<string>
    requires n <= |parts|
  {
    if n == 0 then []
    else
      var before := Merged(parts, n - 1, norm);
      before + parts[n - 1][Overlap(before, parts[n - 1], norm)..]
  }

  /** strings.Fields of each transcript. */
  function WordLists(texts: seq<string>): seq<seq<string>> {
    seq(|texts|, i requires 0 <= i < |texts| => TagNames.Fields(texts[i]))
  }

  /** One pass of the loop; the first part has nothing before it and so loses nothing. */
  method MergeNext(words: seq<string>, nextWords: seq<string>, first: bool, norm: string -> string) returns (more: seq<string>)
    requires first ==> words == []
    ensures more == words + nextWords[Overlap(words, nextWords, norm)..]
  {
    var k := 0;
    if !first {
      k := MergeOverlap(words, nextWords, norm);
    }
    assert k == Overlap(words, nextWords, norm);
    more := words + nextWords[k..];
  }

  /** mergeTranscriptions: split each transcript into words, merge, and join with spaces. */
  method MergeTranscriptions(texts: seq<string>, norm: string -> string) returns (text: string)
    ensures text == TagNames.Join(Merged(WordLists(texts), |texts|, norm))
    ensures TagNames.Fields(text) == Merged(WordLists(texts), |texts|, norm)
  {
    var words: seq<string> := [];
    ghost var parts := WordLists(texts);
    var i := 0;
    while i < |texts|
      invariant 0 <= i <= |texts| && words == Merged(parts, i, norm)
    {
      words := MergeNext(words, TagNames.Fields(texts[i]), i == 0, norm);
      i := i + 1;
    }
    MergedAreWords(texts, |texts|, norm);
    TagNames.FieldsOfJoin(words);
    text := TagNames.Join(words);
  }

  lemma {:induction false} StepAreWords(parts: seq<seq<string>>, i: nat, before: seq<string>, norm: string -> string)
    requires i < |parts| && before == Merged(parts, i, norm) && TagNames.Words(before) && TagNames.Words(parts[i])
    ensures TagNames.Words(Merged(parts, i + 1, norm))
  {
    WordsJoin(before, parts[i], Overlap(before, parts[i], norm));
  }

  /** The merged words survive being joined and split again. */
  lemma {:induction false} MergedAreWords(texts: seq<string>, n: nat, norm: string -> string)
    requires n <= |texts|
    ensures TagNames.Words(Merged(WordLists(texts), n, norm))
  {
    if n > 0 {
      var m, parts := n - 1, WordLists(texts);
      var before, next := Merged(parts, m, norm), parts[m];
      assert TagNames.Words(before) by { MergedAreWords(texts, m, norm); }
      assert TagNames.Words(next) by { TagNames.FieldsAreWords(texts[m]); }
      StepAreWords(parts, m, before, norm);
    }
  }

  lemma {:induction false} WordsJoin(a: seq<string>, b: seq<string>, k: nat)
    requires TagNames.Words(a) && TagNames.Words(b) && k <= |b|
    ensures TagNames.Words(a + b[k..])
  {
    var all := a + b[k..];
    forall i | 0 <= i < |all| ensures TagNames.Word(all[i]) {
      assert all[i] == if i < |a| then a[i] else b[k + i - |a|];
    }
  }

  /** A step drops the one overlap there is, and only that. */
  lemma {:induction false} StepDropsOverlap(parts: seq<seq<string>>, i: nat, before: seq<string>, k: nat, norm: string -> string)
    requires i < |parts| && before == Merged(parts, i, norm) && IsOverlap(before, parts[i], k, norm)
    ensures Merged(parts, i + 1, norm) == before + parts[i][k..]
  {
  }

  lemma {:induction false} StepGrows(parts: seq<seq<string>>, i: nat, norm: string -> string)
    requires i < |parts|
    ensures Merged(parts, i, norm) <= Merged(parts, i + 1, norm)
  {
    var before := Merged(parts, i, norm);
    StepDropsOverlap(parts, i, before, Overlap(before, parts[i], norm), norm);
  }

  lemma {:induction false} PrefixChain(a: seq<string>, b: seq<string>, c: seq<string>)
    requires a <= b && b <= c
    ensures a <= c
  {
  }

  /** Words once merged stay where they are. */
  lemma {:induction false} MergedGrows(parts: seq<seq<string>>, i: nat, n: nat, norm: string -> string)
    requires i <= n <= |parts|
    ensures Merged(parts, i, norm) <= Merged(parts, n, norm)
    decreases n - i
  {
    var a, c := Merged(parts, i, norm), Merged(parts, n, norm);
    if i == n {
      assert a == c;
    } else {
      var b := Merged(parts, i + 1, norm);
      assert a <= b by { StepGrows(parts, i, norm); }
      assert b <= c by { MergedGrows(parts, i + 1, n, norm); }
      PrefixChain(a, b, c);
    }
  }

  /** Two word lists equal up to normalisation. */
  ghost predicate SameWords(a: seq<string>, b: seq<string>, norm: string -> string) {
    |a| == |b| && forall j | 0 <= j < |a| :: norm(a[j]) == norm(b[j])
  }

  /** A part ends at position `end` of the words. */
  ghost predicate StandsAt(part: seq<string>, words: seq<string>, end: nat, norm: string -> string) {
    |part| <= end <= |words| && SameWords(words[end - |part|..end], part, norm)
  }

  lemma {:induction false} OverlapCompletes(before: seq<string>, part: seq<string>, k: nat, words: seq<string>, norm: string -> string)
    requires IsOverlap(before, part, k, norm) && before + part[k..] <= words
    ensures StandsAt(part, words, |before + part[k..]|, norm)
  {
    var after := before + part[k..];
    var block := words[|after| - |part|..|after|];
    forall j | 0 <= j < |part| ensures norm(block[j]) == norm(part[j]) {
      assert block[j] == after[|before| - k + j];
      if j < k {
        assert block[j] == before[|before| - k + j];
      } else {
        assert block[j] == part[k..][j - k];
      }
    }
  }

  /** Where part i ends in the merged text. */
  ghost function EndOf(parts: seq<seq<string>>, i: nat, norm: string -> string): nat
    requires i < |parts|
  {
    |Merged(parts, i + 1, norm)|
  }

  /**
   * Every part stands in the merged text as one contiguous block, up to
   * normalisation, and the blocks end in order.
   */
  lemma {:induction false} EveryPartSurvives(parts: seq<seq<string>>, i: nat, norm: string -> string)
    requires i < |parts|
    ensures StandsAt(parts[i], Merged(parts, |parts|, norm), EndOf(parts, i, norm), norm)
    ensures i > 0 ==> EndOf(parts, i - 1, norm) <= EndOf(parts, i, norm)
    ensures i == |parts| - 1 ==> EndOf(parts, i, norm) == |Merged(parts, |parts|, norm)|
  {
    var before := Merged(parts, i, norm);
    var k := Overlap(before, parts[i], norm);
    StepDropsOverlap(parts, i, before, k, norm);
    MergedGrows(parts, i + 1, |parts|, norm);
    OverlapCompletes(before, parts[i], k, Merged(parts, |parts|, norm), norm);
  }

  /**
   * The blocks also begin in order exactly when no overlap dropped is longer
   * than the part before it.
   */
  lemma {:induction false} BlocksBeginInOrderIff(parts: seq<seq<string>>, i: nat, norm: string -> string)
    requires 0 < i < |parts|
    ensures EndOf(parts, i - 1, norm) - |parts[i - 1]| <= EndOf(parts, i, norm) - |parts[i]|
       <==> Overlap(Merged(parts, i, norm), parts[i], norm) <= |parts[i - 1]|
  {
    var before := Merged(parts, i, norm);
    StepDropsOverlap(parts, i, before, Overlap(before, parts[i], norm), norm);
  }

  /** Three parts of which the third repeats more than the second one. */
  lemma {:induction false} Overtakes(a: seq<string>, b: seq<string>, c: seq<string>, k: nat, norm: string -> string)
    requires IsOverlap([], a, 0, norm) && IsOverlap(a, b, 0, norm) && IsOverlap(a + b, c, k, norm) && k > |b|
    ensures EndOf([a, b, c], 2, norm) - |c| < EndOf([a, b, c], 1, norm) - |b|
  {
    var parts := [a, b, c];
    StepDropsOverlap(parts, 0, [], 0, norm);
    StepDropsOverlap(parts, 1, a, 0, norm);
    BlocksBeginInOrderIff(parts, 2, norm);
  }

  /** They can begin out of order: a short part is followed by one that repeats it and what came before. */
  lemma {:induction false} ShortPartIsOvertaken()
    ensures var parts, id := [["a", "b", "c", "d"], ["e"], ["b", "c", "d", "e", "f"]], (w: string) => w;
      EndOf(parts, 2, id) - |parts[2]| < EndOf(parts, 1, id) - |parts[1]|
  {
    var id := (w: string) => w;
    var a, b, c := ["a", "b", "c", "d"], ["e"], ["b", "c", "d", "e", "f"];
    assert !Repeats(a + b, c, 5, id) by { assert (a + b)[0] != c[0]; }
    Overtakes(a, b, c, 4, id);
  }
}
