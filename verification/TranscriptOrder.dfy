/**
 * Which chunk lengths let mergeTranscriptions (internal/media/sttchunk.go) put
 * the beginning of one chunk's words before the beginning of the chunk before it.
 */
module TranscriptOrder {
  import TagNames
  import opened Transcripts

  /** Where the words of part i begin in the merged text. */
  ghost function StartOf(parts: seq<seq<string>>, i: nat, norm: string -> string): int
    requires i < |parts|
  {
    EndOf(parts, i, norm) - |parts[i]|
  }

  ghost predicate BeginInOrder(parts: seq<seq<string>>, i: nat, norm: string -> string)
    requires 0 < i < |parts|
  {
    StartOf(parts, i - 1, norm) <= StartOf(parts, i, norm)
  }

  /** lens lists the word counts of the parts. */
  ghost predicate Counts(parts: seq<seq<string>>, lens: seq<nat>) {
    |parts| == |lens| && forall j | 0 <= j < |lens| :: |parts[j]| == lens[j]
  }

  ghost function SumTo(lens: seq<nat>, n: nat): nat
    requires n <= |lens|
  {
    if n == 0 then 0 else SumTo(lens, n - 1) + lens[n - 1]
  }

  /**
   * Part i has room for an overlap that is longer than the part before it: at
   * least four words, and no more than part i or all the words before it hold.
   */
  ghost predicate RoomToOvertake(lens: seq<nat>, i: nat)
    requires 0 < i < |lens|
  {
    var least := if lens[i - 1] + 1 < MIN_OVERLAP_WORDS then MIN_OVERLAP_WORDS else lens[i - 1] + 1;
    least <= lens[i] && least <= SumTo(lens, i)
  }

  // ------------------------------------------------------- no room, no overtaking

  lemma {:induction false} StepBounded(parts: seq<seq<string>>, i: nat, before: seq<string>, norm: string -> string)
    requires i < |parts| && before == Merged(parts, i, norm)
    ensures |Merged(parts, i + 1, norm)| <= |before| + |parts[i]|
  {
    StepDropsOverlap(parts, i, before, Overlap(before, parts[i], norm), norm);
  }

  lemma {:induction false} MergedBounded(parts: seq<seq<string>>, lens: seq<nat>, n: nat, norm: string -> string)
    requires Counts(parts, lens) && n <= |lens|
    ensures |Merged(parts, n, norm)| <= SumTo(lens, n)
  {
    if n == 0 {
      assert Merged(parts, 0, norm) == [];
    } else {
      var m, size := n - 1, |Merged(parts, n - 1, norm)|;
      assert size <= SumTo(lens, m) by { MergedBounded(parts, lens, m, norm); }
      assert |Merged(parts, m + 1, norm)| <= size + |parts[m]| by { StepBounded(parts, m, Merged(parts, m, norm), norm); }
    }
  }

  lemma {:induction false} NoRoomNoOvertaking(parts: seq<seq<string>>, lens: seq<nat>, i: nat, norm: string -> string)
    requires 0 < i < |lens| && Counts(parts, lens) && !RoomToOvertake(lens, i)
    ensures BeginInOrder(parts, i, norm)
  {
    var before := Merged(parts, i, norm);
    var k := Overlap(before, parts[i], norm);
    assert |before| <= SumTo(lens, i) by { MergedBounded(parts, lens, i, norm); }
    assert k <= lens[i - 1];
    BlocksBeginInOrderIff(parts, i, norm);
  }

  // ------------------------------------------------ room enough, and texts that use it

  /** The word of n + 1 letters. */
  function Letters(n: nat): string {
    seq(n + 1, _ => 'a')
  }

  /** Normalisation tells words of different length in one letter apart. */
  ghost predicate TellsApart(norm: string -> string) {
    forall m: nat, n: nat | m != n :: norm(Letters(m)) != norm(Letters(n))
  }

  /** n words in a row, none like another. */
  ghost predicate IsRun(ws: seq<string>, from: nat, n: nat) {
    |ws| == n && forall t | 0 <= t < n :: ws[t] == Letters(from + t)
  }

  /** A run that goes on where the words before it end repeats none of them. */
  lemma {:induction false} NextRunIsNew(before: seq<string>, next: seq<string>, s: nat, n: nat, norm: string -> string)
    requires TellsApart(norm) && IsRun(before, 0, s) && IsRun(next, s, n)
    ensures IsOverlap(before, next, 0, norm) && IsRun(before + next[0..], 0, s + n)
  {
    forall m: nat | m >= MIN_OVERLAP_WORDS ensures !Repeats(before, next, m, norm) {
      if m <= s && m <= n {
        assert norm(before[s - m + 0]) != norm(next[0]);
      }
    }
  }

  /** A run that begins k words before the end repeats those k; it cannot repeat more than there are. */
  lemma {:induction false} RunRepeats(before: seq<string>, next: seq<string>, s: nat, n: nat, k: nat, norm: string -> string)
    requires MIN_OVERLAP_WORDS <= k <= s && k <= n && (k == s || k == n) && IsRun(before, 0, s) && IsRun(next, s - k, n)
    ensures IsOverlap(before, next, k, norm)
  {
    forall j | 0 <= j < k ensures norm(before[|before| - k + j]) == norm(next[j]) {
      assert before[s - k + j] == Letters(0 + (s - k + j)) && next[j] == Letters(s - k + j);
    }
  }

  function Smaller(a: nat, b: nat): nat {
    if a < b then a else b
  }

  /** Before part i every word is new; part i repeats as many of the words before it as it can. */
  ghost function RunFrom(lens: seq<nat>, i: nat, j: nat): nat
    requires 0 < i < |lens| && j < |lens|
  {
    if j < i then SumTo(lens, j)
    else if j == i then SumTo(lens, i) - Smaller(SumTo(lens, i), lens[i])
    else 0
  }

  lemma {:induction false} RunIsAdded(parts: seq<seq<string>>, m: nat, s: nat, n: nat, norm: string -> string)
    requires m < |parts| && TellsApart(norm) && IsRun(Merged(parts, m, norm), 0, s) && IsRun(parts[m], s, n)
    ensures IsRun(Merged(parts, m + 1, norm), 0, s + n)
  {
    var before := Merged(parts, m, norm);
    NextRunIsNew(before, parts[m], s, n, norm);
    StepDropsOverlap(parts, m, before, 0, norm);
  }

  function Run(from: nat, n: nat): seq<string> {
    seq(n, t requires 0 <= t < n => Letters(from + t))
  }

  lemma {:induction false} LettersAreWord(n: nat)
    ensures TagNames.Word(Letters(n))
  {
    forall i | 0 <= i < |Letters(n)| ensures !TagNames.IsSpace(Letters(n)[i]) {
      assert Letters(n)[i] == 'a';
    }
  }

  lemma {:induction false} RunComesBack(from: nat, n: nat)
    ensures IsRun(TagNames.Fields(TagNames.Join(Run(from, n))), from, n)
  {
    var ws := Run(from, n);
    assert TagNames.Words(ws) by {
      forall t | 0 <= t < |ws| ensures TagNames.Word(ws[t]) { LettersAreWord(from + t); }
    }
    TagNames.FieldsOfJoin(ws);
  }

  /** Texts whose words are those runs. */
  ghost function OvertakingTexts(lens: seq<nat>, i: nat): seq<string>
    requires 0 < i < |lens|
  {
    seq(|lens|, j requires 0 <= j < |lens| => TagNames.Join(Run(RunFrom(lens, i, j), lens[j])))
  }

  lemma {:induction false} PartIsRun(parts: seq<seq<string>>, lens: seq<nat>, i: nat, j: nat)
    requires 0 < i < |lens| && j < |lens| && parts == WordLists(OvertakingTexts(lens, i))
    ensures IsRun(parts[j], RunFrom(lens, i, j), lens[j])
  {
    RunComesBack(RunFrom(lens, i, j), lens[j]);
  }

  lemma {:induction false} RunsMerge(parts: seq<seq<string>>, lens: seq<nat>, i: nat, n: nat, norm: string -> string)
    requires 0 < i < |lens| && n <= i && TellsApart(norm) && parts == WordLists(OvertakingTexts(lens, i))
    ensures IsRun(Merged(parts, n, norm), 0, SumTo(lens, n))
  {
    if n > 0 {
      var m, s, len := n - 1, SumTo(lens, n - 1), lens[n - 1];
      assert IsRun(parts[m], s, len) by { PartIsRun(parts, lens, i, m); }
      assert IsRun(Merged(parts, m, norm), 0, s) by { RunsMerge(parts, lens, i, m, norm); }
      RunIsAdded(parts, m, s, len, norm);
    }
  }

  lemma {:induction false} RoomIsUsed(parts: seq<seq<string>>, lens: seq<nat>, i: nat, norm: string -> string)
    requires 0 < i < |lens| && TellsApart(norm) && RoomToOvertake(lens, i) && parts == WordLists(OvertakingTexts(lens, i))
    ensures !BeginInOrder(parts, i, norm)
  {
    var s, n, before := SumTo(lens, i), lens[i], Merged(parts, i, norm);
    var k := Smaller(s, n);
    RunsMerge(parts, lens, i, i, norm);
    PartIsRun(parts, lens, i, i - 1);
    PartIsRun(parts, lens, i, i);
    RunRepeats(before, parts[i], s, n, k, norm);
    OneOverlap(before, parts[i], k, Overlap(before, parts[i], norm), norm);
    BlocksBeginInOrderIff(parts, i, norm);
  }

  /**
   * Whether part i can begin before the part that comes before it is decided by
   * the word counts alone: for every list of texts with these counts the two
   * begin in order, exactly when an overlap longer than the earlier part has no
   * room.
   */
  lemma {:induction false} CountsDecideOrder(lens: seq<nat>, i: nat, norm: string -> string)
    requires 0 < i < |lens| && TellsApart(norm)
    ensures (forall texts: seq<string> | Counts(WordLists(texts), lens) :: BeginInOrder(WordLists(texts), i, norm))
       <==> !RoomToOvertake(lens, i)
  {
    if RoomToOvertake(lens, i) {
      var texts := OvertakingTexts(lens, i);
      forall j | 0 <= j < |lens| ensures |WordLists(texts)[j]| == lens[j] { PartIsRun(WordLists(texts), lens, i, j); }
      assert Counts(WordLists(texts), lens);
      RoomIsUsed(WordLists(texts), lens, i, norm);
    } else {
      forall texts: seq<string> | Counts(WordLists(texts), lens) ensures BeginInOrder(WordLists(texts), i, norm) {
        NoRoomNoOvertaking(WordLists(texts), lens, i, norm);
      }
    }
  }
}
