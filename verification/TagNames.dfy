/** Tag name normalisation (internal/tags/tags.go), on strings of code points. */
module TagNames {
  import opened Prelude

  /** unicode.IsSpace: the White_Space property. */
  predicate IsSpace(c: char) {
    var k := c as int;
    || 9 <= k <= 13 || k == 0x20 || k == 0x85 || k == 0xA0 || k == 0x1680
    || 0x2000 <= k <= 0x200A || k == 0x2028 || k == 0x2029 || k == 0x202F || k == 0x205F || k == 0x3000
  }

  /** What unicode.ToLower guarantees and the rules below rely on. */
  ghost predicate CaseMap(lower: char -> char) {
    forall c ::
      && lower(lower(c)) == lower(c)
      && (IsSpace(c) ==> lower(c) == c) && (!IsSpace(c) ==> !IsSpace(lower(c)))
      && (lower(c) == '#' <==> c == '#')
  }

  function TrimLeft(s: string): string {
    if s != [] && IsSpace(s[0]) then TrimLeft(s[1..]) else s
  }

  function TrimRight(s: string): string {
    if s != [] && IsSpace(s[|s| - 1]) then TrimRight(s[..|s| - 1]) else s
  }

  function TrimSpace(s: string): string {
    TrimRight(TrimLeft(s))
  }

  function StripHashes(s: string): string
    decreases |s|
  {
    if s != [] && s[0] == '#' then TrimShortens(s[1..]); StripHashes(TrimSpace(s[1..])) else s
  }

  function WordLength(s: string): (n: nat)
    ensures n <= |s| && (forall i | 0 <= i < n :: !IsSpace(s[i])) && (n < |s| ==> IsSpace(s[n]))
  {
    if s == [] || IsSpace(s[0]) then 0 else 1 + WordLength(s[1..])
  }

  /** strings.Fields. */
  function Fields(s: string): seq<string>
    decreases |s|
  {
    TrimLeftShape(s);
    var t := TrimLeft(s);
    if t == [] then [] else [t[..WordLength(t)]] + Fields(t[WordLength(t)..])
  }

  /** strings.Join(words, " "). */
  function Join(words: seq<string>): string {
    if words == [] then [] else if |words| == 1 then words[0] else words[0] + " " + Join(words[1..])
  }

  function Lower(s: string, lower: char -> char): string {
    seq(|s|, i requires 0 <= i < |s| => lower(s[i]))
  }

  function Normalize(name: string, lower: char -> char): string {
    var bare := StripHashes(TrimSpace(name));
    if bare == "" then "" else TrimSpace(Lower(Join(Fields(bare)), lower))
  }

  // --------------------------------------------------------------------- facts

  lemma {:induction false} TrimLeftShape(s: string)
    ensures |TrimLeft(s)| <= |s| && (TrimLeft(s) != [] ==> !IsSpace(TrimLeft(s)[0]))
    ensures TrimLeft(s) == s[|s| - |TrimLeft(s)|..]
    decreases |s|
  {
    if s != [] && IsSpace(s[0]) { TrimLeftShape(s[1..]); }
  }

  lemma {:induction false} TrimRightShape(s: string)
    ensures |TrimRight(s)| <= |s| && TrimRight(s) == s[..|TrimRight(s)|]
    ensures TrimRight(s) != [] ==> !IsSpace(TrimRight(s)[|TrimRight(s)| - 1])
    ensures s != [] && !IsSpace(s[0]) ==> TrimRight(s) != []
    decreases |s|
  {
    if s != [] && IsSpace(s[|s| - 1]) { TrimRightShape(s[..|s| - 1]); }
  }

  lemma {:induction false} TrimLeftDrops(s: string)
    ensures |TrimLeft(s)| <= |s| && forall k | 0 <= k < |s| - |TrimLeft(s)| :: IsSpace(s[k])
    decreases |s|
  {
    if s != [] && IsSpace(s[0]) {
      TrimLeftDrops(s[1..]);
      forall k | 0 <= k < |s| - |TrimLeft(s)| ensures IsSpace(s[k]) {
        if k > 0 { assert s[k] == s[1..][k - 1]; }
      }
    }
  }

  lemma {:induction false} TrimRightDrops(s: string)
    ensures |TrimRight(s)| <= |s| && forall k | |TrimRight(s)| <= k < |s| :: IsSpace(s[k])
    decreases |s|
  {
    if s != [] && IsSpace(s[|s| - 1]) {
      TrimRightDrops(s[..|s| - 1]);
    }
  }

  ghost predicate Trimmed(s: string) {
    s != [] ==> !IsSpace(s[0]) && !IsSpace(s[|s| - 1])
  }

  lemma {:induction false} TrimShortens(s: string)
    ensures |TrimSpace(s)| <= |s| && Trimmed(TrimSpace(s))
  {
    TrimLeftShape(s);
    TrimRightShape(TrimLeft(s));
  }

  /** t is s without white space around it: nothing else was taken off, and no more is left to take. */
  ghost predicate Bare(s: string, t: string) {
    exists i, j :: BareAt(s, t, i, j)
  }

  ghost predicate BareAt(s: string, t: string, i: int, j: int) {
    0 <= i <= j <= |s| && t == s[i..j] && Trimmed(t) && SpaceOutside(s, i, j)
  }

  ghost predicate SpaceOutside(s: string, i: int, j: int) {
    forall k | 0 <= k < |s| && (k < i || k >= j) :: IsSpace(s[k])
  }

  lemma {:induction false} TrimIsBare(s: string)
    ensures Bare(s, TrimSpace(s))
  {
    var l := TrimLeft(s);
    TrimLeftShape(s);
    TrimLeftDrops(s);
    TrimRightShape(l);
    TrimRightDrops(l);
    TrimShortens(s);
    BothEnds(s, |s| - |l|, l, |TrimSpace(s)|, TrimSpace(s));
  }

  lemma {:induction false} BothEnds(s: string, i: nat, l: string, n: nat, t: string)
    requires i <= |s| && l == s[i..] && n <= |l| && t == l[..n] && Trimmed(t)
    requires (forall k | 0 <= k < i :: IsSpace(s[k])) && forall k | n <= k < |l| :: IsSpace(l[k])
    ensures Bare(s, t)
  {
    forall k | i + n <= k < |s| ensures IsSpace(s[k]) { assert s[k] == l[k - i]; }
    assert t == s[i..i + n];
    assert SpaceOutside(s, i, i + n);
    assert BareAt(s, t, i, i + n);
  }

  /** There is only one way to trim. */
  lemma {:induction false} OneBare(s: string, t: string, u: string)
    requires Bare(s, t) && Bare(s, u)
    ensures t == u
  {
    var i, j :| BareAt(s, t, i, j);
    var k, l :| BareAt(s, u, k, l);
    if t != [] {
      assert !IsSpace(s[i]) by { assert t[0] == s[i]; }
      assert !IsSpace(s[j - 1]) by { assert t[|t| - 1] == s[j - 1]; }
    }
    if u != [] {
      assert !IsSpace(s[k]) by { assert u[0] == s[k]; }
      assert !IsSpace(s[l - 1]) by { assert u[|u| - 1] == s[l - 1]; }
    }
  }

  lemma {:induction false} StripShape(s: string)
    requires Trimmed(s)
    ensures Trimmed(StripHashes(s)) && (StripHashes(s) != [] ==> StripHashes(s)[0] != '#')
    decreases |s|
  {
    if s != [] && s[0] == '#' {
      TrimShortens(s[1..]);
      StripShape(TrimSpace(s[1..]));
    }
  }

  ghost predicate Word(w: string) {
    w != [] && forall i | 0 <= i < |w| :: !IsSpace(w[i])
  }

  ghost predicate Words(ws: seq<string>) {
    forall i | 0 <= i < |ws| :: Word(ws[i])
  }

  lemma {:induction false} FirstWord(t: string)
    requires t != [] && !IsSpace(t[0])
    ensures Word(t[..WordLength(t)]) && t[..WordLength(t)][0] == t[0]
  {
  }

  lemma {:induction false} WordsCons(w: string, ws: seq<string>)
    requires Word(w) && Words(ws)
    ensures Words([w] + ws)
  {
  }

  lemma {:induction false} FieldsAreWords(s: string)
    ensures Words(Fields(s))
    decreases |s|
  {
    TrimLeftShape(s);
    var t := TrimLeft(s);
    if t != [] {
      var n := WordLength(t);
      FirstWord(t);
      FieldsAreWords(t[n..]);
      WordsCons(t[..n], Fields(t[n..]));
    }
  }

  lemma {:induction false} FirstField(s: string)
    requires s != [] && !IsSpace(s[0])
    ensures Fields(s) != [] && Fields(s)[0] != [] && Fields(s)[0][0] == s[0]
  {
    assert TrimLeft(s) == s;
    FirstWord(s);
  }

  lemma {:induction false} JoinShape(ws: seq<string>)
    requires Words(ws)
    ensures Trimmed(Join(ws)) && (ws != [] ==> Join(ws) != [] && Join(ws)[0] == ws[0][0])
    decreases |ws|
  {
    if |ws| > 1 { JoinShape(ws[1..]); }
  }

  lemma {:induction false} WordThenSpace(w: string, rest: string)
    requires forall i | 0 <= i < |w| :: !IsSpace(w[i])
    requires rest != [] ==> IsSpace(rest[0])
    ensures WordLength(w + rest) == |w|
    decreases |w|
  {
    if w == [] {
      assert w + rest == rest;
    } else {
      assert (w + rest)[1..] == w[1..] + rest;
      WordThenSpace(w[1..], rest);
    }
  }

  lemma {:induction false} FieldsOfJoin(ws: seq<string>)
    requires Words(ws)
    ensures Fields(Join(ws)) == ws
    decreases |ws|
  {
    if ws != [] {
      var s := Join(ws);
      JoinShape(ws);
      var rest := if |ws| == 1 then "" else " " + Join(ws[1..]);
      assert s == ws[0] + rest;
      WordThenSpace(ws[0], rest);
      assert TrimLeft(s) == s;
      assert s[..|ws[0]|] == ws[0] && s[|ws[0]|..] == rest;
      FieldsOfJoin(ws[1..]);
      if |ws| > 1 {
        SkipSpace(Join(ws[1..]));
      }
    }
  }

  lemma {:induction false} SkipSpace(s: string)
    ensures Fields(" " + s) == Fields(s)
  {
    assert (" " + s)[1..] == s;
    assert TrimLeft(" " + s) == TrimLeft(s);
  }

  function LowerAll(ws: seq<string>, lower: char -> char): seq<string> {
    seq(|ws|, i requires 0 <= i < |ws| => Lower(ws[i], lower))
  }

  lemma {:induction false} LowerOfJoin(ws: seq<string>, lower: char -> char)
    requires CaseMap(lower)
    ensures Lower(Join(ws), lower) == Join(LowerAll(ws, lower))
    decreases |ws|
  {
    if |ws| > 1 {
      LowerOfJoin(ws[1..], lower);
      assert LowerAll(ws, lower)[1..] == LowerAll(ws[1..], lower);
      assert IsSpace(' ') && lower(' ') == ' ';
      assert Lower(ws[0] + " " + Join(ws[1..]), lower) == Lower(ws[0], lower) + " " + Lower(Join(ws[1..]), lower);
    } else if |ws| == 1 {
      assert LowerAll(ws, lower)[0] == Lower(ws[0], lower);
    }
  }

  lemma {:induction false} LowerAllShape(ws: seq<string>, lower: char -> char)
    requires CaseMap(lower) && Words(ws)
    ensures Words(LowerAll(ws, lower)) && LowerAll(LowerAll(ws, lower), lower) == LowerAll(ws, lower)
  {
    var ls := LowerAll(ws, lower);
    forall i | 0 <= i < |ws| ensures Word(ls[i]) && Lower(ls[i], lower) == ls[i] {
      assert Word(ws[i]);
    }
  }

  // -------------------------------------------------------------- main results

  /** The words of the bare name, lower-cased. */
  function CanonicalWords(name: string, lower: char -> char): seq<string> {
    LowerAll(Fields(StripHashes(TrimSpace(name))), lower)
  }

  /**
   * The form of a stored name: its words in lower case joined by single blanks,
   * with no blank around them and no # in front.
   */
  lemma {:induction false} NormalForm(name: string, lower: char -> char)
    requires CaseMap(lower)
    ensures var ws := CanonicalWords(name, lower); var r := Normalize(name, lower);
      && r == Join(ws) && Words(ws) && LowerAll(ws, lower) == ws
      && Trimmed(r) && (r != "" ==> r[0] != '#')
      && (r == "" <==> ws == [])
  {
    TrimShortens(name);
    StripShape(TrimSpace(name));
    var bare := StripHashes(TrimSpace(name));
    var fs := Fields(bare);
    FieldsAreWords(bare);
    if bare != "" { FirstField(bare); }
    LowerAllShape(fs, lower);
    var ws := LowerAll(fs, lower);
    LowerOfJoin(fs, lower);
    JoinShape(ws);
    assert TrimSpace(Join(ws)) == Join(ws);
    if bare != "" {
      assert ws[0] == Lower(fs[0], lower);
      assert Word(fs[0]);
      assert ws[0][0] == lower(bare[0]);
    }
  }

  /** Normalising a normalised name changes nothing. */
  lemma {:induction false} NormalizeIdempotent(name: string, lower: char -> char)
    requires CaseMap(lower)
    ensures Normalize(Normalize(name, lower), lower) == Normalize(name, lower)
  {
    NormalForm(name, lower);
    var ws := CanonicalWords(name, lower);
    var r := Normalize(name, lower);
    assert TrimSpace(r) == r && StripHashes(r) == r;
    FieldsOfJoin(ws);
    NormalForm(r, lower);
  }

  // ---------------------------------------------------------------- operations

  method NormalizeName(name: string, lower: char -> char) returns (r: string)
    requires CaseMap(lower)
    ensures r == Normalize(name, lower)
    ensures Normalize(r, lower) == r
  {
    NormalizeIdempotent(name, lower);
    r := TrimSpace(name);
    while r != [] && r[0] == '#'
      invariant StripHashes(r) == StripHashes(TrimSpace(name))
      decreases |r|
    {
      TrimShortens(r[1..]);
      r := TrimSpace(r[1..]);
    }
    if r == "" {
      return "";
    }
    r := Join(Fields(r));
    r := Lower(r, lower);
    r := TrimSpace(r);
  }

  ghost function NormalizeAll(names: seq<string>, lower: char -> char): seq<string> {
    seq(|names|, i requires 0 <= i < |names| => Normalize(names[i], lower))
  }

  ghost function FirstSeen(xs: seq<string>): seq<string> {
    if xs == [] then [] else
    var before, x := FirstSeen(xs[..|xs| - 1]), xs[|xs| - 1];
    if x == "" || x in before then before else before + [x]
  }

  /** The result lists exactly the non-blank names, each once. */
  lemma {:induction false} FirstSeenIsComplete(xs: seq<string>)
    ensures NoDup(FirstSeen(xs)) && Elements(FirstSeen(xs)) == Elements(xs) - {""}
    decreases |xs|
  {
    if xs != [] {
      var n := |xs| - 1;
      FirstSeenIsComplete(xs[..n]);
      assert xs == xs[..n] + [xs[n]];
      assert Elements(xs) == Elements(xs[..n]) + {xs[n]};
      var before := FirstSeen(xs[..n]);
      assert xs[n] in before <==> xs[n] in Elements(before);
      assert Elements(before + [xs[n]]) == Elements(before) + {xs[n]};
    }
  }

  /** First-seen order: later names only add to the end of the result. */
  lemma {:induction false} FirstSeenIsStable(xs: seq<string>, more: seq<string>)
    ensures FirstSeen(xs) <= FirstSeen(xs + more)
    decreases |more|
  {
    if more == [] {
      assert xs + more == xs;
    } else {
      var n := |more| - 1;
      FirstSeenIsStable(xs, more[..n]);
      assert (xs + more)[..|xs| + n] == xs + more[..n];
    }
  }

  lemma {:induction false} FirstSeenPush(xs: seq<string>, n: nat)
    requires n < |xs|
    ensures FirstSeen(xs[..n + 1]) ==
      if xs[n] == "" || xs[n] in FirstSeen(xs[..n]) then FirstSeen(xs[..n]) else FirstSeen(xs[..n]) + [xs[n]]
  {
    assert xs[..n + 1][..n] == xs[..n];
  }

  /** x is what one of the names is normalised to. */
  ghost predicate NormalizedFrom(names: seq<string>, lower: char -> char, x: string) {
    exists i :: 0 <= i < |names| && x == Normalize(names[i], lower)
  }

  lemma {:induction false} NormalizedAre(names: seq<string>, lower: char -> char, x: string)
    ensures x in FirstSeen(NormalizeAll(names, lower)) <==> x != "" && NormalizedFrom(names, lower, x)
  {
    var all := NormalizeAll(names, lower);
    FirstSeenIsComplete(all);
    assert x in FirstSeen(all) <==> x in Elements(FirstSeen(all));
    assert x in all <==> x in Elements(all);
    forall i | 0 <= i < |names| ensures all[i] == Normalize(names[i], lower) {}
  }

  method NormalizeNames(names: seq<string>, lower: char -> char) returns (out: seq<string>)
    requires CaseMap(lower)
    ensures out == FirstSeen(NormalizeAll(names, lower))
    ensures forall x :: x in out <==> x != "" && NormalizedFrom(names, lower, x)
  {
    forall x ensures x in FirstSeen(NormalizeAll(names, lower)) <==> x != "" && NormalizedFrom(names, lower, x) {
      NormalizedAre(names, lower, x);
    }
    ghost var all := NormalizeAll(names, lower);
    out := [];
    var seen: set<string> := {};
    for n := 0 to |names|
      invariant out == FirstSeen(all[..n]) && forall x :: x in seen <==> x in out
    {
      var normalized := NormalizeName(names[n], lower);
      FirstSeenPush(all, n);
      if normalized == "" || normalized in seen {
        continue;
      }
      seen := seen + {normalized};
      out := out + [normalized];
    }
    assert all[..|names|] == all;
  }
}
