/**
 * What normalisation keeps of a tag name (internal/tags/tags.go): every visible
 * character after the leading hashes, and where words are apart.
 */
module TagMeaning {
  import opened TagNames

  /** A visible character, and whether white space stands before it. */
  datatype Mark = Mark(c: char, gap: bool)

  /** The visible characters of s in order, read after a text that ends with white space or not. */
  function Marks(s: string, gap: bool): seq<Mark> {
    if s == [] then []
    else if IsSpace(s[0]) then Marks(s[1..], true)
    else [Mark(s[0], gap)] + Marks(s[1..], false)
  }

  function LowerMarks(ms: seq<Mark>, lower: char -> char): seq<Mark> {
    seq(|ms|, i requires 0 <= i < |ms| => Mark(lower(ms[i].c), ms[i].gap))
  }

  /** How many characters stand in front: hashes and white space in any order. */
  function Lead(s: string): (n: nat)
    ensures n <= |s|
  {
    if s != [] && (s[0] == '#' || IsSpace(s[0])) then 1 + Lead(s[1..]) else 0
  }

  // --------------------------------------------------------------------- reading

  function GapAfter(s: string, gap: bool): bool {
    if s == [] then gap else IsSpace(s[|s| - 1])
  }

  lemma {:induction false} MarksJoin(a: string, b: string, gap: bool)
    ensures Marks(a + b, gap) == Marks(a, gap) + Marks(b, GapAfter(a, gap))
    decreases |a|
  {
    if a == [] {
      assert a + b == b;
    } else {
      assert (a + b)[1..] == a[1..] + b;
      MarksJoin(a[1..], b, IsSpace(a[0]));
    }
  }

  lemma {:induction false} NoMarks(s: string, gap: bool)
    requires forall i | 0 <= i < |s| :: IsSpace(s[i])
    ensures Marks(s, gap) == []
    decreases |s|
  {
    if s != [] { NoMarks(s[1..], true); }
  }

  lemma {:induction false} MarksTrimRight(s: string, gap: bool)
    ensures Marks(TrimRight(s), gap) == Marks(s, gap)
  {
    var t := TrimRight(s);
    TrimRightShape(s);
    TrimRightDrops(s);
    assert s == t + s[|t|..];
    MarksJoin(t, s[|t|..], gap);
    NoMarks(s[|t|..], GapAfter(t, gap));
  }

  // -------------------------------------------------------------------- the lead

  /** What follows the lead. */
  function Rest(s: string): string {
    s[Lead(s)..]
  }

  lemma {:induction false} RestStarts(s: string)
    ensures Rest(s) == [] || (Rest(s)[0] != '#' && !IsSpace(Rest(s)[0]))
  {
    if s != [] && (s[0] == '#' || IsSpace(s[0])) {
      RestStarts(s[1..]);
      assert Rest(s) == Rest(s[1..]);
    }
  }

  lemma {:induction false} RestTrimLeft(s: string)
    ensures Rest(TrimLeft(s)) == Rest(s)
    decreases |s|
  {
    if s != [] && IsSpace(s[0]) {
      RestTrimLeft(s[1..]);
      assert Rest(s) == Rest(s[1..]);
    }
  }

  /** Cutting white space off the end does not change what the rest reads as. */
  lemma {:induction false} RestTrimRight(s: string)
    ensures Marks(Rest(TrimRight(s)), false) == Marks(Rest(s), false)
    decreases |s|
  {
    var t := TrimRight(s);
    TrimRightShape(s);
    TrimRightDrops(s);
    LeadOfPrefix(s, |t|);
    if Lead(s) <= |t| {
      assert Rest(s) == Rest(t) + s[|t|..];
      MarksJoin(Rest(t), s[|t|..], false);
      NoMarks(s[|t|..], GapAfter(Rest(t), false));
    } else {
      NoMarks(Rest(s), false);
    }
  }

  lemma {:induction false} LeadOfPrefix(s: string, n: nat)
    requires n <= |s|
    ensures Lead(s[..n]) == if Lead(s) <= n then Lead(s) else n
  {
    if n > 0 && (s[0] == '#' || IsSpace(s[0])) {
      LeadOfPrefix(s[1..], n - 1);
      assert s[..n][1..] == s[1..][..n - 1];
    }
  }

  lemma {:induction false} RestTrim(s: string)
    ensures Marks(Rest(TrimSpace(s)), false) == Marks(Rest(s), false)
  {
    RestTrimLeft(s);
    RestTrimRight(TrimLeft(s));
  }

  /** The loop that strips hashes leaves what follows the lead. */
  lemma {:induction false} StrippedReads(s: string)
    requires Trimmed(s)
    ensures Marks(StripHashes(s), false) == Marks(Rest(s), false)
    decreases |s|
  {
    if s != [] && s[0] == '#' {
      var t := TrimSpace(s[1..]);
      TrimShortens(s[1..]);
      StrippedReads(t);
      RestTrim(s[1..]);
      assert Rest(s) == Rest(s[1..]);
    }
  }

  // ------------------------------------------------------------------------ words

  lemma {:induction false} JoinCons(w: string, ws: seq<string>)
    ensures Join([w] + ws) == if ws == [] then w else w + " " + Join(ws)
  {
    assert ([w] + ws)[1..] == ws;
  }

  lemma {:induction false} MarksTrimLeft(s: string)
    ensures Marks(TrimLeft(s), true) == Marks(s, true)
    decreases |s|
  {
    if s != [] && IsSpace(s[0]) { MarksTrimLeft(s[1..]); }
  }

  /** One word, a blank and the rest. */
  lemma {:induction false} WordReads(w: string, joined: string, gap: bool)
    requires Word(w)
    ensures Marks(w + " " + joined, gap) == Marks(w, gap) + Marks(joined, true)
  {
    assert w + " " + joined == w + (" " + joined) && (" " + joined)[1..] == joined;
    MarksJoin(w, " " + joined, gap);
  }

  /** Joined fields read as the text did, apart from white space in front. */
  lemma {:induction false} JoinedReads(s: string, gap: bool)
    ensures Marks(Join(Fields(s)), gap) == Marks(TrimLeft(s), gap)
    decreases |s|
  {
    TrimLeftShape(s);
    var t := TrimLeft(s);
    if t != [] {
      var n := WordLength(t);
      var w, r := t[..n], t[n..];
      var rest := Fields(r);
      assert Word(w) && t == w + r;
      JoinCons(w, rest);
      assert Marks(t, gap) == Marks(w, gap) + Marks(r, false) by { MarksJoin(w, r, gap); }
      RestReads(r);
      if rest != [] {
        assert Marks(Join(rest), true) == Marks(TrimLeft(r), true) by { JoinedReads(r, true); }
        WordReads(w, Join(rest), gap);
      }
    }
  }

  lemma {:induction false} RestReads(r: string)
    requires r == [] || IsSpace(r[0])
    ensures Marks(r, false) == Marks(TrimLeft(r), true)
    ensures Fields(r) == [] ==> Marks(r, false) == []
  {
    if r != [] {
      MarksTrimLeft(r[1..]);
      assert TrimLeft(r) == TrimLeft(r[1..]);
    }
    TrimLeftShape(r);
  }

  lemma {:induction false} LoweredReads(s: string, gap: bool, lower: char -> char)
    requires CaseMap(lower)
    ensures Marks(Lower(s, lower), gap) == LowerMarks(Marks(s, gap), lower)
    decreases |s|
  {
    if s != [] {
      LoweredReads(s[1..], IsSpace(s[0]), lower);
      assert Lower(s, lower)[1..] == Lower(s[1..], lower);
      assert IsSpace(lower(s[0])) <==> IsSpace(s[0]);
    }
  }

  // ------------------------------------------------------------------ the main result

  /**
   * Nothing visible is lost, added or moved: after the leading hashes and blanks
   * the normalised name has the same characters in lower case, and two
   * neighbours stand apart exactly where white space stood between them.
   */
  lemma {:induction false} NormalizedReads(name: string, lower: char -> char)
    requires CaseMap(lower)
    ensures Marks(Normalize(name, lower), false) == LowerMarks(Marks(name[Lead(name)..], false), lower)
  {
    var trimmed := TrimSpace(name);
    var bare := StripHashes(trimmed);
    TrimShortens(name);
    StrippedReads(trimmed);
    RestTrim(name);
    assert Marks(bare, false) == Marks(Rest(name), false);
    if bare != "" {
      StripShape(trimmed);
      JoinedReads(bare, false);
      assert TrimLeft(bare) == bare;
      var joined := Join(Fields(bare));
      LoweredReads(joined, false, lower);
      FieldsAreWords(bare);
      JoinShape(Fields(bare));
      LoweredTrimmed(joined, lower);
    }
  }

  lemma {:induction false} LoweredTrimmed(s: string, lower: char -> char)
    requires CaseMap(lower) && Trimmed(s)
    ensures TrimSpace(Lower(s, lower)) == Lower(s, lower)
  {
    var l := Lower(s, lower);
    if s != [] {
      assert IsSpace(lower(s[0])) <==> IsSpace(s[0]);
      assert IsSpace(lower(s[|s| - 1])) <==> IsSpace(s[|s| - 1]);
      assert TrimLeft(l) == l && TrimRight(l) == l;
    }
  }

  /** No white space around s, and inside only single blanks. */
  ghost predicate SingleBlanks(s: string) {
    Trimmed(s) && forall i | 0 <= i < |s| && IsSpace(s[i]) :: s[i] == ' ' && !IsSpace(s[i + 1])
  }

  lemma {:induction false} JoinBlanks(ws: seq<string>)
    requires Words(ws)
    ensures SingleBlanks(Join(ws))
    decreases |ws|
  {
    JoinShape(ws);
    if |ws| > 1 {
      var w, joined := ws[0], Join(ws[1..]);
      JoinBlanks(ws[1..]);
      JoinShape(ws[1..]);
      var s := w + " " + joined;
      forall i | 0 <= i < |s| && IsSpace(s[i]) ensures s[i] == ' ' && !IsSpace(s[i + 1]) {
        if i > |w| { assert s[i] == joined[i - |w| - 1] && s[i + 1] == joined[i - |w|]; }
      }
    }
  }

  lemma {:induction false} NormalizedBlanks(name: string, lower: char -> char)
    requires CaseMap(lower)
    ensures SingleBlanks(Normalize(name, lower))
  {
    NormalForm(name, lower);
    JoinBlanks(CanonicalWords(name, lower));
  }

  /** With single blanks only, a text is what it reads as: these two facts determine the normalised name. */
  lemma {:induction false} OneReading(a: string, b: string)
    requires SingleBlanks(a) && SingleBlanks(b) && Marks(a, false) == Marks(b, false)
    ensures a == b
  {
    if a != [] && b != [] {
      OneTail(a, b, false);
    }
  }

  /** The texts from a visible character on. */
  lemma {:induction false} OneTail(a: string, b: string, gap: bool)
    requires SingleBlanks(a) && SingleBlanks(b) && a != [] && b != [] && Marks(a, gap) == Marks(b, gap)
    ensures a == b
    decreases |a|
  {
    var x, y := a[1..], b[1..];
    assert Marks(a, gap)[0] == Mark(a[0], gap) && Marks(b, gap)[0] == Mark(b[0], gap);
    assert Marks(x, false) == Marks(a, gap)[1..] && Marks(y, false) == Marks(b, gap)[1..];
    TailBlanks(a);
    TailBlanks(b);
    if x != [] && y != [] {
      if IsSpace(x[0]) {
        assert Marks(x, false) == Marks(x[1..], true) && Marks(x[1..], true)[0].gap;
        if IsSpace(y[0]) { OneTail(x[1..], y[1..], true); }
      } else if !IsSpace(y[0]) {
        OneTail(x, y, false);
      }
    }
  }

  /** After a visible character: nothing, or one blank and a text again, or a text. */
  lemma {:induction false} TailBlanks(a: string)
    requires SingleBlanks(a) && a != []
    ensures a[1..] != [] && IsSpace(a[1]) ==> a[1] == ' ' && a[2..] != [] && SingleBlanks(a[2..]) && Marks(a[1..], false) != []
    ensures a[1..] != [] && !IsSpace(a[1]) ==> SingleBlanks(a[1..]) && Marks(a[1..], false)[0] == Mark(a[1], false)
  {
  }
}
