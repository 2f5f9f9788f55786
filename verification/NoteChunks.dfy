/** From a note to the chunks that are embedded (internal/searchindex/searchindex.go). */
module NoteChunks {
  import Prelude
  import opened TagNames
  import opened TextSplit

  datatype Field = Title | Path | Tags | Body

  datatype Chunk = Chunk(field: Field, ordinal: nat, text: string)

  datatype Document = Document(note: int, title: string, body: string, segments: seq<string>, tags: seq<string>)

  // ------------------------------------------------------------------ paragraphs

  /** strings.ReplaceAll(s, "\r\n", "\n"). */
  function ReplaceCrLf(s: string): string {
    if s == [] then []
    else if |s| > 1 && s[0] == '\r' && s[1] == '\n' then ['\n'] + ReplaceCrLf(s[2..])
    else [s[0]] + ReplaceCrLf(s[1..])
  }

  function ReplaceCr(s: string): string {
    if s == [] then [] else [if s[0] == '\r' then '\n' else s[0]] + ReplaceCr(s[1..])
  }

  function UnixLines(s: string): string {
    ReplaceCr(ReplaceCrLf(s))
  }

  /** The text with its line breaks written as `eol`. */
  function WithEol(s: string, eol: string): string {
    if s == [] then [] else (if s[0] == '\n' then eol else [s[0]]) + WithEol(s[1..], eol)
  }

  lemma {:induction false} CrLfUndone(s: string)
    requires '\r' !in s
    ensures ReplaceCrLf(WithEol(s, "\r\n")) == s
  {
    if s != [] {
      var rest := WithEol(s[1..], "\r\n");
      CrLfUndone(s[1..]);
      if s[0] == '\n' {
        assert ("\r\n" + rest)[2..] == rest;
      } else {
        assert ([s[0]] + rest)[1..] == rest;
      }
    }
  }

  lemma {:induction false} NothingToReplace(s: string)
    ensures '\n' !in s || '\r' !in s ==> ReplaceCrLf(s) == s
    ensures '\r' !in s ==> ReplaceCr(s) == s
  {
    if s != [] { NothingToReplace(s[1..]); }
  }

  lemma {:induction false} CrUndone(s: string)
    requires '\r' !in s
    ensures '\n' !in WithEol(s, "\r") && ReplaceCr(WithEol(s, "\r")) == s
  {
    if s != [] {
      CrUndone(s[1..]);
      assert WithEol(s, "\r")[1..] == WithEol(s[1..], "\r");
    }
  }

  lemma {:induction false} LfStays(s: string)
    ensures WithEol(s, "\n") == s
  {
    if s != [] { LfStays(s[1..]); }
  }

  /** The paragraphs of a note do not depend on the line ending it was written with. */
  lemma {:induction false} AnyLineEnding(s: string, eol: string)
    requires '\r' !in s && eol in ["\n", "\r\n", "\r"]
    ensures UnixLines(WithEol(s, eol)) == s && ParagraphsOf(WithEol(s, eol)) == ParagraphsOf(s)
  {
    NothingToReplace(s);
    LfStays(s);
    if eol == "\r\n" {
      CrLfUndone(s);
    } else if eol == "\r" {
      CrUndone(s);
      NothingToReplace(WithEol(s, eol));
    }
  }

  /** strings.Index(s, "\n\n"), or the length when there is none. */
  function BlankLine(s: string): (i: nat)
    ensures i <= |s| && (i < |s| ==> i + 1 < |s| && s[i] == '\n' && s[i + 1] == '\n')
    ensures forall k | 0 <= k < i && k + 1 < |s| :: !(s[k] == '\n' && s[k + 1] == '\n')
  {
    if |s| < 2 then |s| else if s[0] == '\n' && s[1] == '\n' then 0 else 1 + BlankLine(s[1..])
  }

  /** The pieces found so far, then those of s. */
  function SplitFrom(pieces: seq<string>, s: string): seq<string>
    decreases |s|
  {
    var i := BlankLine(s);
    if i == |s| then pieces + [s] else SplitFrom(pieces + [s[..i]], s[i + 2..])
  }

  /** strings.Split(s, "\n\n"). */
  function SplitBlank(s: string): seq<string> {
    SplitFrom([], s)
  }

  /** strings.Join of the first n parts. */
  function JoinUpTo(sep: string, parts: seq<string>, n: nat): string
    requires n <= |parts|
  {
    if n == 0 then [] else if n == 1 then parts[0] else JoinUpTo(sep, parts, n - 1) + (sep + parts[n - 1])
  }

  function JoinBy(sep: string, parts: seq<string>): string {
    JoinUpTo(sep, parts, |parts|)
  }

  /** The non-blank pieces among the first n, trimmed. */
  function Paragraphs(parts: seq<string>, n: nat): seq<string>
    requires n <= |parts|
  {
    if n == 0 then []
    else
      var before, p := Paragraphs(parts, n - 1), TrimSpace(parts[n - 1]);
      if p == "" then before else before + [p]
  }

  lemma {:induction false} SolidReplaceCrLf(s: string)
    ensures Solid(ReplaceCrLf(s)) == Solid(s)
    decreases |s|
  {
    if |s| > 1 && s[0] == '\r' && s[1] == '\n' {
      SolidReplaceCrLf(s[2..]);
      assert Solid(s) == Visible(s[0]) + Solid(s[1..]);
      assert s[1..][1..] == s[2..];
      assert Solid(s[1..]) == Visible(s[1]) + Solid(s[2..]);
    } else if s != [] {
      SolidReplaceCrLf(s[1..]);
    }
  }

  lemma {:induction false} SolidReplaceCr(s: string)
    ensures Solid(ReplaceCr(s)) == Solid(s) && '\r' !in ReplaceCr(s)
  {
    if s != [] {
      SolidReplaceCr(s[1..]);
    }
  }

  lemma {:induction false} SolidGap(head: string, gap: string, rest: string)
    requires forall k | 0 <= k < |gap| :: IsSpace(gap[k])
    ensures Solid(head + (gap + rest)) == Solid(head) + Solid(rest)
  {
    SolidJoin(head, gap + rest);
    SolidJoin(gap, rest);
    SolidBlank(gap);
  }

  lemma {:induction false} SolidAroundGap(s: string, i: nat)
    requires i + 1 < |s| && s[i] == '\n' && s[i + 1] == '\n'
    ensures Solid(s) == Solid(s[..i]) + Solid(s[i + 2..])
  {
    SolidGap(s[..i], "\n\n", s[i + 2..]);
    assert s == s[..i] + ("\n\n" + s[i + 2..]);
  }

  /** Splitting at blank lines loses no visible character. */
  lemma {:induction false} SolidSplitFrom(pieces: seq<string>, s: string)
    ensures SolidAll(SplitFrom(pieces, s)) == SolidAll(pieces) + Solid(s)
    decreases |s|
  {
    var i := BlankLine(s);
    if i == |s| {
      SolidAllPush(pieces, s);
    } else {
      SolidSplitFrom(pieces + [s[..i]], s[i + 2..]);
      SolidAllPush(pieces, s[..i]);
      SolidAroundGap(s, i);
      Regroup(SolidAll(pieces), Solid(s[..i]), Solid(s[i + 2..]));
    }
  }

  lemma {:induction false} BeforeBlankLine(s: string)
    ensures var i := BlankLine(s); BlankLine(s[..i]) == i && (0 < i < |s| ==> s[i - 1] != '\n')
  {
    var i := BlankLine(s);
    var j := BlankLine(s[..i]);
    if j < i { assert false; }
    if 0 < i < |s| && s[i - 1] == '\n' { assert false; }
  }

  /** A piece holds no blank line, and only the last may end in a line break: each cut is made as early as can be. */
  ghost predicate Piece(p: string, last: bool) {
    BlankLine(p) == |p| && (!last && p != [] ==> p[|p| - 1] != '\n')
  }

  ghost predicate Inner(pieces: seq<string>) {
    forall k | 0 <= k < |pieces| :: Piece(pieces[k], false)
  }

  ghost predicate Blocks(pieces: seq<string>) {
    pieces != [] && forall k | 0 <= k < |pieces| :: Piece(pieces[k], k == |pieces| - 1)
  }

  lemma {:induction false} PiecesAreBlocks(pieces: seq<string>, s: string)
    requires Inner(pieces)
    ensures Blocks(SplitFrom(pieces, s))
    decreases |s|
  {
    var i := BlankLine(s);
    if i == |s| {
    } else {
      BeforeBlankLine(s);
      PiecesAreBlocks(pieces + [s[..i]], s[i + 2..]);
    }
  }

  lemma {:induction false} JoinPrefix(sep: string, parts: seq<string>, p: string, n: nat)
    requires n <= |parts|
    ensures JoinUpTo(sep, parts + [p], n) == JoinUpTo(sep, parts, n)
  {
    if n > 1 { JoinPrefix(sep, parts, p, n - 1); }
  }

  lemma {:induction false} JoinPush(sep: string, parts: seq<string>, p: string)
    ensures JoinBy(sep, parts + [p]) == JoinBy(sep, parts) + ((if parts == [] then [] else sep) + p)
  {
    JoinPrefix(sep, parts, p, |parts|);
  }

  lemma {:induction false} MoveHead(whole: string, before: string, gap: string, sep: string, head: string, rest: string, s: string)
    requires whole == before + (gap + s) && s == head + (sep + rest)
    ensures whole == before + (gap + head) + (sep + rest)
  {
  }

  /** Joining the pieces again gives the text. */
  lemma {:induction false} PiecesRejoin(pieces: seq<string>, s: string, sep: string, whole: string)
    requires sep == "\n\n" && whole == JoinBy(sep, pieces) + ((if pieces == [] then [] else sep) + s)
    ensures JoinBy(sep, SplitFrom(pieces, s)) == whole
    decreases |s|
  {
    var i := BlankLine(s);
    if i == |s| {
      JoinPush(sep, pieces, s);
    } else {
      var head, rest := s[..i], s[i + 2..];
      assert s == head + (sep + rest);
      MoveHead(whole, JoinBy(sep, pieces), if pieces == [] then [] else sep, sep, head, rest, s);
      JoinPush(sep, pieces, head);
      PiecesRejoin(pieces + [head], rest, sep, whole);
    }
  }

  /**
   * The pieces are the text cut at blank lines: joined they give it back, none
   * holds a blank line, and each cut is as early as can be.
   */
  lemma {:induction false} SplitIsExact(s: string)
    ensures JoinBy("\n\n", SplitBlank(s)) == s && Blocks(SplitBlank(s))
  {
    PiecesRejoin([], s, "\n\n", s);
    PiecesAreBlocks([], s);
  }

  ghost predicate NonBlank(ps: seq<string>) {
    forall k | 0 <= k < |ps| :: ps[k] != [] && Trimmed(ps[k])
  }

  lemma {:induction false} NonBlankPush(ps: seq<string>, p: string)
    requires NonBlank(ps) && p != [] && Trimmed(p)
    ensures NonBlank(ps + [p])
  {
  }

  /** One more piece, kept unless it is blank. */
  lemma {:induction false} PieceAdded(before: seq<string>, part: string, p: string)
    requires NonBlank(before) && p == TrimSpace(part)
    ensures var after := if p == "" then before else before + [p];
      NonBlank(after) && SolidAll(after) == SolidAll(before) + Solid(part)
  {
    SolidTrim(part);
    if p != "" {
      TrimShortens(part);
      SolidAllPush(before, p);
      NonBlankPush(before, p);
    }
  }

  lemma {:induction false} ParagraphsAreText(parts: seq<string>, n: nat)
    requires n <= |parts|
    ensures NonBlank(Paragraphs(parts, n)) && SolidAll(Paragraphs(parts, n)) == SolidUpTo(parts, n)
  {
    if n > 0 {
      ParagraphsAreText(parts, n - 1);
      PieceAdded(Paragraphs(parts, n - 1), parts[n - 1], TrimSpace(parts[n - 1]));
    }
  }

  /** The loop of splitParagraphs. */
  method TrimPieces(parts: seq<string>) returns (paragraphs: seq<string>)
    ensures paragraphs == Paragraphs(parts, |parts|)
  {
    paragraphs := [];
    var i := 0;
    while i < |parts|
      invariant 0 <= i <= |parts| && paragraphs == Paragraphs(parts, i)
    {
      var part := TrimSpace(parts[i]);
      if part != "" {
        paragraphs := paragraphs + [part];
      }
      i := i + 1;
    }
  }

  ghost function ParagraphsOf(body: string): seq<string> {
    var parts := SplitBlank(UnixLines(body));
    Paragraphs(parts, |parts|)
  }

  /** Paragraphs are the trimmed pieces between blank lines; no visible character is lost or moved. */
  method SplitParagraphs(body: string) returns (paragraphs: seq<string>)
    ensures paragraphs == ParagraphsOf(body) && SolidAll(paragraphs) == Solid(body) && NonBlank(paragraphs)
  {
    var parts := SplitBlank(UnixLines(body));
    paragraphs := TrimPieces(parts);
    ParagraphsAreText(parts, |parts|);
    SolidReplaceCrLf(body);
    SolidReplaceCr(ReplaceCrLf(body));
    SolidSplitFrom([], UnixLines(body));
  }

  // ---------------------------------------------------------------------- chunks

  function TrimAll(tags: seq<string>): seq<string> {
    seq(|tags|, i requires 0 <= i < |tags| => TrimSpace(tags[i]))
  }

  /** t is one of the tags without the white space around it. */
  ghost predicate BareTag(tags: seq<string>, t: string) {
    exists i :: 0 <= i < |tags| && Bare(tags[i], t)
  }

  lemma {:induction false} CleanedAre(tags: seq<string>, t: string)
    ensures t in FirstSeen(TrimAll(tags)) <==> t != "" && BareTag(tags, t)
  {
    var all := TrimAll(tags);
    FirstSeenIsComplete(all);
    assert t in FirstSeen(all) <==> t in Prelude.Elements(FirstSeen(all));
    assert t in all <==> t in Prelude.Elements(all);
    forall i | 0 <= i < |tags| ensures Bare(tags[i], t) <==> all[i] == t {
      TrimIsBare(tags[i]);
      if Bare(tags[i], t) { OneBare(tags[i], t, TrimSpace(tags[i])); }
    }
  }

  /** Each non-blank tag once, without the white space around it, in first-seen order. */
  method CleanTags(tags: seq<string>) returns (out: seq<string>)
    ensures out == FirstSeen(TrimAll(tags))
    ensures forall t :: t in out <==> t != "" && BareTag(tags, t)
  {
    forall t ensures t in FirstSeen(TrimAll(tags)) <==> t != "" && BareTag(tags, t) { CleanedAre(tags, t); }
    var seen: set<string> := {};
    out := [];
    ghost var all := TrimAll(tags);
    var i := 0;
    while i < |tags|
      invariant 0 <= i <= |tags| && out == FirstSeen(all[..i])
      invariant forall t :: t in seen <==> t in out
    {
      var tag := TrimSpace(tags[i]);
      FirstSeenPush(all, i);
      if tag != "" && tag !in seen {
        seen := seen + {tag};
        out := out + [tag];
      }
      i := i + 1;
    }
    assert all[..i] == all;
  }

  ghost function HeaderIf(field: Field, text: string, wanted: bool): seq<Chunk> {
    if text != "" && wanted then [Chunk(field, 0, text)] else []
  }

  /** Title, path and tags; `same` is strings.EqualFold. */
  ghost function Headers(doc: Document, same: (string, string) -> bool): seq<Chunk> {
    var title, path := TrimSpace(doc.title), TrimSpace(JoinBy(" / ", doc.segments));
    HeaderIf(Title, title, true)
    + HeaderIf(Path, path, !same(path, title))
    + HeaderIf(Tags, TrimSpace(Join(FirstSeen(TrimAll(doc.tags)))), true)
  }

  ghost predicate NumberedBody(chunks: seq<Chunk>, limit: nat) {
    forall i | 0 <= i < |chunks| :: chunks[i].field == Body && chunks[i].ordinal == i && GoodChunk(chunks[i].text, limit)
  }

  /** The texts of the first n chunks without their white space. */
  ghost function SolidChunks(chunks: seq<Chunk>, n: nat): string
    requires n <= |chunks|
  {
    if n == 0 then [] else SolidChunks(chunks, n - 1) + Solid(chunks[n - 1].text)
  }

  ghost predicate HasText(chunks: seq<Chunk>, text: string) {
    exists i :: 0 <= i < |chunks| && chunks[i].text == text
  }

  /** Numbered chunks within the limit that carry exactly the visible characters of the text, in order. */
  ghost predicate CarriesBody(body: seq<Chunk>, text: string, limit: nat) {
    NumberedBody(body, limit) && SolidChunks(body, |body|) == Solid(text)
  }

  /** The chunks of a document: its headers, then its body. */
  ghost predicate Represents(doc: Document, limit: nat, same: (string, string) -> bool, chunks: seq<Chunk>) {
    var headers := Headers(doc, same);
    headers <= chunks && CarriesBody(chunks[|headers|..], doc.body, limit)
  }

  lemma {:induction false} TrimmedStays(s: string)
    requires Trimmed(s)
    ensures TrimSpace(s) == s
  {
  }

  lemma {:induction false} SolidChunksPrefix(chunks: seq<Chunk>, c: Chunk, n: nat)
    requires n <= |chunks|
    ensures SolidChunks(chunks + [c], n) == SolidChunks(chunks, n)
  {
    if n > 0 { SolidChunksPrefix(chunks, c, n - 1); }
  }

  lemma {:induction false} BodyPush(body: seq<Chunk>, text: string, limit: nat, before: string, said: string)
    requires NumberedBody(body, limit) && GoodChunk(text, limit) && SolidChunks(body, |body|) == before + said
    ensures var more := body + [Chunk(Body, |body|, text)];
      NumberedBody(more, limit) && SolidChunks(more, |more|) == before + (said + Solid(text)) && HasText(more, text)
  {
    var more := body + [Chunk(Body, |body|, text)];
    SolidChunksPrefix(body, Chunk(Body, |body|, text), |body|);
    Regroup(before, said, Solid(text));
    assert more[|body|].text == text;
  }

  lemma {:induction false} TextStays(a: seq<Chunk>, b: seq<Chunk>, text: string)
    requires a <= b && HasText(a, text)
    ensures HasText(b, text)
  {
    var i :| 0 <= i < |a| && a[i].text == text;
    assert b[i].text == text;
  }

  /** Body chunks for the first n paragraphs; a paragraph within the limit is one chunk of its own. */
  ghost predicate Bodied(paragraphs: seq<string>, n: nat, body: seq<Chunk>, limit: nat) {
    && n <= |paragraphs| && NumberedBody(body, limit) && SolidChunks(body, |body|) == SolidUpTo(paragraphs, n)
    && forall k | 0 <= k < n && |paragraphs[k]| <= limit :: HasText(body, paragraphs[k])
  }

  /** `grown` is `body` with chunks for the first n of these texts. */
  ghost predicate Grown(body: seq<Chunk>, texts: seq<string>, n: nat, grown: seq<Chunk>, limit: nat) {
    && n <= |texts| && body <= grown && NumberedBody(grown, limit)
    && SolidChunks(grown, |grown|) == SolidChunks(body, |body|) + SolidUpTo(texts, n)
    && (n > 0 ==> HasText(grown, texts[0]))
  }

  lemma {:induction false} GrowNext(body: seq<Chunk>, texts: seq<string>, n: nat, grown: seq<Chunk>, limit: nat)
    requires n < |texts| && Grown(body, texts, n, grown, limit) && GoodChunks(texts, limit)
    ensures Grown(body, texts, n + 1, grown + [Chunk(Body, |grown|, texts[n])], limit)
  {
    BodyPush(grown, texts[n], limit, SolidChunks(body, |body|), SolidUpTo(texts, n));
    if n > 0 { TextStays(grown, grown + [Chunk(Body, |grown|, texts[n])], texts[0]); }
  }

  lemma {:induction false} ParagraphDone(paragraphs: seq<string>, n: nat, body: seq<Chunk>, texts: seq<string>, grown: seq<Chunk>, limit: nat)
    requires n < |paragraphs| && Bodied(paragraphs, n, body, limit) && Grown(body, texts, |texts|, grown, limit)
    requires SolidAll(texts) == Solid(paragraphs[n]) && (|paragraphs[n]| <= limit ==> texts == [paragraphs[n]])
    ensures Bodied(paragraphs, n + 1, grown, limit)
  {
    forall k | 0 <= k < n && |paragraphs[k]| <= limit ensures HasText(grown, paragraphs[k]) { TextStays(body, grown, paragraphs[k]); }
  }

  lemma {:induction false} AfterHeaders(chunks: seq<Chunk>, h: nat, grown: seq<Chunk>)
    requires h <= |chunks| && chunks[h..] <= grown
    ensures chunks <= chunks[..h] + grown && (chunks[..h] + grown)[h..] == grown
  {
    assert chunks == chunks[..h] + chunks[h..];
  }

  /** Number one paragraph's pieces; the first `h` chunks are headers. */
  method AddBodyChunks(chunks: seq<Chunk>, texts: seq<string>, first: nat, limit: nat, ghost h: nat)
    returns (more: seq<Chunk>, ordinal: nat)
    requires h + first == |chunks| && NumberedBody(chunks[h..], limit) && GoodChunks(texts, limit)
    ensures chunks <= more && ordinal == |more| - h && Grown(chunks[h..], texts, |texts|, more[h..], limit)
  {
    more, ordinal := chunks, first;
    ghost var head, body := chunks[..h], chunks[h..];
    ghost var grown := body;
    var i := 0;
    while i < |texts|
      invariant 0 <= i <= |texts| && ordinal == |grown| && more == head + grown && Grown(body, texts, i, grown, limit)
    {
      GrowNext(body, texts, i, grown, limit);
      more := more + [Chunk(Body, ordinal, texts[i])];
      grown := grown + [Chunk(Body, ordinal, texts[i])];
      ordinal := ordinal + 1;
      i := i + 1;
    }
    AfterHeaders(chunks, h, grown);
  }

  /** The pieces of one paragraph. */
  method SplitParagraph(paragraph: string, limit: nat) returns (texts: seq<string>)
    requires limit > 0 && paragraph != [] && Trimmed(paragraph)
    ensures GoodChunks(texts, limit) && SolidAll(texts) == Solid(paragraph) && (|paragraph| <= limit ==> texts == [paragraph])
  {
    TrimmedStays(paragraph);
    ghost var windows;
    texts, windows := SplitLongText(paragraph, limit);
  }

  method BodyChunks(headers: seq<Chunk>, paragraphs: seq<string>, limit: nat) returns (chunks: seq<Chunk>)
    requires limit > 0 && NonBlank(paragraphs)
    ensures headers <= chunks && Bodied(paragraphs, |paragraphs|, chunks[|headers|..], limit)
  {
    chunks := headers;
    assert chunks[|headers|..] == [];
    var ordinal := 0;
    var i := 0;
    while i < |paragraphs|
      invariant 0 <= i <= |paragraphs| && headers <= chunks && ordinal == |chunks| - |headers|
      invariant Bodied(paragraphs, i, chunks[|headers|..], limit)
    {
      var texts := SplitParagraph(paragraphs[i], limit);
      ghost var was := chunks[|headers|..];
      chunks, ordinal := AddBodyChunks(chunks, texts, ordinal, limit, |headers|);
      ParagraphDone(paragraphs, i, was, texts, chunks[|headers|..], limit);
      i := i + 1;
    }
  }

  /** Headers first, then the body, paragraph by paragraph. */
  method BuildChunks(doc: Document, limit: nat, same: (string, string) -> bool) returns (chunks: seq<Chunk>)
    requires limit > 0
    ensures Represents(doc, limit, same, chunks)
    ensures var paragraphs := ParagraphsOf(doc.body);
      Bodied(paragraphs, |paragraphs|, chunks[|Headers(doc, same)|..], limit)
  {
    var headers := HeaderChunks(doc, same);
    var paragraphs := SplitParagraphs(doc.body);
    chunks := BodyChunks(headers, paragraphs, limit);
  }

  method HeaderChunks(doc: Document, same: (string, string) -> bool) returns (chunks: seq<Chunk>)
    ensures chunks == Headers(doc, same)
  {
    chunks := [];
    var title := TrimSpace(doc.title);
    if title != "" { chunks := chunks + [Chunk(Title, 0, title)]; }
    var pathText := TrimSpace(JoinBy(" / ", doc.segments));
    if pathText != "" && !same(pathText, title) { chunks := chunks + [Chunk(Path, 0, pathText)]; }
    var tags := CleanTags(doc.tags);
    var tagText := TrimSpace(Join(tags));
    if tagText != "" { chunks := chunks + [Chunk(Tags, 0, tagText)]; }
  }

  function Rank(f: Field): nat {
    match f
    case Title => 0
    case Path => 1
    case Tags => 2
    case Body => 3
  }

  /** c carries its field of the document: the path only when `differs`. */
  ghost predicate Says(c: Chunk, title: string, path: string, differs: bool, tags: string) {
    && c.ordinal == 0 && c.text != ""
    && match c.field
       case Title => c.text == title
       case Path => c.text == path && differs
       case Tags => c.text == tags
       case Body => false
  }

  ghost predicate InOrder(h: seq<Chunk>) {
    forall i, j | 0 <= i < j < |h| :: Rank(h[i].field) < Rank(h[j].field)
  }

  lemma {:induction false} ThreeHeaders(title: string, path: string, differs: bool, tags: string, c: Chunk)
    ensures var h := HeaderIf(Title, title, true) + HeaderIf(Path, path, differs) + HeaderIf(Tags, tags, true);
      (c in h <==> Says(c, title, path, differs, tags)) && InOrder(h)
  {
    var a, b, d := HeaderIf(Title, title, true), HeaderIf(Path, path, differs), HeaderIf(Tags, tags, true);
    assert c in a + b + d <==> c in a || c in b || c in d;
  }

  /**
   * A header chunk carries its field of the document without the white space
   * around it, and each field has one unless that is blank; the path also has
   * none when it is the title in other letter case.  They come in this order.
   */
  lemma {:induction false} HeadersSay(doc: Document, same: (string, string) -> bool, title: string, path: string, tags: string, c: Chunk)
    requires Bare(doc.title, title) && Bare(JoinBy(" / ", doc.segments), path) && Bare(Join(FirstSeen(TrimAll(doc.tags))), tags)
    ensures c in Headers(doc, same) <==> Says(c, title, path, !same(path, title), tags)
    ensures InOrder(Headers(doc, same))
  {
    TrimmedIs(doc.title, title);
    TrimmedIs(JoinBy(" / ", doc.segments), path);
    TrimmedIs(Join(FirstSeen(TrimAll(doc.tags))), tags);
    ThreeHeaders(title, path, !same(path, title), tags, c);
  }

  lemma {:induction false} TrimmedIs(s: string, t: string)
    requires Bare(s, t)
    ensures TrimSpace(s) == t
  {
    TrimIsBare(s);
    OneBare(s, t, TrimSpace(s));
  }

  ghost predicate IsText(c: Chunk) {
    c.text != "" && TrimSpace(c.text) == c.text
  }

  lemma {:induction false} HeadersAreText(doc: Document, same: (string, string) -> bool, i: nat)
    requires i < |Headers(doc, same)|
    ensures IsText(Headers(doc, same)[i])
  {
    TrimShortens(doc.title);
    TrimShortens(JoinBy(" / ", doc.segments));
    TrimShortens(Join(FirstSeen(TrimAll(doc.tags))));
    TrimmedStays(Headers(doc, same)[i].text);
  }

  /** No chunk is blank, so none is skipped when embedding. */
  lemma {:induction false} ChunksAreText(doc: Document, limit: nat, same: (string, string) -> bool, chunks: seq<Chunk>)
    requires Represents(doc, limit, same, chunks)
    ensures forall i | 0 <= i < |chunks| :: IsText(chunks[i])
  {
    var h := |Headers(doc, same)|;
    forall i | 0 <= i < |chunks| ensures IsText(chunks[i]) {
      if i < h {
        HeadersAreText(doc, same, i);
        assert chunks[i] == Headers(doc, same)[i];
      } else {
        assert chunks[i] == chunks[h..][i - h];
        TrimmedStays(chunks[i].text);
      }
    }
  }
}
