/** The line splitter of the streaming search client (frontend/src/api.js), on decoded text. */
module SearchStream {

  /** String.prototype.trim, whatever it takes for white space. */
  type Trim = string -> string

  /** Blank lines are skipped, others are handed on trimmed. */
  function Event(trim: Trim, line: string): seq<string> {
    if trim(line) == "" then [] else [trim(line)]
  }

  /** Reading one character at a time: the events so far and the line begun. */
  datatype Reader = Reader(events: seq<string>, line: string)

  function Feed(trim: Trim, r: Reader, c: char): Reader {
    if c == '\n' then Reader(r.events + Event(trim, r.line), "") else Reader(r.events, r.line + [c])
  }

  function FeedAll(trim: Trim, r: Reader, text: string): Reader {
    if text == "" then r else Feed(trim, FeedAll(trim, r, text[..|text| - 1]), text[|text| - 1])
  }

  /** The events of a whole response; the last line needs no newline. */
  function Dispatched(trim: Trim, text: string): seq<string> {
    var r := FeedAll(trim, Reader([], ""), text);
    r.events + Event(trim, r.line)
  }

  function Joined(pieces: seq<string>): string {
    if pieces == [] then "" else Joined(pieces[..|pieces| - 1]) + pieces[|pieces| - 1]
  }

  lemma {:induction false} FeedJoin(trim: Trim, r: Reader, a: string, b: string)
    ensures FeedAll(trim, r, a + b) == FeedAll(trim, FeedAll(trim, r, a), b)
  {
    if b == "" {
      assert a + b == a;
    } else {
      var n := |b| - 1;
      FeedJoin(trim, r, a, b[..n]);
      assert (a + b)[..|a| + n] == a + b[..n];
    }
  }

  ghost predicate NoNewline(s: string) {
    forall i | 0 <= i < |s| :: s[i] != '\n'
  }

  lemma {:induction false} FeedPlain(trim: Trim, r: Reader, s: string)
    requires NoNewline(s)
    ensures FeedAll(trim, r, s) == Reader(r.events, r.line + s)
  {
    if s != "" {
      var n := |s| - 1;
      FeedPlain(trim, r, s[..n]);
      assert r.line + s[..n] + [s[n]] == r.line + s;
    } else {
      assert r.line + s == r.line;
    }
  }

  /** Reading a text whose first newline is at n. */
  lemma {:induction false} FeedLine(trim: Trim, events: seq<string>, s: string, n: nat)
    requires n < |s| && s[n] == '\n' && NoNewline(s[..n])
    ensures FeedAll(trim, Reader(events, ""), s) == FeedAll(trim, Reader(events + Event(trim, s[..n]), ""), s[n + 1..])
  {
    var r, line, rest := Reader(events, ""), s[..n], s[n + 1..];
    EndOfLine(trim, events, line);
    FeedJoin(trim, r, line + ['\n'], rest);
    assert s == line + ['\n'] + rest;
  }

  lemma {:induction false} EndOfLine(trim: Trim, events: seq<string>, line: string)
    requires NoNewline(line)
    ensures FeedAll(trim, Reader(events, ""), line + ['\n']) == Reader(events + Event(trim, line), "")
  {
    FeedPlain(trim, Reader(events, ""), line);
    assert "" + line == line && (line + ['\n'])[..|line|] == line;
  }

  /** Lines, each but the first after a newline. */
  function Lined(lines: seq<string>): string {
    if lines == [] then ""
    else if |lines| == 1 then lines[0]
    else Lined(lines[..|lines| - 1]) + ['\n'] + lines[|lines| - 1]
  }

  /** The lines that are not blank, trimmed. */
  function NonBlank(trim: Trim, lines: seq<string>): seq<string> {
    if lines == [] then []
    else
      var line := trim(lines[|lines| - 1]);
      NonBlank(trim, lines[..|lines| - 1]) + if line == "" then [] else [line]
  }

  lemma {:induction false} FeedLined(trim: Trim, lines: seq<string>)
    requires lines != [] && forall i | 0 <= i < |lines| :: NoNewline(lines[i])
    ensures FeedAll(trim, Reader([], ""), Lined(lines)) == Reader(NonBlank(trim, lines[..|lines| - 1]), lines[|lines| - 1])
  {
    var n, start := |lines| - 1, Reader([], "");
    var before, last := lines[..n], lines[n];
    assert before == [] ==> Lined(lines) == last;
    if n == 0 {
      FeedPlain(trim, start, last);
      assert "" + last == last;
    } else {
      FeedLined(trim, before);
      var text := Lined(before);
      var r := FeedAll(trim, start, text);
      assert (text + ['\n'])[..|text|] == text;
      var after := FeedAll(trim, start, text + ['\n']);
      assert after == Feed(trim, r, '\n') == Reader(NonBlank(trim, before), "") by {
        assert NonBlank(trim, before) == NonBlank(trim, before[..n - 1]) + Event(trim, before[n - 1]);
      }
      FeedJoin(trim, start, text + ['\n'], last);
      FeedPlain(trim, after, last);
      assert "" + last == last;
    }
  }

  /** A response made of these lines, whether or not a newline ends it, gives its non-blank lines, trimmed. */
  lemma {:induction false} LinesAreDispatched(trim: Trim, lines: seq<string>)
    requires lines != [] && forall i | 0 <= i < |lines| :: NoNewline(lines[i])
    ensures Dispatched(trim, Lined(lines)) == NonBlank(trim, lines)
  {
    FeedLined(trim, lines);
  }

  /** buffer.indexOf("\n"), or the length of the text. */
  method IndexOfNewline(s: string) returns (n: nat)
    ensures n <= |s| && NoNewline(s[..n]) && (n < |s| ==> s[n] == '\n')
  {
    n := 0;
    while n < |s| && s[n] != '\n'
      invariant 0 <= n <= |s| && NoNewline(s[..n])
    {
      n := n + 1;
    }
  }

  method ProcessLine(trim: Trim, events: seq<string>, line: string) returns (after: seq<string>)
    ensures after == events + Event(trim, line)
  {
    var trimmed := trim(line);
    after := if trimmed == "" then events else events + [trimmed];
  }

  /** Take the complete lines out of the buffer. */
  method DrainLines(trim: Trim, events: seq<string>, buffer: string) returns (after: seq<string>, rest: string)
    ensures Reader(after, rest) == FeedAll(trim, Reader(events, ""), buffer) && NoNewline(rest)
  {
    after, rest := events, buffer;
    var newlineIndex := IndexOfNewline(rest);
    while newlineIndex < |rest|
      invariant 0 <= newlineIndex <= |rest| && NoNewline(rest[..newlineIndex]) && (newlineIndex < |rest| ==> rest[newlineIndex] == '\n')
      invariant FeedAll(trim, Reader(after, ""), rest) == FeedAll(trim, Reader(events, ""), buffer)
      decreases |rest|
    {
      FeedLine(trim, after, rest, newlineIndex);
      after := ProcessLine(trim, after, rest[..newlineIndex]);
      rest := rest[newlineIndex + 1..];
      newlineIndex := IndexOfNewline(rest);
    }
    assert rest[..newlineIndex] == rest;
    FeedPlain(trim, Reader(after, ""), rest);
    assert "" + rest == rest;
  }

  /** However the text was cut into reads, the events are those of the whole text. */
  method StreamEvents(trim: Trim, pieces: seq<string>) returns (events: seq<string>)
    ensures events == Dispatched(trim, Joined(pieces))
  {
    events := [];
    var buffer := "";
    var i := 0;
    while i < |pieces|
      invariant 0 <= i <= |pieces| && NoNewline(buffer)
      invariant Reader(events, buffer) == FeedAll(trim, Reader([], ""), Joined(pieces[..i]))
    {
      assert pieces[..i + 1][..i] == pieces[..i];
      FeedJoin(trim, Reader([], ""), Joined(pieces[..i]), pieces[i]);
      FeedPlain(trim, Reader(events, ""), buffer);
      assert "" + buffer == buffer;
      FeedJoin(trim, Reader(events, ""), buffer, pieces[i]);
      events, buffer := DrainLines(trim, events, buffer + pieces[i]);
      i := i + 1;
    }
    assert pieces[..i] == pieces;
    if trim(buffer) != "" {
      events := ProcessLine(trim, events, buffer);
    }
  }
}
