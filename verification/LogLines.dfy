/** `LogTail`: a byte stream that arrives in chunks is cut into lines. */
module LogLines {
  import opened Text

  const MAX_PARTIAL := 0x10_0000

  // ---------------------------------------------------------------- lines of a stream

  /** The complete lines of a stream, empty ones left out. */
  function Complete(stream: string): seq<string> {
    var pieces := Split(stream, '\n');
    NonEmpty(pieces[..|pieces| - 1])
  }

  /** What follows the last line break. */
  function Partial(stream: string): string {
    var pieces := Split(stream, '\n');
    pieces[|pieces| - 1]
  }

  function Stream(chunks: seq<string>): string {
    if chunks == [] then "" else Stream(chunks[..|chunks| - 1]) + chunks[|chunks| - 1]
  }

  /** Two lists of pieces with the last piece of the one going on in the first of the other. */
  function Glued(p: seq<string>, q: seq<string>): (r: seq<string>)
    requires p != [] && q != []
    ensures |r| == |p| + |q| - 1
  {
    p[..|p| - 1] + [p[|p| - 1] + q[0]] + q[1..]
  }

  function Begun(c: char, p: seq<string>): (r: seq<string>)
    requires p != []
    ensures |r| == |p|
  {
    [[c] + p[0]] + p[1..]
  }

  lemma GluedBehind(p: seq<string>, q: seq<string>)
    requires p != [] && q != []
    ensures Glued([""] + p, q) == [""] + Glued(p, q)
  {
    assert ([""] + p)[..|p|] == [""] + p[..|p| - 1];
  }

  lemma GluedBegun(c: char, p: seq<string>, q: seq<string>)
    requires p != [] && q != []
    ensures Glued(Begun(c, p), q) == Begun(c, Glued(p, q))
  {
    if |p| == 1 {
      assert [c] + (p[0] + q[0]) == [c] + p[0] + q[0];
    } else {
      assert Begun(c, p)[..|p| - 1] == Begun(c, p[..|p| - 1]);
      assert Glued(p, q)[0] == p[0];
      assert Glued(p, q)[1..] == p[..|p| - 1][1..] + [p[|p| - 1] + q[0]] + q[1..];
    }
  }

  /** The pieces of a longer text: the last piece goes on. */
  lemma {:induction false} SplitConcat(a: string, b: string)
    ensures Split(a + b, '\n') == Glued(Split(a, '\n'), Split(b, '\n'))
  {
    var q := Split(b, '\n');
    if a == "" {
      assert a + b == b;
      assert "" + q[0] == q[0];
      assert Glued([""], q) == q;
    } else {
      SplitConcat(a[1..], b);
      assert (a + b)[1..] == a[1..] + b && (a + b)[0] == a[0];
      var p := Split(a[1..], '\n');
      GluedBehind(p, q);
      GluedBegun(a[0], p, q);
    }
  }

  lemma GluedParts(p: seq<string>, q: seq<string>)
    requires p != [] && q != []
    ensures var last := [p[|p| - 1]]; Glued(p, q) == p[..|p| - 1] + Glued(last, q)
  {
  }

  /** What is read does not depend on what comes later, and a new chunk is read as if it began
      with the partial line before it. */
  lemma StreamGoesOn(stream: string, chunk: string)
    ensures Complete(stream + chunk) == Complete(stream) + Complete(Partial(stream) + chunk)
    ensures Partial(stream + chunk) == Partial(Partial(stream) + chunk)
  {
    hide NonEmpty, Split, Glued;
    var p, q := Split(stream, '\n'), Split(chunk, '\n');
    SplitConcat(stream, chunk);
    SplitConcat(Partial(stream), chunk);
    SplitWhole(Partial(stream), '\n');
    GluedParts(p, q);
    var head, tail := p[..|p| - 1], Glued([Partial(stream)], q);
    assert (head + tail)[..|head + tail| - 1] == head + tail[..|tail| - 1];
    NonEmptyConcat(head, tail[..|tail| - 1]);
  }

  // ---------------------------------------------------------------- the reader

  datatype Reader = Reader(buffer: string, delivered: seq<string>)

  /** What a reader has after one more chunk. */
  function Fed(r: Reader, chunk: string): Reader {
    var partial := Partial(r.buffer + chunk);
    Reader(if |partial| > MAX_PARTIAL then "" else partial, r.delivered + Complete(r.buffer + chunk))
  }

  function Feed(chunks: seq<string>): Reader {
    if chunks == [] then Reader("", []) else Fed(Feed(chunks[..|chunks| - 1]), chunks[|chunks| - 1])
  }

  class LogTail {
    var lineBuffer: string
    var delivered: seq<string>

    ghost function Current(): Reader
      reads this
    {
      Reader(lineBuffer, delivered)
    }

    constructor ()
      ensures Current() == Reader("", [])
    {
      lineBuffer, delivered := "", [];
    }

    /** `flushLines`: whole lines leave the buffer one by one; a partial line that got too long is
        given up. */
    method FlushLines()
      modifies this
      ensures Current() == Fed(Reader("", old(delivered)), old(lineBuffer))
    {
      hide Complete, Partial;
      ghost var text := lineBuffer;
      assert "" + text == text;
      var newline := FirstBreak(lineBuffer);
      while newline < |lineBuffer|
        invariant newline == FirstBreak(lineBuffer)
        invariant delivered + Complete(lineBuffer) == old(delivered) + Complete(text)
        invariant Partial(lineBuffer) == Partial(text)
        decreases |lineBuffer|
      {
        var line := lineBuffer[..newline];
        FirstLine(lineBuffer, newline);
        lineBuffer := lineBuffer[newline + 1..];
        if line != "" { delivered := delivered + [line]; }
        newline := FirstBreak(lineBuffer);
      }
      assert lineBuffer[..|lineBuffer|] == lineBuffer;
      NoLine(lineBuffer);
      if |lineBuffer| > MAX_PARTIAL { lineBuffer := ""; }
    }

    /** One pass of `readAvailable`: a chunk is appended and the lines are flushed. */
    method Read(chunk: string)
      modifies this
      ensures Current() == Fed(old(Current()), chunk)
    {
      lineBuffer := lineBuffer + chunk;
      assert "" + lineBuffer == lineBuffer;
      FlushLines();
    }
  }

  function FirstBreak(s: string): (i: nat)
    ensures i <= |s| && '\n' !in s[..i] && (i < |s| ==> s[i] == '\n')
  {
    if s == "" || s[0] == '\n' then 0
    else
      var rest := FirstBreak(s[1..]);
      assert s[..rest + 1] == [s[0]] + s[1..][..rest];
      rest + 1
  }

  lemma FirstLine(s: string, i: nat)
    requires i < |s| && s[i] == '\n' && '\n' !in s[..i]
    ensures Complete(s) == (if s[..i] == "" then [] else [s[..i]]) + Complete(s[i + 1..])
    ensures Partial(s) == Partial(s[i + 1..])
  {
    hide Split;
    var line, rest := s[..i], s[i + 1..];
    SplitPiece(line, '\n', rest);
    assert s == line + ['\n'] + rest;
    var pieces := Split(rest, '\n');
    var all := [line] + pieces;
    assert all[..|all| - 1] == [line] + pieces[..|pieces| - 1];
    assert all[..|all| - 1][1..] == pieces[..|pieces| - 1];
  }

  lemma NoLine(s: string)
    requires '\n' !in s
    ensures Complete(s) == [] && Partial(s) == s
  {
    SplitWhole(s, '\n');
  }

  // ---------------------------------------------------------------- chunks do not matter

  /** The reader has delivered the complete lines of the stream and holds its partial line. */
  ghost predicate InSync(chunks: seq<string>) { Feed(chunks) == Reader(Partial(Stream(chunks)), Complete(Stream(chunks))) }

  /** A reader in step with its stream stays so over a chunk exactly when the chunk does not end in
      a partial line of more than a megabyte. */
  lemma StaysInSync(chunks: seq<string>, chunk: string)
    requires InSync(chunks)
    ensures InSync(chunks + [chunk]) <==> |Partial(Stream(chunks + [chunk]))| <= MAX_PARTIAL
  {
    assert (chunks + [chunk])[..|chunks|] == chunks;
    StreamGoesOn(Stream(chunks), chunk);
  }

  /** No complete or partial line of the stream is longer than a megabyte. */
  ghost predicate ShortLines(stream: string) { forall i :: 0 <= i < |Split(stream, '\n')| ==> |Split(stream, '\n')[i]| <= MAX_PARTIAL }

  lemma ShortLinesBefore(a: string, b: string)
    requires ShortLines(a + b)
    ensures ShortLines(a)
  {
    SplitConcat(a, b);
    var p, q, all := Split(a, '\n'), Split(b, '\n'), Split(a + b, '\n');
    forall i | 0 <= i < |p| ensures |p[i]| <= MAX_PARTIAL {
      if i < |p| - 1 {
        assert all[i] == p[i];
      } else {
        assert all[i] == p[i] + q[0];
      }
    }
  }

  lemma {:induction false} ShortLinesInSync(chunks: seq<string>)
    requires ShortLines(Stream(chunks))
    ensures InSync(chunks)
  {
    if chunks != [] {
      var init, last := chunks[..|chunks| - 1], chunks[|chunks| - 1];
      ShortLinesBefore(Stream(init), last);
      ShortLinesInSync(init);
      assert init + [last] == chunks;
      StaysInSync(init, last);
    }
  }

  /** The delivered lines depend on the bytes only, not on how they arrive, as long as no line is
      longer than a megabyte. */
  lemma ChunksDoNotMatter(a: seq<string>, b: seq<string>)
    requires Stream(a) == Stream(b) && ShortLines(Stream(a))
    ensures Feed(a) == Feed(b) && Feed(a).delivered == Complete(Stream(a))
  {
    ShortLinesInSync(a);
    ShortLinesInSync(b);
  }

  /** A longer line is where they do matter: arriving at once with its line break it is delivered,
      and arriving in two parts it is not. */
  lemma LongLineMatters(line: string)
    requires '\n' !in line && |line| > MAX_PARTIAL
    ensures Feed([line + "\n"]).delivered == [line]
    ensures Feed([line, "\n"]).delivered == []
    ensures Stream([line + "\n"]) == Stream([line, "\n"])
  {
    var whole, parts := [line + "\n"], [line, "\n"];
    assert whole[..0] == [] && parts[..1] == [line] && [line][..0] == [];
    assert "" + (line + "\n") == line + "\n" && "" + line == line && "" + "\n" == "\n";
    LineAndBreak(line);
    LineAndBreak("");
    assert "" + "\n" == "\n";
    NoLine(line);
    assert Feed([line]) == Fed(Reader("", []), line) == Reader("", []);
  }

  lemma LineAndBreak(line: string)
    requires '\n' !in line
    ensures Complete(line + "\n") == (if line == "" then [] else [line]) && Partial(line + "\n") == ""
  {
    var s := line + "\n";
    assert s[..|line|] == line && s[|line| + 1..] == "";
    FirstLine(s, |line|);
    NoLine("");
  }
}
