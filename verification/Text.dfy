/** Text as sequences of ASCII characters: case folding, splitting, trimming and
    escaping, with the laws the other modules use. */
module Text {

  datatype Option<+T> = None | Some(value: T)

  // ---------------------------------------------------------------- case folding

  function LowerChar(c: char): char {
    if 'A' <= c <= 'Z' then c - 'A' + 'a' else c
  }

  function Lower(s: string): (r: string)
    ensures |r| == |s|
  {
    seq(|s|, i requires 0 <= i < |s| => LowerChar(s[i]))
  }

  lemma LowerConcat(a: string, b: string)
    ensures Lower(a + b) == Lower(a) + Lower(b)
  {
  }

  lemma LowerIdempotent(s: string)
    ensures Lower(Lower(s)) == Lower(s)
  {
  }

  // ---------------------------------------------------------------- blanks

  /** CharacterSet.whitespaces on ASCII. */
  predicate IsSpace(c: char) { c == ' ' || c == '\t' }

  /** CharacterSet.whitespacesAndNewlines on ASCII. */
  predicate IsSpaceOrNewline(c: char) { c == ' ' || 9 as char <= c <= 13 as char }

  /** A string of blanks and line breaks only: trimming it leaves nothing. */
  predicate IsBlank(s: string) { forall i :: 0 <= i < |s| ==> IsSpaceOrNewline(s[i]) }

  predicate Trimmable(c: char, lineBreaks: bool) { if lineBreaks then IsSpaceOrNewline(c) else IsSpace(c) }

  function TrimLeft(s: string, lineBreaks: bool): string {
    if s != "" && Trimmable(s[0], lineBreaks) then TrimLeft(s[1..], lineBreaks) else s
  }

  function TrimRight(s: string, lineBreaks: bool): string {
    if s != "" && Trimmable(s[|s| - 1], lineBreaks) then TrimRight(s[..|s| - 1], lineBreaks) else s
  }

  /** `trimmingCharacters`, with line breaks or without. */
  function Trim(s: string, lineBreaks: bool): string { TrimRight(TrimLeft(s, lineBreaks), lineBreaks) }

  lemma TrimKeeps(s: string, lineBreaks: bool)
    requires s != "" ==> !Trimmable(s[0], lineBreaks) && !Trimmable(s[|s| - 1], lineBreaks)
    ensures Trim(s, lineBreaks) == s
  {
  }

  /** The first place of a pattern in a text; |text| when there is none. */
  function Find(s: string, pattern: string): (r: nat)
    ensures r <= |s|
    ensures r < |s| ==> pattern <= s[r..]
    ensures forall k :: 0 <= k < r ==> !(pattern <= s[k..])
  {
    if s == "" || pattern <= s then 0
    else
      var rest := Find(s[1..], pattern);
      assert forall k :: 0 <= k < |s[1..]| ==> s[1..][k..] == s[k + 1..];
      assert forall k :: 0 < k <= rest ==> s[k..] == s[1..][k - 1..];
      rest + 1
  }

  // ---------------------------------------------------------------- splitting at a character

  function Join(parts: seq<string>, sep: string): string {
    if |parts| == 0 then ""
    else if |parts| == 1 then parts[0]
    else parts[0] + sep + Join(parts[1..], sep)
  }

  /** Every piece between separators, empty ones included; the pieces joined again are the text. */
  function Split(s: string, sep: char): (r: seq<string>)
    ensures |r| >= 1
    ensures forall part :: part in r ==> sep !in part
    ensures Join(r, [sep]) == s
  {
    if s == "" then
      [""]
    else
      var rest := Split(s[1..], sep);
      if s[0] == sep then
        [""] + rest
      else
        var r := [[s[0]] + rest[0]] + rest[1..];
        assert r[1..] == rest[1..];
        r
  }

  lemma {:induction false} SplitPiece(s: string, sep: char, tail: string)
    requires sep !in s
    ensures Split(s + [sep] + tail, sep) == [s] + Split(tail, sep)
  {
    if s == "" {
      assert s + [sep] + tail == [sep] + tail;
      assert ([sep] + tail)[1..] == tail;
    } else {
      SplitPiece(s[1..], sep, tail);
      var t := s + [sep] + tail;
      assert t[1..] == s[1..] + [sep] + tail;
      assert t[0] == s[0] && s[0] != sep;
      assert [s[0]] + s[1..] == s;
    }
  }

  lemma {:induction false} SplitWhole(s: string, sep: char)
    requires sep !in s
    ensures Split(s, sep) == [s]
  {
    if s != "" { SplitWhole(s[1..], sep); }
  }

  /** Splitting undoes joining as long as no piece holds the separator. */
  lemma {:induction false} SplitJoin(parts: seq<string>, sep: char)
    requires |parts| >= 1
    requires forall part :: part in parts ==> sep !in part
    ensures Split(Join(parts, [sep]), sep) == parts
  {
    if |parts| == 1 {
      SplitWhole(parts[0], sep);
    } else {
      SplitJoin(parts[1..], sep);
      SplitPiece(parts[0], sep, Join(parts[1..], [sep]));
    }
  }

  // ---------------------------------------------------------------- pieces that are not empty

  /** `split(separator:)`: the pieces that are not empty. */
  function Pieces(s: string, sep: char): seq<string> { NonEmpty(Split(s, sep)) }

  function NonEmpty(parts: seq<string>): seq<string> {
    if parts == [] then [] else (if parts[0] == "" then [] else [parts[0]]) + NonEmpty(parts[1..])
  }

  /** A piece: not empty and without the separator. */
  ghost predicate ArePieces(parts: seq<string>, sep: char) { forall i :: 0 <= i < |parts| ==> parts[i] != "" && sep !in parts[i] }

  lemma {:induction false} NonEmptyArePieces(parts: seq<string>, sep: char)
    requires forall i :: 0 <= i < |parts| ==> sep !in parts[i]
    ensures ArePieces(NonEmpty(parts), sep)
  {
    if parts != [] { NonEmptyArePieces(parts[1..], sep); }
  }

  lemma {:induction false} NonEmptyConcat(a: seq<string>, b: seq<string>)
    ensures NonEmpty(a + b) == NonEmpty(a) + NonEmpty(b)
  {
    if a == [] {
      assert a + b == b;
    } else {
      NonEmptyConcat(a[1..], b);
      assert (a + b)[1..] == a[1..] + b && (a + b)[0] == a[0];
      assert NonEmpty(a + b) == (if a[0] == "" then [] else [a[0]]) + NonEmpty(a[1..] + b);
    }
  }

  /** The pieces of a joined list, where the last item may hold separators of its own. */
  lemma {:induction false} PiecesOfJoin(parts: seq<string>, last: string, sep: char)
    requires ArePieces(parts, sep)
    ensures Pieces(Join(parts + [last], [sep]), sep) == parts + Pieces(last, sep)
  {
    if parts == [] {
      assert parts + [last] == [last];
      assert [] + Pieces(last, sep) == Pieces(last, sep);
    } else {
      var rest := parts[1..] + [last];
      PiecesOfJoin(parts[1..], last, sep);
      assert (parts + [last])[1..] == rest;
      SplitPiece(parts[0], sep, Join(rest, [sep]));
      NonEmptyConcat([parts[0]], Split(Join(rest, [sep]), sep));
      assert [parts[0]][1..] == [];
      assert parts == [parts[0]] + parts[1..];
    }
  }

  lemma NotAPiece(parts: seq<string>, s: string, sep: char)
    requires ArePieces(parts, sep) && sep in s
    ensures parts != [s]
  {
    assert |parts| == 1 ==> parts[0] != s;
  }

  lemma WholePiece(s: string, sep: char)
    requires s != ""
    ensures Pieces(s, sep) == [s] <==> sep !in s
  {
    if sep !in s {
      SplitWhole(s, sep);
      assert [s][1..] == [];
      assert NonEmpty([s]) == [s] + NonEmpty([s][1..]);
    } else {
      NonEmptyArePieces(Split(s, sep), sep);
      NotAPiece(Pieces(s, sep), s, sep);
    }
  }

  // ---------------------------------------------------------------- escaping of quoted names

  /** Backslashes and quotes each get a backslash in front. */
  function Escape(s: string): string {
    if s == "" then "" else EscapeChar(s[0]) + Escape(s[1..])
  }

  function EscapeChar(c: char): string {
    if c == '\\' then "\\\\" else if c == '\"' then "\\\"" else [c]
  }

  lemma {:induction false} EscapeKeepsOut(s: string, c: char)
    requires c !in s && c != '\\' && c != '\"'
    ensures c !in Escape(s)
  {
    if s != "" { EscapeKeepsOut(s[1..], c); }
  }

  lemma {:induction false} EscapeKeepsIn(s: string, c: char)
    requires c in s
    ensures c in Escape(s)
  {
    if s[0] == c {
      assert EscapeChar(c)[|EscapeChar(c)| - 1] == c;
      assert Escape(s)[|EscapeChar(c)| - 1] == c;
    } else {
      EscapeKeepsIn(s[1..], c);
    }
  }

  lemma {:induction false} LowerEscape(s: string)
    ensures Lower(Escape(s)) == Escape(Lower(s))
  {
    if s == "" {
      assert Lower(s) == "";
    } else {
      LowerEscape(s[1..]);
      LowerConcat(EscapeChar(s[0]), Escape(s[1..]));
      assert Lower(s)[0] == LowerChar(s[0]);
      assert Lower(s)[1..] == Lower(s[1..]);
      assert Lower(EscapeChar(s[0])) == EscapeChar(LowerChar(s[0]));
    }
  }

  lemma {:induction false} EscapeConcat(a: string, b: string)
    ensures Escape(a + b) == Escape(a) + Escape(b)
  {
    hide EscapeChar;
    if a == "" {
      assert a + b == b;
    } else {
      var c := EscapeChar(a[0]);
      EscapeConcat(a[1..], b);
      assert (a + b)[1..] == a[1..] + b && (a + b)[0] == a[0];
      assert c + (Escape(a[1..]) + Escape(b)) == c + Escape(a[1..]) + Escape(b);
    }
  }

  lemma {:induction false} PlainEscape(s: string)
    requires '\\' !in s && '\"' !in s
    ensures Escape(s) == s
  {
    if s != "" {
      assert s == [s[0]] + s[1..] && s[0] in s;
      PlainEscape(s[1..]);
    }
  }

  /** The head of an escaped text tells the first character: only escapes start with a
      backslash, and no escaped character starts with a quote. */
  lemma EscapeHead(c: char, rest: string)
    ensures var x := EscapeChar(c) + rest;
      && x[0] != '\"'
      && (x[0] == '\\' ==> |x| >= 2 && c == x[1] && rest == x[2..])
      && (x[0] != '\\' ==> c == x[0] && rest == x[1..])
  {
    var x := EscapeChar(c) + rest;
    if c == '\\' || c == '\"' {
      assert x[2..] == rest;
    } else {
      assert x[1..] == rest;
    }
  }

  /** An escaped text, its closing quote and what follows. */
  function Quoted(a: string, rest: string): string { Escape(a) + ("\"" + rest) }

  lemma QuotedStep(a: string, rest: string)
    ensures a == "" ==> Quoted(a, rest) == "\"" + rest
    ensures a != "" ==> Quoted(a, rest) == EscapeChar(a[0]) + Quoted(a[1..], rest)
  {
  }

  /** An escaped text ends at its own first unescaped quote, so the quoted form determines
      the text and what follows: no quoted text is a prefix of a different one. */
  lemma {:induction false} QuotedInjective(a: string, b: string, ta: string, tb: string)
    requires Quoted(a, ta) == Quoted(b, tb)
    ensures a == b && ta == tb
  {
    QuotedStep(a, ta);
    QuotedStep(b, tb);
    if a != "" { EscapeHead(a[0], Quoted(a[1..], ta)); }
    if b != "" { EscapeHead(b[0], Quoted(b[1..], tb)); }
    if a != "" && b != "" {
      QuotedInjective(a[1..], b[1..], ta, tb);
      assert a == [a[0]] + a[1..] && b == [b[0]] + b[1..];
    } else if a == "" && b == "" {
      assert ("\"" + ta)[1..] == ta && ("\"" + tb)[1..] == tb;
    }
  }
}
