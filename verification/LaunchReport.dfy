/** Writing the report into a buffer (`md_put`): text past the capacity is cut off, and strings of
    the JSON report are quoted so that they read back byte for byte. */
module LaunchReport {
  import opened Text
  import opened Numbers

  const NUL: char := 0 as char

  // ---------------------------------------------------------------- the bounded buffer

  function Cut(s: string, most: nat): string { if |s| > most then s[..most] else s }

  function All(pieces: seq<string>): string {
    if pieces == [] then "" else All(pieces[..|pieces| - 1]) + pieces[|pieces| - 1]
  }

  class Output {
    const buf: array<char>
    var len: nat

    /** The bytes written so far end with a NUL inside the buffer. */
    ghost predicate Valid()
      reads this, buf
    {
      len < buf.Length && buf[len] == NUL
    }

    ghost function Contents(): string
      reads this, buf
      requires Valid()
    {
      buf[..len]
    }

    constructor (cap: nat)
      requires cap > 0
      ensures fresh(buf) && buf.Length == cap && Valid() && Contents() == ""
    {
      buf := new char[cap](i => NUL);
      len := 0;
    }

    /** `md_put` of a formatted text: `vsnprintf` writes what fits and a NUL, and the length is set
        back to what was written. */
    method Put(text: string)
      requires Valid()
      modifies this, buf
      ensures Valid() && Contents() == Cut(old(Contents()) + text, buf.Length - 1)
    {
      if len + 1 >= buf.Length { return; }
      var room := buf.Length - len - 1;
      var n := if |text| < room then |text| else room;
      ghost var before := buf[..len];
      for i := 0 to n
        invariant len + i <= buf.Length - 1 && len == old(len)
        invariant buf[..len + i] == before + text[..i]
      {
        buf[len + i] := text[i];
        assert text[..i + 1] == text[..i] + [text[i]];
      }
      buf[len + n] := NUL;
      assert buf[..len + n] == before + text[..n];
      len := len + |text|;
      if len >= buf.Length { len := buf.Length - 1; }
    }
  }

  lemma CutTwice(a: string, b: string, most: nat)
    ensures Cut(Cut(a, most) + b, most) == Cut(a + b, most)
  {
    if |a| > most { assert Cut(a, most) + b == a[..most] + b && (a + b)[..most] == a[..most]; }
  }

  /** Writing pieces one after the other leaves their concatenation, cut to one byte less than the
      capacity, with its length. */
  method PutAll(pieces: seq<string>, cap: nat) returns (o: Output)
    requires cap > 0
    ensures fresh(o) && fresh(o.buf) && o.Valid() && o.buf.Length == cap
    ensures o.Contents() == Cut(All(pieces), cap - 1)
  {
    o := new Output(cap);
    for i := 0 to |pieces|
      invariant fresh(o) && fresh(o.buf) && o.Valid() && o.buf.Length == cap
      invariant o.Contents() == Cut(All(pieces[..i]), cap - 1)
    {
      assert pieces[..i + 1][..i] == pieces[..i];
      CutTwice(All(pieces[..i]), pieces[i], cap - 1);
      o.Put(pieces[i]);
    }
    assert pieces[..|pieces|] == pieces;
  }

  // ---------------------------------------------------------------- JSON strings

  /** What one byte is written as. */
  function JsonPiece(c: char): string {
    if c == '\"' || c == '\\' then ['\\', c]
    else if c < ' ' then "\\u" + Hex(c as nat, 4)
    else [c]
  }

  function JsonPieces(s: string): seq<string> {
    if s == "" then [] else JsonPieces(s[..|s| - 1]) + [JsonPiece(s[|s| - 1])]
  }

  /** The string literal of a text. */
  function JsonString(s: string): string { "\"" + All(JsonPieces(s)) + "\"" }

  /** `md_put_json_string`, one `md_put` for each byte. */
  method PutJsonString(o: Output, s: string)
    requires o.Valid()
    modifies o, o.buf
    ensures o.Valid() && o.Contents() == Cut(old(o.Contents()) + JsonString(s), o.buf.Length - 1)
  {
    hide JsonPiece, Cut, All, JsonPieces;
    ghost var before, most := o.Contents(), o.buf.Length - 1;
    o.Put("\"");
    ghost var written := "\"";
    NoPieces();
    for i := 0 to |s|
      invariant o.Valid() && o.Contents() == Cut(before + written, most)
      invariant written == "\"" + All(JsonPieces(s[..i]))
    {
      assert s[..i + 1][..i] == s[..i];
      var piece := JsonPiece(s[i]);
      JsonPiecesNext(s[..i + 1]);
      CutMore(before, written, piece, most);
      o.Put(piece);
      written := written + piece;
    }
    assert s[..|s|] == s;
    CutMore(before, written, "\"", most);
    o.Put("\"");
  }

  lemma NoPieces()
    ensures All(JsonPieces("")) == ""
  {
  }

  lemma CutMore(before: string, written: string, piece: string, most: nat)
    ensures Cut(Cut(before + written, most) + piece, most) == Cut(before + (written + piece), most)
  {
    CutTwice(before + written, piece, most);
    assert before + written + piece == before + (written + piece);
  }

  lemma JsonPiecesNext(s: string)
    requires s != ""
    ensures All(JsonPieces(s)) == All(JsonPieces(s[..|s| - 1])) + JsonPiece(s[|s| - 1])
  {
    hide JsonPiece;
    var pieces := JsonPieces(s);
    assert pieces[..|pieces| - 1] == JsonPieces(s[..|s| - 1]);
  }

  // ---------------------------------------------------------------- reading JSON strings

  datatype Decoded = Decoded(text: string, rest: string)

  /** The character a two-character escape stands for. */
  function Escaped(c: char): Option<char> {
    if c == '\"' || c == '\\' || c == '/' then Some(c)
    else if c == 'b' then Some(8 as char)
    else if c == 'f' then Some(12 as char)
    else if c == 'n' then Some('\n')
    else if c == 'r' then Some('\r')
    else if c == 't' then Some('\t')
    else None
  }

  predicate IsHex(s: string) { forall i :: 0 <= i < |s| ==> DigitValue(s[i]) < 16 }

  /** The characters of a string up to its closing quote, as section 7 of RFC 8259 has them: any but
      quotes, backslashes and controls, and the escapes; none for anything else. Escapes of code
      points that are no byte are not read. */
  function DecodeChars(s: string): Option<Decoded>
    decreases |s|
  {
    if s == "" || s[0] < ' ' then None
    else if s[0] == '\"' then Some(Decoded("", s[1..]))
    else if s[0] != '\\' then Prepend(s[0], DecodeChars(s[1..]))
    else if |s| < 2 then None
    else if s[1] == 'u' then
      if |s| < 6 || !IsHex(s[2..6]) || CodeOf(s[2..6]) >= 256 then None else Prepend(CodeOf(s[2..6]) as char, DecodeChars(s[6..]))
    else if Escaped(s[1]).None? then None
    else Prepend(Escaped(s[1]).value, DecodeChars(s[2..]))
  }

  function CodeOf(hex: string): nat {
    var v := Digits(hex, Sixteen);
    if v.Some? then v.value else 0
  }

  function Prepend(c: char, d: Option<Decoded>): Option<Decoded> {
    if d.None? then None else Some(Decoded([c] + d.value.text, d.value.rest))
  }

  /** A string literal at the start of a text. */
  function Decode(s: string): Option<Decoded> {
    if s != "" && s[0] == '\"' then DecodeChars(s[1..]) else None
  }

  lemma HexDigitsAreHex(s: string)
    requires AreDigits(s)
    ensures IsHex(s)
  {
    forall i | 0 <= i < |s| ensures DigitValue(s[i]) < 16 {
      assert s[i] in s;
      DigitIsHex(s[i]);
    }
  }

  lemma DigitIsHex(c: char)
    requires c in DIGITS
    ensures DigitValue(c) < 16
  {
  }

  lemma {:induction false} PadWidth(s: string, width: nat)
    ensures |PadZeros(s, width)| == if |s| >= width then |s| else width
    decreases width - |s|
  {
    if |s| < width { PadWidth("0" + s, width); }
  }

  /** The four digits of a control character. */
  lemma ControlHex(v: nat)
    requires v < 32
    ensures |Hex(v, 4)| == 4 && IsHex(Hex(v, 4)) && CodeOf(Hex(v, 4)) == v
  {
    HexReads(v, 4);
    HexDigitsAreHex(Hex(v, 4));
    PadWidth(Write(v, Sixteen), 4);
    assert |Write(v, Sixteen)| <= 2;
  }

  /** A byte's piece decodes to the byte. */
  lemma PieceDecodes(c: char, rest: string)
    requires c < 256 as char
    ensures DecodeChars(JsonPiece(c) + rest) == Prepend(c, DecodeChars(rest))
  {
    var s := JsonPiece(c) + rest;
    if c == '\"' || c == '\\' {
      assert s[2..] == rest;
    } else if c < ' ' {
      ControlHex(c as nat);
      assert s[2..6] == Hex(c as nat, 4) && s[6..] == rest;
    } else {
      assert s[1..] == rest;
    }
  }

  /** The pieces of a text as one, from the front. */
  lemma {:induction false} PiecesFromFront(s: string)
    requires s != ""
    ensures All(JsonPieces(s)) == JsonPiece(s[0]) + All(JsonPieces(s[1..]))
  {
    hide JsonPiece;
    JsonPiecesNext(s);
    if |s| == 1 {
      assert s[..0] == "" && s[1..] == "";
      assert All(JsonPieces("")) == "";
    } else {
      var n := |s| - 1;
      PiecesFromFront(s[..n]);
      JsonPiecesNext(s[1..]);
      assert s[1..][..n - 1] == s[..n][1..];
    }
  }

  /** Reading undoes writing: the literal of any text of bytes is a JSON string that decodes to
      exactly that text, and the reader stops right behind it. */
  lemma JsonReadsBack(s: string, rest: string)
    requires forall i :: 0 <= i < |s| ==> s[i] < 256 as char
    ensures Decode(JsonString(s) + rest) == Some(Decoded(s, rest))
  {
    hide JsonPiece;
    CharsReadBack(s, rest);
    assert (JsonString(s) + rest)[1..] == All(JsonPieces(s)) + ("\"" + rest);
  }

  lemma {:induction false} CharsReadBack(s: string, rest: string)
    requires forall i :: 0 <= i < |s| ==> s[i] < 256 as char
    ensures DecodeChars(All(JsonPieces(s)) + ("\"" + rest)) == Some(Decoded(s, rest))
  {
    hide JsonPiece, All, JsonPieces;
    if s == "" {
      NoPieces();
      assert "" + ("\"" + rest) == "\"" + rest && ("\"" + rest)[1..] == rest;
    } else {
      PiecesFromFront(s);
      CharsReadBack(s[1..], rest);
      var tail := All(JsonPieces(s[1..])) + ("\"" + rest);
      PieceDecodes(s[0], tail);
      assert All(JsonPieces(s)) + ("\"" + rest) == JsonPiece(s[0]) + tail;
      assert [s[0]] + s[1..] == s;
    }
  }
}
