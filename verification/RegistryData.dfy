/** Reading the data of a value's line, the way Wine reads a .reg file: what a program finds in the
    registry after the merge. The reader is written from the file's format alone. */
module RegistryData {
  import opened Text
  import opened Numbers
  import opened CompatModel
  import opened RegistryLines
  import opened CompatRegistryText

  /** What a value holds. */
  datatype Stored = Number(n: nat) | Words(s: string) | Raw(bytes: seq<nat>) | Strings(parts: seq<string>)

  // ---------------------------------------------------------------- the reader

  /** One digit of a lowercase hexadecimal number. */
  function HexDigit(c: char): Option<nat> {
    if '0' <= c <= '9' then Some(c as nat - 48) else if 'a' <= c <= 'f' then Some(c as nat - 87) else None
  }

  /** Hex digits, the highest first. */
  function HexNumber(s: string): Option<nat> {
    if s == "" then Some(0)
    else
      var high, low := HexNumber(s[..|s| - 1]), HexDigit(s[|s| - 1]);
      if high.Some? && low.Some? then Some(16 * high.value + low.value) else None
  }

  /** The text up to the quote that ends it, with its escapes undone; nothing may follow. */
  function Unescaped(s: string): Option<string> {
    if s == "" then None
    else if s[0] == '\"' then if |s| == 1 then Some("") else None
    else if s[0] == '\\' then
      if |s| < 2 then None
      else
        var rest := Unescaped(s[2..]);
        if rest.Some? then Some([s[1]] + rest.value) else None
    else
      var rest := Unescaped(s[1..]);
      if rest.Some? then Some([s[0]] + rest.value) else None
  }

  /** Bytes of two hex digits each, with commas between them. */
  function ByteList(s: string): Option<seq<nat>> {
    if s == "" then Some([])
    else if |s| < 2 then None
    else
      var first := HexNumber(s[..2]);
      if first.None? then None
      else if |s| == 2 then Some([first.value])
      else if s[2] != ',' || |s| == 3 then None
      else
        var rest := ByteList(s[3..]);
        if rest.Some? then Some([first.value] + rest.value) else None
  }

  /** Strings of two-byte characters, low byte first, each ended by a zero, up to an empty one. */
  function StringList(bytes: seq<nat>, current: string): seq<string> {
    if |bytes| < 2 then []
    else
      var unit := bytes[0] + 256 * bytes[1];
      if unit == 0 then if current == "" then [] else [current] + StringList(bytes[2..], "")
      else if unit < 0xD800 then StringList(bytes[2..], current + [unit as char])
      else []
  }

  const DWORD := "dword:"
  const HEX := "hex:"
  const HEX7 := "hex(7):"

  /** The data behind the "=" of a line. */
  function ReadData(s: string): Option<Stored> {
    if DWORD <= s then
      var n := HexNumber(s[|DWORD|..]);
      if |s| == |DWORD| + 8 && n.Some? then Some(Number(n.value)) else None
    else if HEX7 <= s then
      var bytes := ByteList(s[|HEX7|..]);
      if bytes.Some? then Some(Strings(StringList(bytes.value, ""))) else None
    else if HEX <= s then
      var bytes := ByteList(s[|HEX|..]);
      if bytes.Some? then Some(Raw(bytes.value)) else None
    else if s != "" && s[0] == '\"' then
      var text := Unescaped(s[1..]);
      if text.Some? then Some(Words(text.value)) else None
    else None
  }

  /** What the line of a value says, for a reader who looks for its name. */
  function ReadLine(line: string, name: ValueName): Option<Stored> {
    if Matches(Prefix(name), line) then ReadData(line[|Prefix(name)|..]) else None
  }

  /** What a text says about a value. */
  function Find(text: string, key: string, name: ValueName): Option<Stored> {
    var line := ReadText(text, key, name);
    if line.Some? then ReadLine(line.value, name) else None
  }

  lemma LineIsRead(v: RegistryValue)
    ensures ReadLine(Line(v), NameOf(v)) == ReadData(Data(v.kind, v.text))
  {
    hide Data, ReadData;
    var prefix, data := Prefix(NameOf(v)), Data(v.kind, v.text);
    LowerConcat(prefix, data);
    assert (prefix + data)[|prefix|..] == data;
  }

  // ---------------------------------------------------------------- numbers

  lemma DigitOf(d: nat)
    requires d < 16
    ensures HexDigit(DigitChar(d)) == Some(d)
  {
  }

  lemma {:induction false} WrittenHex(n: nat)
    ensures HexNumber(Write(n, Sixteen)) == Some(n)
  {
    if n < 16 {
      DigitOf(n);
      assert [DigitChar(n)][..0] == "";
    } else {
      WrittenHex(n / 16);
      DigitOf(n % 16);
      var s := Write(n, Sixteen);
      assert s[..|s| - 1] == Write(n / 16, Sixteen) && s[|s| - 1] == DigitChar(n % 16);
    }
  }

  lemma {:induction false} ZeroInFront(s: string)
    ensures HexNumber("0" + s) == HexNumber(s)
  {
    if s == "" {
      assert ("0" + s)[..0] == "";
    } else {
      ZeroInFront(s[..|s| - 1]);
      assert ("0" + s)[..|s|] == "0" + s[..|s| - 1];
    }
  }

  lemma {:induction false} PaddedHex(s: string, width: nat)
    ensures HexNumber(PadZeros(s, width)) == HexNumber(s)
    ensures |PadZeros(s, width)| == if |s| >= width then |s| else width
    decreases width - |s|
  {
    if |s| < width {
      ZeroInFront(s);
      PaddedHex("0" + s, width);
    }
  }

  function Power16(k: nat): nat { if k == 0 then 1 else 16 * Power16(k - 1) }

  lemma {:induction false} HexLength(n: nat, k: nat)
    requires k > 0 && n < Power16(k)
    ensures |Write(n, Sixteen)| <= k
  {
    if n >= 16 {
      assert k > 1 by { assert Power16(1) == 16 * Power16(0) == 16; }
      HexLength(n / 16, k - 1);
    }
  }

  lemma FixedHex(n: nat, k: nat)
    requires k > 0 && n < Power16(k)
    ensures HexNumber(Hex(n, k)) == Some(n) && |Hex(n, k)| == k
  {
    WrittenHex(n);
    PaddedHex(Write(n, Sixteen), k);
    HexLength(n, k);
  }

  lemma EightDigits()
    ensures Power16(8) == 0x1_0000_0000 && Power16(2) == 256
  {
    assert Power16(4) == 0x1_0000;
  }

  /** A dword's data reads back as the number it was made from. */
  lemma DwordData(text: string)
    ensures ReadData(Data(RegDword, text)) == Some(Number(Dword(text)))
  {
    hide HexNumber, Hex, Dword;
    EightDigits();
    DwordFits(text);
    FixedHex(Dword(text), 8);
    var data := Data(RegDword, text);
    assert data[|DWORD|..] == Hex(Dword(text), 8);
  }

  lemma DwordFits(text: string)
    ensures Dword(text) < 0x1_0000_0000
  {
    hide ParseUnsigned;
  }

  lemma {:induction false} DecimalDigits(n: nat)
    ensures forall c :: c in Decimal(n) ==> '0' <= c <= '9'
  {
    DigitIsDecimal(n % 10);
    if n >= 10 {
      DecimalDigits(n / 10);
      assert Decimal(n) == Decimal(n / 10) + [DigitChar(n % 10)];
    } else {
      assert Decimal(n) == [DigitChar(n)];
    }
  }

  lemma DigitIsDecimal(d: nat)
    requires d < 10
    ensures '0' <= DigitChar(d) <= '9'
  {
  }

  lemma {:induction false} HexDigits(n: nat)
    ensures forall c :: c in Write(n, Sixteen) ==> '0' <= c <= '9' || 'a' <= c <= 'f'
  {
    if n >= 16 { HexDigits(n / 16); }
  }

  lemma SolidTrim(s: string)
    requires s != "" && forall c :: c in s ==> !IsSpace(c)
    ensures Trim(s, false) == s
  {
    assert s[0] in s && s[|s| - 1] in s;
    TrimKeeps(s, false);
  }

  lemma NoHexMark(s: string)
    requires forall c :: c in s ==> c != 'x' && c != 'X'
    ensures !("0x" <= Lower(s))
  {
    if |s| >= 2 { assert s[1] in s && Lower(s)[1] == LowerChar(s[1]) != 'x'; }
  }

  /** Decimal text is read as decimal. */
  lemma DecimalDword(n: nat)
    requires n < 0x1_0000_0000
    ensures Dword(Decimal(n)) == n
  {
    hide Trim, Write;
    DecimalDigits(n);
    SolidTrim(Decimal(n));
    NoHexMark(Decimal(n));
    WriteReads(n, Ten);
    WriteIsDigits(n, Ten);
    DigitsUnsigned(Decimal(n));
  }

  /** So is text with "0x" in front as hexadecimal. */
  lemma HexDword(n: nat)
    requires n < 0x1_0000_0000
    ensures Dword("0x" + Write(n, Sixteen)) == n
  {
    hide Trim, Write;
    var digits := Write(n, Sixteen);
    HexDigits(n);
    assert forall c :: c in "0x" + digits ==> !IsSpace(c);
    SolidTrim("0x" + digits);
    assert Lower("0x" + digits)[0] == '0' && Lower("0x" + digits)[1] == 'x';
    assert ("0x" + digits)[2..] == digits;
    WriteReads(n, Sixteen);
    WriteIsDigits(n, Sixteen);
    DigitsUnsigned(digits);
  }

  /** Hexadecimal text without the mark is read as such when it is no decimal number. */
  lemma BareHexDword(n: nat)
    requires n < 0x1_0000_0000 && exists c :: c in Write(n, Sixteen) && 'a' <= c <= 'f'
    ensures Dword(Write(n, Sixteen)) == n
  {
    hide Trim, Write;
    var digits := Write(n, Sixteen);
    HexDigits(n);
    SolidTrim(digits);
    NoHexMark(digits);
    WriteReads(n, Sixteen);
    WriteIsDigits(n, Sixteen);
    DigitsUnsigned(digits);
    NotDecimal(digits);
  }

  lemma {:induction false} NotDecimal(s: string)
    requires exists c :: c in s && 'a' <= c <= 'f'
    ensures Digits(s, Ten) == None
  {
    var c :| c in s && 'a' <= c <= 'f';
    var n := |s| - 1;
    assert s == s[..n] + [s[n]];
    if c != s[n] && n > 0 { NotDecimal(s[..n]); }
  }

  lemma {:induction false} NoNumber(s: string, radix: Radix)
    requires exists c :: c in s && DigitValue(c) >= 16
    ensures Digits(s, radix) == None
  {
    var c :| c in s && DigitValue(c) >= 16;
    var n := |s| - 1;
    assert s == s[..n] + [s[n]];
    if c != s[n] && n > 0 { NoNumber(s[..n], radix); }
  }

  lemma NotParsed(s: string, c: char, radix: Radix)
    requires c in s && DigitValue(c) >= 16 && c != '+' && c != '-'
    ensures ParseUnsigned(s, radix) == None
  {
    assert s == [s[0]] + s[1..];
    assert c in Unsign(s).1;
    NoNumber(Unsign(s).1, radix);
  }

  /** Text with anything else in it stands for 0. */
  lemma OtherDword(text: string, c: char)
    requires c in Trim(text, false) && DigitValue(c) >= 16 && c !in "+-xX"
    ensures Dword(text) == 0
  {
    hide Trim, ParseUnsigned;
    var s := Trim(text, false);
    assert '+' in "+-xX" && '-' in "+-xX" by { assert "+-xX"[0] == '+' && "+-xX"[1] == '-'; }
    if "0x" <= Lower(s) {
      assert "+-xX"[2] == 'x' && "+-xX"[3] == 'X';
      assert Lower(s)[0] == '0' && Lower(s)[1] == 'x';
      assert LowerChar(s[0]) == '0' && LowerChar(s[1]) == 'x';
      assert s == [s[0], s[1]] + s[2..];
      assert c != s[0] && c != s[1];
      NotParsed(s[2..], c, Sixteen);
    } else {
      NotParsed(s, c, Ten);
      NotParsed(s, c, Sixteen);
    }
  }

  lemma VendorDecimal()
    ensures Decimal(4318) == "4318"
  {
    assert Decimal(4) == "4";
    assert Decimal(43) == Decimal(4) + "3";
    assert Decimal(431) == Decimal(43) + "1";
    assert Decimal(4318) == Decimal(431) + "8";
  }

  lemma VendorHex()
    ensures Write(4318, Sixteen) == "10de"
  {
    assert Write(1, Sixteen) == "1";
    assert Write(16, Sixteen) == Write(1, Sixteen) + "0";
    assert Write(269, Sixteen) == Write(16, Sixteen) + "d";
    assert Write(4318, Sixteen) == Write(269, Sixteen) + "e";
  }

  lemma VendorPadded()
    ensures PadZeros("10de", 8) == "000010de"
  {
    assert "0" + "10de" == "010de" && "0" + "010de" == "0010de" && "0" + "0010de" == "00010de" && "0" + "00010de" == "000010de";
    assert PadZeros("00010de", 8) == PadZeros("000010de", 8) == "000010de";
    assert PadZeros("010de", 8) == PadZeros("0010de", 8) == PadZeros("00010de", 8);
  }

  /** The text of a vendor's number as the database has it, and as it stands in the file. */
  lemma VendorDword()
    ensures Dword("4318") == 4318 && Data(RegDword, "4318") == "dword:000010de"
  {
    hide Dword, Write, PadZeros;
    VendorDecimal();
    DecimalDword(4318);
    VendorHex();
    VendorPadded();
    assert "dword:" + "000010de" == "dword:000010de";
  }

  // ---------------------------------------------------------------- strings

  lemma {:induction false} EscapedReads(s: string)
    ensures Unescaped(Escape(s) + "\"") == Some(s)
  {
    if s != "" {
      EscapedReads(s[1..]);
      var c, rest := s[0], Escape(s[1..]) + "\"";
      var all := Escape(s) + "\"";
      assert all == EscapeChar(c) + rest;
      EscapeHead(c, rest);
      assert [s[0]] + s[1..] == s;
    }
  }

  /** A string's data reads back as the string, whatever it holds. */
  lemma StringData(text: string)
    ensures ReadData(Data(RegSz, text)) == Some(Words(text))
  {
    EscapedReads(text);
    var data := Data(RegSz, text);
    assert data[0] == '\"' && data[1..] == Escape(text) + "\"";
  }

  // ---------------------------------------------------------------- bytes

  function HexPairs(bytes: seq<nat>): (r: seq<string>)
    ensures |r| == |bytes| && forall i :: 0 <= i < |r| ==> r[i] == Hex(bytes[i] % 256, 2)
  {
    seq(|bytes|, i requires 0 <= i < |bytes| => Hex(bytes[i] % 256, 2))
  }

  lemma PairsTail(bytes: seq<nat>)
    requires bytes != [] && bytes[0] < 256
    ensures HexPairs(bytes) == [Hex(bytes[0], 2)] + HexPairs(bytes[1..])
    ensures HexPairs(bytes)[1..] == HexPairs(bytes[1..])
  {
    hide Hex;
    assert bytes[0] % 256 == bytes[0];
  }

  lemma PairAndRest(pair: string, rest: string, byte: nat)
    requires |pair| == 2 && HexNumber(pair) == Some(byte)
    ensures ByteList(pair) == Some([byte])
    ensures rest != "" && ByteList(rest).Some? ==> ByteList(pair + "," + rest) == Some([byte] + ByteList(rest).value)
  {
    hide HexNumber;
    var all := pair + "," + rest;
    assert pair[..2] == pair && all[..2] == pair && all[2] == ',' && all[3..] == rest;
  }

  lemma PairsStep(first: string, rest: seq<string>, byte: nat, tail: seq<nat>)
    requires |first| == 2 && HexNumber(first) == Some(byte) && ByteList(Join(rest, ",")) == Some(tail)
    requires rest == [] ==> tail == []
    requires rest != [] ==> rest[0] != ""
    ensures ByteList(Join([first] + rest, ",")) == Some([byte] + tail)
  {
    hide HexNumber, ByteList;
    PairAndRest(first, Join(rest, ","), byte);
    if rest != [] {
      JoinNotEmpty(rest);
      assert ([first] + rest)[1..] == rest;
    } else {
      assert [first] + rest == [first] && [byte] + tail == [byte];
    }
  }

  lemma {:induction false} PairsRead(bytes: seq<nat>)
    requires forall i :: 0 <= i < |bytes| ==> bytes[i] < 256
    ensures ByteList(Join(HexPairs(bytes), ",")) == Some(bytes)
  {
    hide Hex, HexNumber, HexPairs;
    if bytes != [] {
      hide ByteList, Join;
      EightDigits();
      FixedHex(bytes[0], 2);
      PairsTail(bytes);
      PairsRead(bytes[1..]);
      if |bytes| > 1 { FixedHex(bytes[1], 2); }
      PairsStep(Hex(bytes[0], 2), HexPairs(bytes[1..]), bytes[0], bytes[1..]);
      assert [bytes[0]] + bytes[1..] == bytes;
    }
  }

  lemma JoinNotEmpty(parts: seq<string>)
    requires parts != [] && parts[0] != ""
    ensures Join(parts, ",") != ""
  {
  }

  /** Bytes, written as hex pairs with blanks between them. */
  function ByteText(bytes: seq<nat>): string { Join(HexPairs(bytes), " ") }

  lemma {:induction false} PairBytes(bytes: seq<nat>)
    requires forall i :: 0 <= i < |bytes| ==> bytes[i] < 256
    ensures Bytes(HexPairs(bytes)) == bytes
  {
    if bytes != [] {
      hide Hex, ParseUnsigned, HexPairs;
      PairsTail(bytes);
      ParseHex(bytes[0], 2);
      PairBytes(bytes[1..]);
      assert [bytes[0]] + bytes[1..] == bytes;
    }
  }

  lemma PairsSolid(bytes: seq<nat>)
    ensures forall part :: part in HexPairs(bytes) ==> ' ' !in part && part != ""
  {
    forall i | 0 <= i < |bytes| ensures ' ' !in HexPairs(bytes)[i] && HexPairs(bytes)[i] != "" {
      HexReads(bytes[i] % 256, 2);
      PaddedHex(Write(bytes[i] % 256, Sixteen), 2);
      assert ' ' !in DIGITS;
    }
  }

  /** Binary data reads back as its bytes. */
  lemma BinaryData(bytes: seq<nat>)
    requires forall i :: 0 <= i < |bytes| ==> bytes[i] < 256
    ensures ReadData(Data(RegBinary, ByteText(bytes))) == Some(Raw(bytes))
  {
    hide ByteList, Bytes, HexBytes, Split, Join, HexPairs, ReadData;
    PairsRead(bytes);
    PairBytes(bytes);
    PairsSolid(bytes);
    SamePairs(bytes);
    if bytes == [] { NoBytes(); } else { SplitJoin(HexPairs(bytes), ' '); }
    assert Data(RegBinary, ByteText(bytes)) == HEX + HexBytes(bytes);
    BytesBehind(HexBytes(bytes));
  }

  lemma BytesBehind(list: string)
    ensures ReadData(HEX + list) == if ByteList(list).Some? then Some(Raw(ByteList(list).value)) else None
    ensures ReadData(HEX7 + list) == if ByteList(list).Some? then Some(Strings(StringList(ByteList(list).value, ""))) else None
  {
    hide ByteList, StringList;
    assert (HEX + list)[|HEX|..] == list && (HEX7 + list)[|HEX7|..] == list;
    assert (HEX + list)[3] == ':' && (HEX7 + list)[3] == '(' && (HEX + list)[0] == 'h' && (HEX7 + list)[0] == 'h';
  }

  lemma SamePairs(bytes: seq<nat>)
    ensures HexBytes(bytes) == Join(HexPairs(bytes), ",")
  {
    assert seq(|bytes|, i requires 0 <= i < |bytes| => Hex(bytes[i] % 256, 2)) == HexPairs(bytes);
  }

  lemma NoBytes()
    ensures Bytes(Split(ByteText([]), ' ')) == []
  {
    assert ByteText([]) == "" && Split("", ' ') == [""] && [""][1..] == [];
  }

  // ---------------------------------------------------------------- lists of strings

  /** A string that a list can hold: no zeros, and of ASCII characters. */
  ghost predicate Listable(s: string) { forall c :: c in s ==> 0 as char < c < 128 as char }

  lemma {:induction false} UnitsRead(s: string, current: string, rest: seq<nat>)
    requires Listable(s)
    ensures StringList(Utf16(s) + ([0, 0] + rest), current) == if current + s == "" then [] else [current + s] + StringList(rest, "")
  {
    var all := Utf16(s) + ([0, 0] + rest);
    if s == "" {
      assert all == [0, 0] + rest && all[2..] == rest && current + s == current;
    } else {
      var c := s[0];
      assert c in s && all[0] == c as nat && all[1] == 0;
      assert all[2..] == Utf16(s[1..]) + ([0, 0] + rest);
      assert forall x :: x in s[1..] ==> x in s;
      UnitsRead(s[1..], current + [c], rest);
      assert current + [c] + s[1..] == current + s;
    }
  }

  /** The strings before the first empty one. */
  function UpToEmpty(parts: seq<string>): seq<string> {
    if parts == [] || parts[0] == "" then [] else [parts[0]] + UpToEmpty(parts[1..])
  }

  lemma {:induction false} ListReads(parts: seq<string>)
    requires forall part :: part in parts ==> Listable(part)
    ensures StringList(MultiBytes(parts), "") == UpToEmpty(parts)
  {
    if parts != [] {
      var rest := MultiBytes(parts[1..]);
      assert parts[0] in parts && forall part :: part in parts[1..] ==> part in parts;
      ListReads(parts[1..]);
      UnitsRead(parts[0], "", rest);
      assert MultiBytes(parts) == Utf16(parts[0]) + ([0, 0] + rest);
      assert "" + parts[0] == parts[0];
    }
  }

  lemma {:induction false} AllListed(parts: seq<string>)
    ensures UpToEmpty(parts) == parts <==> "" !in parts
  {
    if parts != [] {
      AllListed(parts[1..]);
      assert parts == [parts[0]] + parts[1..];
    }
  }

  lemma {:induction false} ListedBytes(parts: seq<string>)
    ensures forall i :: 0 <= i < |MultiBytes(parts)| ==> MultiBytes(parts)[i] < 256
  {
    if parts != [] {
      ListedBytes(parts[1..]);
      UnitBytes(parts[0]);
    }
  }

  lemma {:induction false} UnitBytes(s: string)
    ensures forall i :: 0 <= i < |Utf16(s)| ==> Utf16(s)[i] < 256
  {
    if s != "" { UnitBytes(s[1..]); }
  }

  const NUL := 0 as char

  /** A list of strings reads back up to its first empty string: whole exactly when none is empty. */
  lemma ListData(parts: seq<string>)
    requires parts != [] && forall part :: part in parts ==> Listable(part)
    ensures ReadData(Data(RegMultiSz, Join(parts, [NUL]))) == Some(Strings(UpToEmpty(parts)))
    ensures UpToEmpty(parts) == parts <==> "" !in parts
  {
    hide ByteList, StringList, MultiBytes, HexBytes, Split, Join, ReadData;
    SplitJoin(parts, NUL);
    ListedBytes(parts);
    PairsRead(MultiBytes(parts));
    SamePairs(MultiBytes(parts));
    ListReads(parts);
    AllListed(parts);
    assert Data(RegMultiSz, Join(parts, [NUL])) == HEX7 + HexBytes(MultiBytes(parts));
    BytesBehind(HexBytes(MultiBytes(parts)));
  }

  // ---------------------------------------------------------------- in the merged text

  /** What a value of the database stands for. */
  ghost predicate Means(v: RegistryValue, stored: Stored) {
    match v.kind
    case RegDword => exists n: nat :: n < 0x1_0000_0000 && stored == Number(n) && IsNumberText(v.text, n)
    case RegSz => stored == Words(v.text)
    case RegBinary => exists bytes :: (forall i :: 0 <= i < |bytes| ==> bytes[i] < 256) && stored == Raw(bytes) && v.text == ByteText(bytes)
    case RegMultiSz => exists parts :: parts != [] && stored == Strings(parts) && IsListText(v.text, parts)
  }

  /** Decimal digits, or "0x" and hex digits. */
  predicate IsNumberText(text: string, n: nat) { text == Decimal(n) || text == "0x" + Write(n, Sixteen) }

  ghost predicate IsListText(text: string, parts: seq<string>) {
    text == Join(parts, [NUL]) && forall part :: part in parts ==> part != "" && Listable(part)
  }

  lemma DataMeans(v: RegistryValue, stored: Stored)
    requires Means(v, stored)
    ensures ReadData(Data(v.kind, v.text)) == Some(stored)
  {
    hide ReadData, Data, Dword, Write;
    match v.kind
    case RegDword =>
      var n: nat :| n < 0x1_0000_0000 && stored == Number(n) && IsNumberText(v.text, n);
      DwordData(v.text);
      DecimalDword(n);
      HexDword(n);
    case RegSz => StringData(v.text);
    case RegBinary =>
      var bytes :| (forall i :: 0 <= i < |bytes| ==> bytes[i] < 256) && stored == Raw(bytes) && v.text == ByteText(bytes);
      BinaryData(bytes);
    case RegMultiSz =>
      var parts :| parts != [] && stored == Strings(parts) && IsListText(v.text, parts);
      ListData(parts);
  }

  /** After the merge a program that looks for a value finds what the value means: the number, the
      text, the bytes or the strings, if no later value of the list clashes with it. */
  lemma MergedValueIsFound(values: seq<RegistryValue>, text: string, now: nat, i: nat, stored: Stored)
    requires forall v :: v in values ==> OneLine(v)
    requires i < |values| && (forall j :: i < j < |values| ==> !Clashes(values[i], values[j])) && Means(values[i], stored)
    ensures Find(Merged(values, text, now), values[i].key, NameOf(values[i])) == Some(stored)
  {
    hide Clashes, ReadText, Merged, OneLine, Means, ReadLine, ReadData, Data, Line;
    LastValueWins(values, text, now, i);
    LineIsRead(values[i]);
    DataMeans(values[i], stored);
  }

  // ---------------------------------------------------------------- what the lines of a file look like

  /** A text without backslashes and quotes. */
  predicate IsPlain(s: string) { '\\' !in s && '\"' !in s }

  lemma {:induction false} KeyIsEscaped(parts: seq<string>)
    requires forall i :: 0 <= i < |parts| ==> IsPlain(parts[i])
    ensures Escape(Join(parts, "\\")) == Join(parts, "\\\\")
  {
    if |parts| == 1 {
      PlainEscape(parts[0]);
    } else if |parts| > 1 {
      KeyIsEscaped(parts[1..]);
      PlainEscape(parts[0]);
      EscapeConcat(parts[0] + "\\", Join(parts[1..], "\\"));
      EscapeConcat(parts[0], "\\");
      assert Escape("\\") == "\\\\";
    }
  }

  /** The header of a key is its parts in brackets, with two backslashes between them; the name of a
      value stands in quotes before the "=", and "@" stands for none. */
  lemma LinesOfAKey(parts: seq<string>, name: string)
    requires IsPlain(name) && forall i :: 0 <= i < |parts| ==> IsPlain(parts[i])
    ensures Header(Join(parts, "\\")) == "[" + Join(parts, "\\\\") + "]"
    ensures Prefix(Named(name)) == "\"" + name + "\"=" && Prefix(Default) == "@="
  {
    hide Join;
    KeyIsEscaped(parts);
    PlainEscape(name);
  }

  lemma WithoutBlanks(lines: seq<string>)
    ensures Trimmed(lines) == lines[..ContentEnd(lines, 0, |lines|)]
    ensures |Trimmed(lines)| > 0 ==> !IsBlank(lines[|Trimmed(lines)| - 1])
    ensures forall k :: |Trimmed(lines)| <= k < |lines| ==> IsBlank(lines[k])
  {
  }

  /** A value of a key that the text does not have: behind the text's content come an empty line, the
      key's header with the time, the value's line and the end of the last line. */
  lemma NewKeyIsAppended(v: RegistryValue, text: string, now: nat) returns (n: nat)
    requires OneLine(v) && forall i :: 0 <= i < |Split(text, '\n')| ==> !(Lower(Header(v.key)) <= Lower(Split(text, '\n')[i]))
    ensures n <= |Split(text, '\n')| && forall k :: n <= k < |Split(text, '\n')| ==> IsBlank(Split(text, '\n')[k])
    ensures n > 0 ==> !IsBlank(Split(text, '\n')[n - 1])
    ensures Split(Merged([v], text, now), '\n') == Split(text, '\n')[..n] + ["", Header(v.key) + " " + Decimal(now), Line(v), ""]
  {
    hide Header, Line, Lower;
    var lines := Split(text, '\n');
    MergedLines([v], text, now);
    assert Section(lines, v.key) == |lines|;
    WithoutBlanks(lines);
    n := |Trimmed(lines)|;
    var edits := Edits([v]);
    assert edits[..0] == [];
    assert PutAll(lines, edits, Stamp(now)) == Put(lines, EditOf(v), Stamp(now));
    assert Header(v.key) + (" " + Decimal(now)) == Header(v.key) + " " + Decimal(now);
  }
}
