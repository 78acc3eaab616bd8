/** `CompatRegistryText`: merging registry values into a .reg file's text. */
module CompatRegistryText {
  import opened Text
  import opened Numbers
  import opened CompatModel
  import opened RegistryLines
  import opened RegistryEditLists

  // ---------------------------------------------------------------- a value's line

  function NameOf(v: RegistryValue): ValueName { if v.name == "" then Default else Named(v.name) }

  /** A dword written as decimal, or as 0x-prefixed or bare hex; 0 for anything else. */
  function Dword(text: string): nat {
    var trimmed := Trim(text, false);
    if "0x" <= Lower(trimmed) then Or(ParseUnsigned(trimmed[2..], Sixteen), 0)
    else Or(ParseUnsigned(trimmed, Ten), Or(ParseUnsigned(trimmed, Sixteen), 0))
  }

  function Or(value: Option<nat>, other: nat): nat { if value.Some? then value.value else other }

  /** Bytes as two hex digits each, separated by commas. */
  function HexBytes(bytes: seq<nat>): string { Join(seq(|bytes|, i requires 0 <= i < |bytes| => Hex(bytes[i] % 256, 2)), ",") }

  /** The UTF-16LE bytes of an ASCII string. */
  function Utf16(s: string): seq<nat> { if s == "" then [] else [s[0] as nat % 256, s[0] as nat / 256 % 256] + Utf16(s[1..]) }

  /** Each string with its terminator, then the terminator of the list. */
  function MultiBytes(strings: seq<string>): seq<nat> {
    if strings == [] then [0, 0] else Utf16(strings[0]) + [0, 0] + MultiBytes(strings[1..])
  }

  /** The bytes of a list of hex pairs; entries that are no byte are dropped. */
  function Bytes(parts: seq<string>): seq<nat> {
    if parts == [] then []
    else
      var first := ParseUnsigned(parts[0], Sixteen);
      (if first.Some? && first.value < 256 then [first.value] else []) + Bytes(parts[1..])
  }

  function Data(kind: Kind, text: string): string {
    match kind
    case RegDword => "dword:" + Hex(Dword(text), 8)
    case RegMultiSz => "hex(7):" + HexBytes(MultiBytes(Split(text, 0 as char)))
    case RegBinary => "hex:" + HexBytes(Bytes(Split(text, ' ')))
    case RegSz => "\"" + Escape(text) + "\""
  }

  /** The line that sets one value. */
  function Line(v: RegistryValue): string { Prefix(NameOf(v)) + Data(v.kind, v.text) }

  function EditOf(v: RegistryValue): Edit { Edit(v.key, NameOf(v), Line(v)) }

  function Edits(values: seq<RegistryValue>): (r: seq<Edit>)
    ensures |r| == |values| && forall i :: 0 <= i < |r| ==> r[i] == EditOf(values[i])
  {
    seq(|values|, i requires 0 <= i < |values| => EditOf(values[i]))
  }

  lemma EditsAreValid(values: seq<RegistryValue>)
    ensures ValidEdits(Edits(values))
  {
  }

  function Stamp(now: nat): string { " " + Decimal(now) }

  // ---------------------------------------------------------------- the merge

  /** The merged text. */
  function Merged(values: seq<RegistryValue>, text: string, now: nat): string {
    Join(PutAll(Split(text, '\n'), Edits(values), Stamp(now)), "\n")
  }

  /** How many values were added or changed: those whose line was not there at their turn. */
  function Changes(lines: seq<string>, edits: seq<Edit>, stamp: string): nat {
    if edits == [] then 0
    else
      var init, last := edits[..|edits| - 1], edits[|edits| - 1];
      Changes(lines, init, stamp) + (if Read(PutAll(lines, init, stamp), last.key, last.name) == Some(last.line) then 0 else 1)
  }

  /** The body of the merge loop: the value replaces its line, is added to its section, or is
      added with a new section, unless its line is there already. */
  method WriteValue(before: seq<string>, v: RegistryValue, stamp: string) returns (lines: seq<string>, wrote: bool)
    ensures lines == Put(before, EditOf(v), stamp)
    ensures wrote <==> Read(before, v.key, NameOf(v)) != Some(Line(v))
  {
    lines := before;
    var newLine := Line(v);
    wrote := true;
    var start := First(lines, 0, |lines|, Header(v.key));
    if start < |lines| {
      var end := FindSectionEnd(lines, start);
      var index := First(lines, start + 1, end, Prefix(NameOf(v)));
      if index < end {
        assert Locate(before, v.key, NameOf(v)) == At(index);
        if lines[index] == newLine {
          assert lines[index := newLine] == lines;
          return lines, false;
        }
        lines := lines[index := newLine];
      } else {
        var at := SkipBlanksBack(lines, start + 1, end);
        assert Locate(before, v.key, NameOf(v)) == NoLine(at);
        lines := lines[..at] + [newLine] + lines[at..];
      }
    } else {
      var content := SkipBlanksBack(lines, 0, |lines|);
      lines := lines[..content];
      lines := lines + ["", Header(v.key) + stamp, newLine, ""];
    }
  }

  lemma PutNext(lines: seq<string>, values: seq<RegistryValue>, i: nat, stamp: string)
    requires i < |values|
    ensures PutAll(lines, Edits(values[..i + 1]), stamp) == Put(PutAll(lines, Edits(values[..i]), stamp), EditOf(values[i]), stamp)
    ensures Changes(lines, Edits(values[..i + 1]), stamp) == Changes(lines, Edits(values[..i]), stamp) +
      (if Read(PutAll(lines, Edits(values[..i]), stamp), values[i].key, NameOf(values[i])) == Some(Line(values[i])) then 0 else 1)
  {
    hide EditOf, Put, Read, Line;
    var edits := Edits(values[..i + 1]);
    assert edits[..i] == Edits(values[..i]) && edits[i] == EditOf(values[i]);
    EditFields(values[i]);
  }

  lemma EditFields(v: RegistryValue)
    ensures EditOf(v).key == v.key && EditOf(v).name == NameOf(v) && EditOf(v).line == Line(v)
  {
  }

  /** The loop of `merge`: the values one after the other. */
  method MergeLines(start: seq<string>, values: seq<RegistryValue>, stamp: string) returns (lines: seq<string>, changed: nat)
    ensures lines == PutAll(start, Edits(values), stamp)
    ensures changed == Changes(start, Edits(values), stamp)
  {
    lines := start;
    changed := 0;
    for i := 0 to |values|
      invariant lines == PutAll(start, Edits(values[..i]), stamp)
      invariant changed == Changes(start, Edits(values[..i]), stamp)
    {
      var wrote: bool;
      lines, wrote := WriteValue(lines, values[i], stamp);
      PutNext(start, values, i, stamp);
      if wrote { changed := changed + 1; }
    }
    assert values[..|values|] == values;
  }

  method Merge(values: seq<RegistryValue>, text: string, now: nat) returns (out: string, changed: nat)
    ensures out == Merged(values, text, now)
    ensures changed == Changes(Split(text, '\n'), Edits(values), Stamp(now))
  {
    var lines := Split(text, '\n');
    lines, changed := MergeLines(lines, values, Stamp(now));
    out := Join(lines, "\n");
  }

  // ---------------------------------------------------------------- no line breaks, no surprises

  /** A value whose key, name and text have no line break. */
  predicate OneLine(v: RegistryValue) { '\n' !in v.key && '\n' !in v.name && '\n' !in v.text }

  lemma {:induction false} JoinKeepsOut(parts: seq<string>, sep: string, c: char)
    requires c !in sep && forall part :: part in parts ==> c !in part
    ensures c !in Join(parts, sep)
  {
    if |parts| > 1 { JoinKeepsOut(parts[1..], sep, c); }
  }

  lemma HexBytesOneLine(bytes: seq<nat>)
    ensures '\n' !in HexBytes(bytes)
  {
    var parts := seq(|bytes|, i requires 0 <= i < |bytes| => Hex(bytes[i] % 256, 2));
    forall part | part in parts ensures '\n' !in part {
      var i :| 0 <= i < |parts| && parts[i] == part;
      HexReads(bytes[i] % 256, 2);
    }
    JoinKeepsOut(parts, ",", '\n');
  }

  lemma OneLineData(kind: Kind, text: string)
    requires '\n' !in text
    ensures '\n' !in Data(kind, text)
  {
    match kind
    case RegDword => HexReads(Dword(text), 8);
    case RegMultiSz => HexBytesOneLine(MultiBytes(Split(text, 0 as char)));
    case RegBinary => HexBytesOneLine(Bytes(Split(text, ' ')));
    case RegSz => EscapeKeepsOut(text, '\n');
  }

  lemma OneLineEdit(v: RegistryValue)
    requires OneLine(v)
    ensures '\n' !in Line(v) && '\n' !in Header(v.key)
  {
    EscapeKeepsOut(v.key, '\n');
    EscapeKeepsOut(v.name, '\n');
    OneLineData(v.kind, v.text);
  }

  lemma StampOneLine(now: nat)
    ensures '\n' !in Stamp(now)
  {
    WriteIsDigits(now, Ten);
  }

  lemma EditsOneLine(values: seq<RegistryValue>, stamp: string)
    requires '\n' !in stamp && forall v :: v in values ==> OneLine(v)
    ensures forall e :: e in Edits(values) ==> '\n' !in e.line && '\n' !in Header(e.key) + stamp
  {
    forall i | 0 <= i < |values| ensures '\n' !in Line(values[i]) && '\n' !in Header(values[i].key) + stamp {
      OneLineEdit(values[i]);
    }
  }

  /** The lines of the merged text are the edited lines. */
  lemma MergedLines(values: seq<RegistryValue>, text: string, now: nat)
    requires forall v :: v in values ==> OneLine(v)
    ensures Split(Merged(values, text, now), '\n') == PutAll(Split(text, '\n'), Edits(values), Stamp(now))
  {
    var stamp, lines := Stamp(now), Split(text, '\n');
    StampOneLine(now);
    EditsOneLine(values, stamp);
    PutAllOneLine(lines, Edits(values), stamp);
    SplitJoin(PutAll(lines, Edits(values), stamp), '\n');
  }

  // ---------------------------------------------------------------- what the merged text says

  /** What a reader of the text finds for a value. */
  function ReadText(text: string, key: string, name: ValueName): Option<string> { Read(Split(text, '\n'), key, name) }

  /** The same key and the same name, letter case aside. */
  predicate SamePair(v: RegistryValue, w: RegistryValue) {
    Lower(v.key) == Lower(w.key) && SameName(NameOf(v), NameOf(w))
  }

  /** The index of the last value of the list for this pair. */
  predicate IsLastOfPair(values: seq<RegistryValue>, i: nat)
    requires i < |values|
  {
    forall j :: i < j < |values| ==> !SamePair(values[j], values[i])
  }

  /** Keys without "]" share a header line only when they are the same key. */
  lemma HeadersExclude(a: string, b: string, line: string)
    requires ']' !in a && ']' !in b
    requires Matches(Header(a), line) && Matches(Header(b), line)
    ensures Lower(a) == Lower(b)
  {
    LowerHeader(a);
    LowerHeader(b);
    PlainHeadersExclude(Lower(a), Lower(b), Lower(line));
  }

  lemma {:induction false} FirstStop(a: string, b: string, stop: char, line: string)
    requires stop !in a && stop !in b
    requires a + [stop] <= line && b + [stop] <= line
    ensures a == b
  {
    assert a == "" || (a + [stop])[0] in a;
    assert b == "" || (b + [stop])[0] in b;
    if a != "" && b != "" {
      assert (a + [stop])[1..] == a[1..] + [stop] && (b + [stop])[1..] == b[1..] + [stop];
      FirstStop(a[1..], b[1..], stop, line[1..]);
      assert a == [a[0]] + a[1..] && b == [b[0]] + b[1..];
    }
  }

  lemma HeaderTail(key: string, line: string)
    requires Header(key) <= line
    ensures Escape(key) + [']'] <= line[1..]
  {
    assert Header(key)[1..] == Escape(key) + [']'];
    assert Header(key)[1..] <= line[1..];
  }

  lemma EscapeInjective(a: string, b: string)
    requires Escape(a) == Escape(b)
    ensures a == b
  {
    QuotedInjective(a, b, "", "");
  }

  lemma PlainHeadersExclude(a: string, b: string, line: string)
    requires ']' !in a && ']' !in b
    requires Header(a) <= line && Header(b) <= line
    ensures a == b
  {
    EscapeKeepsOut(a, ']');
    EscapeKeepsOut(b, ']');
    HeaderTail(a, line);
    HeaderTail(b, line);
    FirstStop(Escape(a), Escape(b), ']', line[1..]);
    EscapeInjective(a, b);
  }

  /** The second value takes the line of the first in some text. */
  predicate Clashes(v: RegistryValue, w: RegistryValue) {
    SameName(NameOf(v), NameOf(w)) && HeadersMeet(v.key, w.key) && Line(v) != Line(w)
  }

  /** Values in one section of a text have headers that meet. */
  lemma SharedSectionMeets(lines: seq<string>, v: RegistryValue, w: RegistryValue)
    requires Section(lines, v.key) == Section(lines, w.key) < |lines|
    ensures HeadersMeet(v.key, w.key)
  {
    var line := Lower(lines[Section(lines, v.key)]);
    PrefixesMeet(Lower(Header(v.key)), Lower(Header(w.key)), line);
  }

  lemma SameAsItself(a: ValueName)
    ensures SameName(a, a)
  {
  }

  lemma NamesSymmetric(a: ValueName, b: ValueName)
    ensures SameName(a, b) <==> SameName(b, a)
  {
  }

  lemma {:induction false} UnclashedIsLastLine(lines: seq<string>, values: seq<RegistryValue>, n: nat, i: nat)
    requires i < n <= |values| && forall j :: i < j < n ==> !Clashes(values[i], values[j])
    requires forall v :: v in values ==> Section(lines, v.key) < |lines|
    ensures LastLine(lines, Edits(values[..n]), values[i].key, NameOf(values[i])) == Some(Line(values[i]))
  {
    hide Section, SameName, Line, Lower, HeadersMeet;
    var last, edits := values[n - 1], Edits(values[..n]);
    assert edits[..n - 1] == Edits(values[..n - 1]) && edits[n - 1] == EditOf(last);
    assert last in values && values[i] in values;
    NamesSymmetric(NameOf(last), NameOf(values[i]));
    SameAsItself(NameOf(values[i]));
    if n - 1 > i {
      if Section(lines, last.key) == Section(lines, values[i].key) { SharedSectionMeets(lines, values[i], last); }
      UnclashedIsLastLine(lines, values, n - 1, i);
    }
  }

  /** After the merge a value is what a reader finds for its key and name, if no later value of the
      list clashes with it. */
  lemma LastValueWins(values: seq<RegistryValue>, text: string, now: nat, i: nat)
    requires forall v :: v in values ==> OneLine(v)
    requires i < |values| && forall j :: i < j < |values| ==> !Clashes(values[i], values[j])
    ensures ReadText(Merged(values, text, now), values[i].key, NameOf(values[i])) == Some(Line(values[i]))
  {
    hide Clashes;
    var edits, lines, stamp := Edits(values), Split(text, '\n'), Stamp(now);
    MergedLines(values, text, now);
    EditsAreValid(values);
    AllSections(values, lines, stamp);
    LastEditWins(lines, edits, stamp, values[i].key, NameOf(values[i]));
    assert values[..|values|] == values;
    UnclashedIsLastLine(PutAll(lines, edits, stamp), values, |values|, i);
  }

  lemma AllSections(values: seq<RegistryValue>, lines: seq<string>, stamp: string)
    ensures var after := PutAll(lines, Edits(values), stamp); forall v :: v in values ==> Section(after, v.key) < |after|
  {
    var after := PutAll(lines, Edits(values), stamp);
    EditsAreValid(values);
    forall v | v in values ensures Section(after, v.key) < |after| {
      var j :| 0 <= j < |values| && values[j] == v;
      AllHaveSections(lines, Edits(values), stamp, Edits(values)[j]);
    }
  }

  /** Where no key holds a "]" the last value given for a pair clashes with no later one. */
  lemma PlainKeysNeverClash(values: seq<RegistryValue>, i: nat)
    requires forall v :: v in values ==> ']' !in v.key
    requires i < |values| && IsLastOfPair(values, i)
    ensures forall j :: i < j < |values| ==> !Clashes(values[i], values[j])
  {
    hide SameName, Line;
    forall j | i < j < |values| ensures !Clashes(values[i], values[j]) {
      NamesSymmetric(NameOf(values[i]), NameOf(values[j]));
      assert values[i] in values && values[j] in values;
      if HeadersMeet(values[i].key, values[j].key) { PlainHeadersMeet(values[i].key, values[j].key); }
    }
  }

  lemma PlainHeadersMeet(a: string, b: string)
    requires ']' !in a && ']' !in b && HeadersMeet(a, b)
    ensures Lower(a) == Lower(b)
  {
    var longer := if Lower(Header(a)) <= Lower(Header(b)) then Header(b) else Header(a);
    HeadersExclude(a, b, longer);
  }

  // ---------------------------------------------------------------- again, and everything else

  /** Merging the same list again yields the same text. */
  lemma MergeAgain(values: seq<RegistryValue>, text: string, now: nat, later: nat)
    requires forall v :: v in values ==> OneLine(v)
    ensures Merged(values, Merged(values, text, now), later) == Merged(values, text, now)
  {
    MergedLines(values, text, now);
    EditsAreValid(values);
    RepeatChangesNothing(Split(text, '\n'), Edits(values), Stamp(now), Stamp(later));
  }

  /** Every line with content stays, in order, unless it was the line of one of the values;
      between them there are only blank lines, the values' lines and new headers. */
  lemma MergeKeepsOtherLines(values: seq<RegistryValue>, text: string, now: nat) returns (f: seq<nat>)
    requires forall v :: v in values ==> OneLine(v)
    ensures Keeps(Split(text, '\n'), Split(Merged(values, text, now), '\n'), Edits(values), Stamp(now), f)
  {
    MergedLines(values, text, now);
    EditsAreValid(values);
    f := EditsKeepOtherLines(Split(text, '\n'), Edits(values), Stamp(now));
  }

  /** Nothing is counted as changed exactly when the text holds every value's line already,
      and then the text comes back as it was. */
  lemma {:induction false} NoChanges(lines: seq<string>, edits: seq<Edit>, stamp: string)
    ensures Changes(lines, edits, stamp) == 0 <==> forall e :: e in edits ==> Read(lines, e.key, e.name) == Some(e.line)
    ensures Changes(lines, edits, stamp) == 0 ==> PutAll(lines, edits, stamp) == lines
  {
    if edits != [] {
      var init, last := edits[..|edits| - 1], edits[|edits| - 1];
      assert edits == init + [last];
      NoChanges(lines, init, stamp);
      if Changes(lines, init, stamp) == 0 && Read(lines, last.key, last.name) == Some(last.line) {
        var slot := Locate(lines, last.key, last.name);
        assert lines[slot.index := last.line] == lines;
      }
    }
  }
}
