/** Wine .reg text as lines: "[Key] <time>" section headers with one "name"=value line per
    value below them. Both registry editors of the app find a value in the same way, by the
    first header with a prefix and the first line in its section with a prefix, letter case
    aside. This module has that search, the edit it leads to, and their laws. */
module RegistryLines {
  import opened Text

  /** A value's name in its line: "@=" for the default value, else the quoted name. */
  datatype ValueName = Default | Named(name: string)

  function Prefix(n: ValueName): string {
    match n
    case Default => "@="
    case Named(name) => "\"" + Quoted(name, "=")
  }

  function Header(key: string): string { "[" + Escape(key) + "]" }

  /** The two ways to write the same name, letter case aside. */
  predicate SameName(a: ValueName, b: ValueName) {
    match (a, b)
    case (Default, Default) => true
    case (Named(x), Named(y)) => Lower(x) == Lower(y)
    case _ => false
  }

  /** `line.lowercased().hasPrefix(prefix.lowercased())` */
  predicate Matches(prefix: string, line: string) { Lower(prefix) <= Lower(line) }

  /** `line.hasPrefix("[")` */
  predicate OpensSection(line: string) { line != "" && line[0] == '[' }

  // ---------------------------------------------------------------- searching

  /** `firstIndex(where:)` over lines[lo..hi]; `hi` when there is none. */
  function First(lines: seq<string>, lo: nat, hi: nat, prefix: string): (r: nat)
    requires lo <= hi <= |lines|
    ensures lo <= r <= hi
    ensures r < hi ==> Matches(prefix, lines[r])
    ensures forall k :: lo <= k < r ==> !Matches(prefix, lines[k])
    decreases hi - lo
  {
    if lo == hi || Matches(prefix, lines[lo]) then lo else First(lines, lo + 1, hi, prefix)
  }

  /** The next section header at or after `lo`, or the end of the text. */
  function SectionEnd(lines: seq<string>, lo: nat): (r: nat)
    requires lo <= |lines|
    ensures lo <= r <= |lines|
    ensures r < |lines| ==> OpensSection(lines[r])
    ensures forall k :: lo <= k < r ==> !OpensSection(lines[k])
    decreases |lines| - lo
  {
    if lo == |lines| || OpensSection(lines[lo]) then lo else SectionEnd(lines, lo + 1)
  }

  /** The end of lines[lo..hi] without its trailing blank lines. */
  function ContentEnd(lines: seq<string>, lo: nat, hi: nat): (r: nat)
    requires lo <= hi <= |lines|
    ensures lo <= r <= hi
    ensures forall k :: r <= k < hi ==> IsBlank(lines[k])
    ensures r > lo ==> !IsBlank(lines[r - 1])
  {
    if hi > lo && IsBlank(lines[hi - 1]) then ContentEnd(lines, lo, hi - 1) else hi
  }

  /** The loop over a section's lines for its end, shared by both editors. */
  method FindSectionEnd(lines: seq<string>, start: nat) returns (end: nat)
    requires start < |lines|
    ensures end == SectionEnd(lines, start + 1)
  {
    end := start + 1;
    while end < |lines| && !OpensSection(lines[end])
      invariant start < end <= |lines|
      invariant SectionEnd(lines, end) == SectionEnd(lines, start + 1)
    {
      end := end + 1;
    }
  }

  /** The loop back over trailing blank lines, shared by both places that add lines. */
  method SkipBlanksBack(lines: seq<string>, lo: nat, hi: nat) returns (at: nat)
    requires lo <= hi <= |lines|
    ensures at == ContentEnd(lines, lo, hi)
  {
    at := hi;
    while at > lo && IsBlank(lines[at - 1])
      invariant lo <= at <= hi
      invariant ContentEnd(lines, lo, at) == ContentEnd(lines, lo, hi)
    {
      at := at - 1;
    }
  }

  function Trimmed(lines: seq<string>): seq<string> { lines[..ContentEnd(lines, 0, |lines|)] }

  /** The line of the section a key's values are in; |lines| when the text has none. */
  function Section(lines: seq<string>, key: string): (r: nat)
    ensures r <= |lines|
  {
    First(lines, 0, |lines|, Header(key))
  }

  /** Where a value is: nowhere with no section, nowhere in its section, or at a line. */
  datatype Slot = NoSection | NoLine(at: nat) | At(index: nat)

  function Locate(lines: seq<string>, key: string, name: ValueName): (slot: Slot)
    ensures slot.NoSection? <==> Section(lines, key) == |lines|
    ensures slot.NoLine? ==> Section(lines, key) < slot.at <= |lines|
    ensures slot.At? ==> Section(lines, key) < slot.index < |lines| && Matches(Prefix(name), lines[slot.index])
  {
    var start := Section(lines, key);
    if start == |lines| then NoSection
    else
      var end := SectionEnd(lines, start + 1);
      var index := First(lines, start + 1, end, Prefix(name));
      if index < end then At(index) else NoLine(ContentEnd(lines, start + 1, end))
  }

  /** The line a reader of the text finds for a value. */
  function Read(lines: seq<string>, key: string, name: ValueName): Option<string> {
    match Locate(lines, key, name)
    case At(index) => Some(lines[index])
    case _ => None
  }

  // ---------------------------------------------------------------- editing

  /** One value to write. */
  datatype Edit = Edit(key: string, name: ValueName, line: string)

  ghost predicate ValidEdit(e: Edit) { Prefix(e.name) <= e.line }

  /** The text with the value's line replaced, added at the end of its section's content, or
      added in a new section at the end of the text. */
  function Put(lines: seq<string>, e: Edit, stamp: string): seq<string> {
    match Locate(lines, e.key, e.name)
    case At(index) => lines[index := e.line]
    case NoLine(at) => lines[..at] + [e.line] + lines[at..]
    case NoSection => Trimmed(lines) + ["", Header(e.key) + stamp, e.line, ""]
  }

  function PutAll(lines: seq<string>, edits: seq<Edit>, stamp: string): seq<string> {
    if edits == [] then lines
    else Put(PutAll(lines, edits[..|edits| - 1], stamp), edits[|edits| - 1], stamp)
  }

  // ---------------------------------------------------------------- what lines match

  lemma LowerHeader(key: string)
    ensures Lower(Header(key)) == Header(Lower(key))
  {
    LowerEscape(key);
  }

  lemma LowerPrefix(name: string)
    ensures Lower(Prefix(Named(name))) == Prefix(Named(Lower(name)))
  {
    LowerEscape(name);
  }

  /** A value's line is neither a header nor blank. */
  lemma ValueLine(name: ValueName, line: string)
    requires Matches(Prefix(name), line)
    ensures !OpensSection(line) && !IsBlank(line)
  {
    assert Lower(line)[0] == Lower(Prefix(name))[0];
    assert line[0] == '\"' || line[0] == '@';
  }

  lemma HeaderLine(key: string, line: string)
    requires Matches(Header(key), line)
    ensures OpensSection(line) && !IsBlank(line)
  {
    LowerHeader(key);
    assert Lower(line)[0] == '[';
    assert line[0] == '[';
  }

  lemma ValueIsNoHeader(name: ValueName, line: string, key: string)
    requires Matches(Prefix(name), line)
    ensures !Matches(Header(key), line)
  {
    ValueLine(name, line);
    if Matches(Header(key), line) { HeaderLine(key, line); }
  }

  lemma BlankIsNoValue(line: string, name: ValueName)
    requires IsBlank(line)
    ensures !Matches(Prefix(name), line)
  {
    if Matches(Prefix(name), line) { ValueLine(name, line); }
  }

  lemma BlankIsNoHeader(line: string, key: string)
    requires IsBlank(line)
    ensures !OpensSection(line) && !Matches(Header(key), line)
  {
    if Matches(Header(key), line) { HeaderLine(key, line); }
  }

  lemma NamedLine(name: string, line: string) returns (rest: string)
    requires Prefix(Named(name)) <= line
    ensures line[1..] == Quoted(name, "=" + rest)
  {
    var p := Prefix(Named(name));
    rest := line[|p|..];
    assert line == p + rest;
    assert p[1..] == Quoted(name, "=");
    assert ("\"" + "=") + rest == "\"" + ("=" + rest);
  }

  lemma QuotedNamesExclude(a: string, b: string, line: string)
    requires Prefix(Named(a)) <= line && Prefix(Named(b)) <= line
    ensures a == b
  {
    var ra := NamedLine(a, line);
    var rb := NamedLine(b, line);
    QuotedInjective(a, b, "=" + ra, "=" + rb);
  }

  /** No line is the line of two different names. */
  lemma NamesExclude(a: ValueName, b: ValueName, line: string)
    requires Matches(Prefix(a), line)
    ensures Matches(Prefix(b), line) <==> SameName(a, b)
  {
    if a.Named? && b.Named? {
      LowerPrefix(a.name);
      LowerPrefix(b.name);
      if Matches(Prefix(b), line) {
        QuotedNamesExclude(Lower(a.name), Lower(b.name), Lower(line));
      }
    } else if a != b {
      assert Lower(line)[0] == Lower(Prefix(a))[0];
      assert Lower(Prefix(a))[0] != Lower(Prefix(b))[0];
    }
  }

  // ---------------------------------------------------------------- keys that share a header

  /** One key's header begins the other's, letter case aside. It does for equal keys and, when
      a key holds a "]", for some different ones. */
  predicate HeadersMeet(a: string, b: string) {
    Lower(Header(a)) <= Lower(Header(b)) || Lower(Header(b)) <= Lower(Header(a))
  }

  lemma PrefixesMeet(a: string, b: string, line: string)
    requires a <= line && b <= line
    ensures a <= b || b <= a
  {
  }
}
