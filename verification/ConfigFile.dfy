/** The configuration file (`MadeiraConfig`): reading all keys, and setting or removing one while
    every other line stays. */
module ConfigFile {
  import opened Text

  // ---------------------------------------------------------------- lines

  predicate EndsInReturn(line: string) { line != "" && line[|line| - 1] == '\r' }

  /** A line without the "\r" of its "\r\n". */
  function DropReturn(line: string): string { if EndsInReturn(line) then line[..|line| - 1] else line }

  function DropReturns(lines: seq<string>): (r: seq<string>)
    ensures |r| == |lines| && forall i :: 0 <= i < |r| ==> r[i] == DropReturn(lines[i])
  {
    seq(|lines|, i requires 0 <= i < |lines| => DropReturn(lines[i]))
  }

  /** `split` at the Characters "\n" and "\r\n": the last piece ends no line and keeps its "\r". */
  function LinesOf(text: string): (r: seq<string>)
    ensures r != []
  {
    var pieces := Split(text, '\n');
    DropReturns(pieces[..|pieces| - 1]) + [pieces[|pieces| - 1]]
  }

  /** `firstIndex(of:)`; |s| when the character is not there. */
  function IndexOf(s: string, c: char): (i: nat)
    ensures i <= |s| && (i < |s| ==> s[i] == c) && forall j :: 0 <= j < i ==> s[j] != c
  {
    if s == "" || s[0] == c then 0 else IndexOf(s[1..], c) + 1
  }

  datatype Setting = Setting(key: string, value: string)

  /** What a line sets: nothing for a comment, a line without "=", and one without a key. */
  function SettingOf(line: string): Option<Setting> {
    var t := Trim(line, false);
    if t == "" || t[0] == '#' then None
    else
      var eq := IndexOf(t, '=');
      if eq == |t| then None
      else
        var key := Trim(t[..eq], false);
        if key == "" then None else Some(Setting(key, Trim(t[eq + 1..], false)))
  }

  /** All settings of some lines, the last one for a key wins. */
  function MapOf(lines: seq<string>): map<string, string> {
    if lines == [] then map[]
    else
      var before, last := MapOf(lines[..|lines| - 1]), SettingOf(lines[|lines| - 1]);
      if last.None? then before else before[last.value.key := last.value.value]
  }

  // ---------------------------------------------------------------- setting a key

  /** A line that setting the key takes away. */
  predicate IsFor(line: string, key: string) {
    var t := Trim(line, false);
    !(t != "" && t[0] == '#') && IndexOf(t, '=') < |t| && Trim(t[..IndexOf(t, '=')], false) == key
  }

  function Others(lines: seq<string>, key: string): seq<string> {
    if lines == [] then []
    else
      var last := lines[|lines| - 1];
      Others(lines[..|lines| - 1], key) + (if IsFor(last, key) then [] else [last])
  }

  /** The lines without one trailing empty line. */
  function Trailed(lines: seq<string>): seq<string> {
    if lines != [] && lines[|lines| - 1] == "" then lines[..|lines| - 1] else lines
  }

  function NewLine(key: string, value: string): string { key + " = " + value }

  function KeptLines(text: string, key: string): seq<string> { Others(Trailed(LinesOf(text)), key) }

  function SetLines(text: string, key: string, value: Option<string>): seq<string> {
    KeptLines(text, key) + if value.Some? then [NewLine(key, value.value)] else []
  }

  function SetText(text: string, key: string, value: Option<string>): string {
    var lines := SetLines(text, key, value);
    Join(lines, "\n") + if lines == [] then "" else "\n"
  }

  class Config {
    var text: string

    constructor (text: string)
      ensures this.text == text
    {
      this.text := text;
    }

    /** `all` */
    method All() returns (out: map<string, string>)
      ensures out == MapOf(LinesOf(text))
    {
      hide Trim, IndexOf, LinesOf;
      out := map[];
      var lines := LinesOf(text);
      for i := 0 to |lines|
        invariant out == MapOf(lines[..i])
      {
        assert lines[..i + 1][..i] == lines[..i];
        var line := Trim(lines[i], false);
        if line == "" || line[0] == '#' { continue; }
        var eq := IndexOf(line, '=');
        if eq == |line| { continue; }
        var k := Trim(line[..eq], false);
        if k != "" { out := out[k := Trim(line[eq + 1..], false)]; }
      }
      assert lines[..|lines|] == lines;
    }

    /** `set` */
    method Set(key: string, value: Option<string>)
      modifies this
      ensures text == SetText(old(text), key, value)
    {
      hide IsFor, LinesOf;
      var lines := Trailed(LinesOf(text));
      var kept: seq<string> := [];
      for i := 0 to |lines|
        invariant kept == Others(lines[..i], key) && text == old(text)
      {
        assert lines[..i + 1][..i] == lines[..i];
        if !IsFor(lines[i], key) { kept := kept + [lines[i]]; }
      }
      assert lines[..|lines|] == lines && kept + [] == kept;
      if value.Some? { kept := kept + [NewLine(key, value.value)]; }
      text := Join(kept, "\n") + if kept == [] then "" else "\n";
    }
  }

  // ---------------------------------------------------------------- lines after setting

  /** A key `set` is called with: what reading a line can give as a key. */
  predicate IsKey(key: string) {
    key != "" && Trim(key, false) == key && key[0] != '#' && '=' !in key && '\n' !in key
  }

  /** A value of one line, trimmed. */
  predicate IsValue(value: string) { Trim(value, false) == value && '\n' !in value }

  lemma LinesHaveNoBreaks(text: string)
    ensures forall i :: 0 <= i < |LinesOf(text)| ==> '\n' !in LinesOf(text)[i]
  {
    var pieces := Split(text, '\n');
    forall i | 0 <= i < |LinesOf(text)| ensures '\n' !in LinesOf(text)[i] {
      assert pieces[i] in pieces;
    }
  }

  lemma {:induction false} OthersAreLines(lines: seq<string>, key: string)
    ensures forall line :: line in Others(lines, key) ==> line in lines && !IsFor(line, key)
  {
    hide IsFor;
    if lines != [] { OthersAreLines(lines[..|lines| - 1], key); }
  }

  /** The lines of the new text are the other lines in their order, then the new line, each without a
      final "\r", and an empty one after the last line break. */
  lemma SetKeepsOtherLines(text: string, key: string, value: Option<string>)
    requires '\n' !in key && (value.Some? ==> '\n' !in value.value)
    ensures LinesOf(SetText(text, key, value)) == DropReturns(SetLines(text, key, value)) + [""]
  {
    hide Others;
    var lines := SetLines(text, key, value);
    LinesHaveNoBreaks(text);
    OthersAreLines(Trailed(LinesOf(text)), key);
    forall line | line in lines ensures '\n' !in line {
      if line in KeptLines(text, key) {
        var i :| 0 <= i < |LinesOf(text)| && LinesOf(text)[i] == line;
      }
    }
    if lines == [] {
      assert Join(lines, "\n") + "" == "";
      assert Split("", '\n') == [""];
    } else {
      JoinEnds(lines);
    }
  }

  lemma JoinEnds(lines: seq<string>)
    requires lines != [] && forall line :: line in lines ==> '\n' !in line
    ensures LinesOf(Join(lines, "\n") + "\n") == DropReturns(lines) + [""]
  {
    var all := lines + [""];
    JoinMore(lines);
    assert forall part :: part in all ==> '\n' !in part;
    SplitJoin(all, '\n');
    assert all[..|all| - 1] == lines;
  }

  lemma {:induction false} JoinMore(lines: seq<string>)
    requires lines != []
    ensures Join(lines, "\n") + "\n" == Join(lines + [""], ['\n'])
  {
    if |lines| == 1 {
      assert lines + [""] == [lines[0], ""] && [lines[0], ""][1..] == [""];
      assert lines[0] + ['\n'] + "" == lines[0] + "\n";
    } else {
      JoinMore(lines[1..]);
      assert (lines + [""])[1..] == lines[1..] + [""];
      assert lines[0] + "\n" + Join(lines[1..], "\n") + "\n" == lines[0] + "\n" + (Join(lines[1..], "\n") + "\n");
    }
  }

  // ---------------------------------------------------------------- what reads back

  lemma MapOfMore(lines: seq<string>, line: string)
    ensures MapOf(lines + [line]) ==
      if SettingOf(line).None? then MapOf(lines) else MapOf(lines)[SettingOf(line).value.key := SettingOf(line).value.value]
  {
    assert (lines + [line])[..|lines|] == lines;
  }

  /** A line that sets the key is one that goes, and the other way round. */
  lemma ForIsSetting(line: string, key: string)
    requires IsKey(key)
    ensures IsFor(line, key) <==> SettingOf(line).Some? && SettingOf(line).value.key == key
  {
  }

  lemma OthersOfMore(lines: seq<string>, line: string, key: string)
    ensures Others(lines + [line], key) == if IsFor(line, key) then Others(lines, key) else Others(lines, key) + [line]
  {
    hide IsFor;
    assert (lines + [line])[..|lines|] == lines;
    assert Others(lines, key) + [] == Others(lines, key);
  }

  lemma {:induction false} OthersRead(lines: seq<string>, key: string)
    requires IsKey(key)
    ensures MapOf(Others(lines, key)) == MapOf(lines) - {key}
  {
    hide IsFor, SettingOf, IsKey;
    if lines != [] {
      var init, last := lines[..|lines| - 1], lines[|lines| - 1];
      OthersRead(init, key);
      ForIsSetting(last, key);
      assert lines == init + [last];
      MapOfMore(init, last);
      OthersOfMore(init, last, key);
      if !IsFor(last, key) { MapOfMore(Others(init, key), last); }
      hide MapOf, Others;
    }
  }

  /** Every line the old map comes from, but the trailing empty one. */
  lemma TrailedReads(lines: seq<string>)
    ensures MapOf(Trailed(lines)) == MapOf(lines)
  {
  }

  /** A key as it is has no blanks at its ends. */
  lemma TrimmedEnds(s: string)
    requires Trim(s, false) == s && s != ""
    ensures !IsSpace(s[0]) && !IsSpace(s[|s| - 1])
  {
    TrimLeftShorter(s);
    TrimRightShorter(TrimLeft(s, false));
    if IsSpace(s[0]) { TrimLeftShorter(s[1..]); }
  }

  lemma {:induction false} TrimLeftShorter(s: string)
    ensures |TrimLeft(s, false)| <= |s|
  {
    if s != "" && Trimmable(s[0], false) { TrimLeftShorter(s[1..]); }
  }

  lemma {:induction false} TrimRightShorter(s: string)
    ensures |TrimRight(s, false)| <= |s|
    ensures |s| > 0 && IsSpace(s[|s| - 1]) ==> |TrimRight(s, false)| < |s|
  {
    if s != "" && Trimmable(s[|s| - 1], false) { TrimRightShorter(s[..|s| - 1]); }
  }

  /** The new line sets the key to the value. */
  lemma NewLineReads(key: string, value: string)
    requires IsKey(key) && IsValue(value)
    ensures SettingOf(NewLine(key, value)) == Some(Setting(key, value))
  {
    hide TrimLeft, TrimRight, Trim, IndexOf;
    var t := Trim(NewLine(key, value), false);
    TrimmedEnds(key);
    TrimNewLine(key, value);
    TrimAfterKey(key);
    var head := key + " ";
    assert t[..|head|] == head && t[|head|] == (key + " =")[|head|] == '=';
    assert forall j :: 0 <= j < |head| ==> t[j] == head[j] && head[j] != '=';
    assert t[0] == key[0];
  }

  lemma TrimAfterKey(key: string)
    requires key != "" && !IsSpace(key[0]) && !IsSpace(key[|key| - 1])
    ensures Trim(key + " ", false) == key
  {
    var s := key + " ";
    assert TrimLeft(s, false) == s;
    assert s[..|s| - 1] == key;
    assert TrimRight(key, false) == key;
  }

  lemma TrimNewLine(key: string, value: string)
    requires key != "" && !IsSpace(key[0]) && Trim(value, false) == value
    ensures var t := Trim(NewLine(key, value), false); var n := |key| + 2;
      |t| >= n && t[..n] == key + " =" && Trim(t[n..], false) == value
  {
    var line := NewLine(key, value);
    assert TrimLeft(line, false) == line;
    if value == "" {
      var t := key + " =";
      assert line == t + " " && line[..|line| - 1] == t;
      assert TrimRight(t, false) == t;
      assert t[|key| + 2..] == "";
    } else {
      TrimmedEnds(value);
      assert line[|line| - 1] == value[|value| - 1];
      assert Trim(line, false) == line;
      var rest := line[|key| + 2..];
      assert rest == " " + value && rest[1..] == value;
      assert TrimLeft(value, false) == value && TrimRight(value, false) == value;
    }
  }

  // ---------------------------------------------------------------- carriage returns

  /** The last line of some lines that sets a key. */
  function LastLineFor(lines: seq<string>, key: string): Option<string> {
    if lines == [] then None
    else
      var last := lines[|lines| - 1];
      if SettingOf(last).Some? && SettingOf(last).value.key == key then Some(last) else LastLineFor(lines[..|lines| - 1], key)
  }

  predicate LastReturns(lines: seq<string>, key: string) {
    LastLineFor(lines, key).Some? && EndsInReturn(LastLineFor(lines, key).value)
  }

  lemma {:induction false} LastLineReads(lines: seq<string>, key: string)
    ensures key in MapOf(lines) <==> LastLineFor(lines, key).Some?
    ensures key in MapOf(lines) ==>
      SettingOf(LastLineFor(lines, key).value).Some? && SettingOf(LastLineFor(lines, key).value).value == Setting(key, MapOf(lines)[key])
  {
    hide SettingOf;
    if lines != [] { LastLineReads(lines[..|lines| - 1], key); }
  }

  lemma {:induction false} TrimLeftKeepsEnd(s: string, c: char)
    requires !IsSpace(c)
    ensures TrimLeft(s + [c], false) == TrimLeft(s, false) + [c]
  {
    if s == "" {
      assert s + [c] == [c];
    } else if IsSpace(s[0]) {
      TrimLeftKeepsEnd(s[1..], c);
      assert (s + [c])[1..] == s[1..] + [c];
    }
  }

  /** Text that ends in a "\r" is not trimmed at that end. */
  lemma TrimKeepsReturn(s: string)
    ensures Trim(s + "\r", false) == TrimLeft(s, false) + "\r"
  {
    TrimLeftKeepsEnd(s, '\r');
    assert s + ['\r'] == s + "\r";
  }

  lemma {:induction false} TrimRightKeepsHead(s: string, n: nat)
    requires n < |s| && !IsSpace(s[n])
    ensures n < |TrimRight(s, false)| && TrimRight(s, false) <= s
  {
    if IsSpace(s[|s| - 1]) { TrimRightKeepsHead(s[..|s| - 1], n); }
  }

  /** A setting whose line loses its final "\r" keeps its key and loses the "\r" of its value. */
  lemma ReturnChangesValue(line: string)
    requires EndsInReturn(line)
    ensures SettingOf(line).Some? <==> SettingOf(DropReturn(line)).Some?
    ensures SettingOf(line).Some? ==>
      SettingOf(line).value.key == SettingOf(DropReturn(line)).value.key && SettingOf(line).value.value != SettingOf(DropReturn(line)).value.value
  {
    hide TrimLeft, TrimRight, IndexOf;
    var s := line[..|line| - 1];
    assert line == s + "\r";
    TrimKeepsReturn(s);
    var u := TrimLeft(s, false);
    TrimLeftStarts(s);
    if u == "" {
      TrimNothing();
    } else {
      TrimRightKeepsHead(u, 0);
      var eq := IndexOf(u, '=');
      if eq < |u| {
        SameParts(u, eq);
      } else {
        TrimRightPart(u);
        assert '=' !in TrimRight(u, false);
      }
    }
  }

  lemma TrimNothing()
    ensures TrimRight("", false) == ""
  {
  }

  lemma {:induction false} TrimLeftStarts(s: string)
    ensures var u := TrimLeft(s, false); u != "" ==> !IsSpace(u[0])
  {
    if s != "" && IsSpace(s[0]) { TrimLeftStarts(s[1..]); }
  }

  lemma {:induction false} TrimRightPart(s: string)
    ensures forall i :: 0 <= i < |TrimRight(s, false)| ==> TrimRight(s, false)[i] in s
  {
    if s != "" && IsSpace(s[|s| - 1]) { TrimRightPart(s[..|s| - 1]); }
  }

  lemma {:induction false} TrimTwice(a: string)
    ensures Trim(TrimRight(a, false), false) == Trim(a, false)
  {
    if a != "" && IsSpace(a[|a| - 1]) {
      var b := a[..|a| - 1];
      TrimTwice(b);
      TrimDropsBlank(b, a[|a| - 1]);
      assert a == b + [a[|a| - 1]];
    }
  }

  lemma {:induction false} TrimDropsBlank(s: string, c: char)
    requires IsSpace(c)
    ensures Trim(s + [c], false) == Trim(s, false)
  {
    if s == "" {
      assert s + [c] == [c] && [c][1..] == "";
    } else if IsSpace(s[0]) {
      TrimDropsBlank(s[1..], c);
      assert (s + [c])[1..] == s[1..] + [c];
    } else {
      assert (s + [c])[..|s|] == s;
    }
  }

  /** Key and value of a line with and without its final "\r"; `u` is the line without the "\r",
      trimmed on the left. */
  lemma SameParts(u: string, eq: nat)
    requires u != "" && eq == IndexOf(u, '=') < |u| && !IsSpace(u[0])
    ensures IndexOf(u + "\r", '=') == eq
    ensures var t := TrimRight(u, false);
      && eq < |t| && IndexOf(t, '=') == eq && t[..eq] == (u + "\r")[..eq] && t[0] == u[0]
      && Trim(t[eq + 1..], false) != Trim((u + "\r")[eq + 1..], false)
  {
    hide TrimRight, Trim;
    var t := TrimRight(u, false);
    TrimRightKeepsHead(u, eq);
    SameIndex(u, t, eq);
    SameIndex(u + "\r", u, eq);
    var a, b := u[eq + 1..], (u + "\r")[eq + 1..];
    assert b == a + "\r";
    TrimRightTail(u, eq + 1);
    TrimTwice(a);
    ReturnIsLonger(a);
  }

  lemma ReturnIsLonger(a: string)
    ensures |Trim(a + "\r", false)| > |Trim(a, false)|
  {
    TrimKeepsReturn(a);
    TrimRightShorter(TrimLeft(a, false));
  }

  lemma SameIndex(u: string, t: string, eq: nat)
    requires t <= u && eq < |t| && u[eq] == '=' && forall j :: 0 <= j < eq ==> u[j] != '='
    ensures IndexOf(t, '=') == IndexOf(u, '=') == eq
  {
    assert t[eq] == '=' && forall j :: 0 <= j < eq ==> t[j] == u[j];
  }

  lemma {:induction false} TrimRightTail(s: string, n: nat)
    requires 0 < n <= |s| && !IsSpace(s[n - 1])
    ensures n <= |TrimRight(s, false)| && TrimRight(s, false)[n..] == TrimRight(s[n..], false)
  {
    if n < |s| && IsSpace(s[|s| - 1]) {
      TrimRightTail(s[..|s| - 1], n);
      assert s[n..][..|s[n..]| - 1] == s[..|s| - 1][n..];
    }
  }

  /** Dropping final returns keeps the map exactly when no key's last line ends in one. */
  lemma {:induction false} ReturnsMatter(lines: seq<string>)
    ensures MapOf(DropReturns(lines)).Keys == MapOf(lines).Keys
    ensures forall key :: key in MapOf(lines) ==>
      (MapOf(DropReturns(lines))[key] == MapOf(lines)[key] <==> !LastReturns(lines, key))
  {
    hide SettingOf, EndsInReturn, DropReturn;
    if lines != [] {
      var init, last := lines[..|lines| - 1], lines[|lines| - 1];
      ReturnsMatter(init);
      assert DropReturns(lines) == DropReturns(init) + [DropReturn(last)];
      assert lines == init + [last];
      MapOfMore(DropReturns(init), DropReturn(last));
      MapOfMore(init, last);
      DroppedSetting(last);
    }
  }

  lemma DroppedSetting(line: string)
    ensures SettingOf(line).Some? <==> SettingOf(DropReturn(line)).Some?
    ensures SettingOf(line).Some? ==> SettingOf(line).value.key == SettingOf(DropReturn(line)).value.key
    ensures SettingOf(line).Some? ==>
      (SettingOf(line).value.value == SettingOf(DropReturn(line)).value.value <==> !EndsInReturn(line))
  {
    if EndsInReturn(line) { ReturnChangesValue(line); }
  }

  // ---------------------------------------------------------------- reading after setting

  /** What should be read after setting a key. */
  function Updated(m: map<string, string>, key: string, value: Option<string>): map<string, string> {
    if value.Some? then m[key := value.value] else m - {key}
  }

  /** The last line of no other key, and not the new value, ends in a "\r". */
  ghost predicate NoReturns(text: string, key: string, value: Option<string>) {
    && (value.Some? ==> !EndsInReturn(value.value))
    && forall k :: k in MapOf(KeptLines(text, key)) ==> !LastReturns(KeptLines(text, key), k)
  }

  /** Setting a key changes that key and nothing else, exactly when no other key's last line and not
      the new value ends in a "\r": the line break that is written behind such a line makes it one
      "\r\n" for the next reader. */
  lemma ReadAfterSet(text: string, key: string, value: Option<string>)
    requires IsKey(key) && (value.Some? ==> IsValue(value.value))
    ensures MapOf(LinesOf(SetText(text, key, value))) == Updated(MapOf(LinesOf(text)), key, value) <==> NoReturns(text, key, value)
  {
    hide SettingOf, EndsInReturn, Others, LinesOf, MapOf, Find, Trim;
    var lines, kept := SetLines(text, key, value), KeptLines(text, key);
    SetKeepsOtherLines(text, key, value);
    EmptyLineReads(DropReturns(lines));
    OthersRead(Trailed(LinesOf(text)), key);
    TrailedReads(LinesOf(text));
    forall k { LastLineReads(kept, k); }
    ReturnsMatter(kept);
    if value.Some? {
      NewLineReads(key, value.value);
      var new_ := NewLine(key, value.value);
      NewLineEnds(key, value.value);
      assert DropReturns(lines) == DropReturns(kept) + [DropReturn(new_)];
      MapOfMore(DropReturns(kept), DropReturn(new_));
      DroppedSetting(new_);
      SameMaps(MapOf(DropReturns(kept)), MapOf(kept), key, SettingOf(DropReturn(new_)).value.value, value.value);
    } else {
      assert lines == kept;
    }
  }

  lemma NewLineEnds(key: string, value: string)
    ensures EndsInReturn(NewLine(key, value)) <==> EndsInReturn(value)
  {
  }

  lemma EmptyLineReads(lines: seq<string>)
    ensures MapOf(lines + [""]) == MapOf(lines)
  {
    MapOfMore(lines, "");
    assert Trim("", false) == "";
  }

  lemma SameMaps(a: map<string, string>, b: map<string, string>, key: string, x: string, y: string)
    requires key !in a && a.Keys == b.Keys
    ensures a[key := x] == b[key := y] <==> x == y && forall k :: k in b ==> a[k] == b[k]
  {
    if a[key := x] == b[key := y] {
      assert a[key := x][key] == b[key := y][key];
      forall k | k in b ensures a[k] == b[k] { assert a[key := x][k] == b[key := y][k]; }
    }
  }

  const RETURNED := NewLine("a", "1\r")

  lemma PlainWords()
    ensures IsKey("a") && IsKey("b") && IsValue("1\r") && IsValue("1") && IsValue("2")
  {
    TrimKeeps("a", false);
    TrimKeeps("b", false);
    TrimKeeps("1\r", false);
    TrimKeeps("1", false);
    TrimKeeps("2", false);
    hide Trim;
  }

  lemma ReturnedSettings()
    ensures SettingOf(RETURNED) == Some(Setting("a", "1\r")) && SettingOf(DropReturn(RETURNED)) == Some(Setting("a", "1"))
    ensures SettingOf(NewLine("b", "2")) == Some(Setting("b", "2")) && DropReturn(NewLine("b", "2")) == NewLine("b", "2")
    ensures !IsFor(RETURNED, "b")
  {
    hide Trim, IsFor, SettingOf, IsKey, IsValue;
    PlainWords();
    NewLineReads("a", "1\r");
    NewLineReads("a", "1");
    NewLineReads("b", "2");
    ForIsSetting(RETURNED, "b");
    assert DropReturn(RETURNED) == NewLine("a", "1");
  }

  lemma MapOfTwo(a: string, b: string)
    requires SettingOf(a).Some? && SettingOf(b).Some?
    ensures MapOf([a]) == map[SettingOf(a).value.key := SettingOf(a).value.value]
    ensures MapOf([a, b]) == MapOf([a])[SettingOf(b).value.key := SettingOf(b).value.value]
  {
    hide SettingOf;
    MapOfMore([], a);
    MapOfMore([a], b);
    assert [] + [a] == [a] && [a] + [b] == [a, b];
  }

  lemma ReturnedLines()
    ensures LinesOf(RETURNED) == [RETURNED] && KeptLines(RETURNED, "b") == [RETURNED]
  {
    hide IsFor, SettingOf;
    ReturnedSettings();
    assert '\n' !in RETURNED && RETURNED != "";
    hide NewLine;
    SplitWhole(RETURNED, '\n');
    assert [RETURNED][..0] == [] && DropReturns([]) + [RETURNED] == [RETURNED];
    assert Others([RETURNED], "b") == [] + [RETURNED];
  }

  /** A text of one line, "a = 1" and a return without a line break: setting "b" changes "a". */
  lemma ReturnIsLost()
    ensures MapOf(LinesOf(RETURNED)) == map["a" := "1\r"]
    ensures MapOf(LinesOf(SetText(RETURNED, "b", Some("2")))) == map["a" := "1", "b" := "2"]
  {
    hide SettingOf, IsFor, DropReturn, NewLine, SetText, MapOf, LinesOf, KeptLines;
    ReturnedSettings();
    ReturnedLines();
    var line := NewLine("b", "2");
    var lines := SetLines(RETURNED, "b", Some("2"));
    assert lines == [RETURNED, line];
    SetKeepsOtherLines(RETURNED, "b", Some("2"));
    assert DropReturns(lines) == [DropReturn(RETURNED), line];
    EmptyLineReads(DropReturns(lines));
    MapOfTwo(RETURNED, line);
    MapOfTwo(DropReturn(RETURNED), line);
  }
}
