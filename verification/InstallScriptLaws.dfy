/** Reading an install script undoes writing one: whatever the spacing and comments, the
    entries of all its "Run Process" sections come back in order with their fields. */
module InstallScriptLaws {
  import opened Text
  import opened Numbers
  import opened InstallRecords
  import opened InstallScripts

  // ---------------------------------------------------------------- writing tokens

  function PrintToken(token: Token): string {
    match token
    case Open => "{"
    case Close => "}"
    case Word(text) => "\"" + (Escape(text) + "\"")
  }

  /** Blanks and whole comment lines. */
  predicate IsGap(s: string)
    decreases |s|
  {
    s == "" || (s[0] <= ' ' && IsGap(s[1..])) || (StartsComment(s) && DropLine(s) != "" && IsGap(DropLine(s)))
  }

  /** The tokens written out with a gap before each of them and one at the end. */
  function Layout(tokens: seq<Token>, gaps: seq<string>): string
    requires |gaps| == |tokens| + 1
  {
    if tokens == [] then gaps[0] else gaps[0] + (PrintToken(tokens[0]) + Layout(tokens[1..], gaps[1..]))
  }

  ghost predicate AreGaps(gaps: seq<string>) { forall i :: 0 <= i < |gaps| ==> IsGap(gaps[i]) }

  lemma {:induction false} DropLineConcat(a: string, b: string)
    requires DropLine(a) != ""
    ensures DropLine(a + b) == DropLine(a) + b
  {
    if a != "" && a[0] != '\n' {
      DropLineConcat(a[1..], b);
      assert (a + b)[1..] == a[1..] + b;
    }
  }

  lemma {:induction false} GapIsSkipped(gap: string, rest: string)
    requires IsGap(gap)
    ensures SkipBlank(gap + rest) == SkipBlank(rest)
    decreases |gap|
  {
    if gap == "" {
      assert gap + rest == rest;
    } else if gap[0] <= ' ' {
      GapIsSkipped(gap[1..], rest);
      assert (gap + rest)[1..] == gap[1..] + rest;
    } else {
      DropLineConcat(gap, rest);
      GapIsSkipped(DropLine(gap), rest);
      assert StartsComment(gap + rest);
    }
  }

  lemma {:induction false} QuotedReads(text: string, rest: string, read: string)
    ensures QuotedToken(Quoted(text, rest), read) == Lexed(Word(read + text), rest)
  {
    QuotedStep(text, rest);
    var s := Quoted(text, rest);
    if text == "" {
      assert s[0] == '\"' && s[1..] == rest && read + text == read;
    } else {
      EscapeHead(text[0], Quoted(text[1..], rest));
      QuotedReads(text[1..], rest, read + [text[0]]);
      assert read + [text[0]] + text[1..] == read + text;
    }
  }

  lemma PrintedWordReads(text: string, rest: string)
    ensures NextToken(PrintToken(Word(text)) + rest) == Lexed(Word(text), rest)
  {
    var s := PrintToken(Word(text)) + rest;
    assert s[0] == '\"' && s[1..] == Quoted(text, rest);
    QuotedReads(text, rest, "");
    assert "" + text == text;
  }

  lemma PrintedBraceReads(token: Token, rest: string)
    requires !token.Word?
    ensures NextToken(PrintToken(token) + rest) == Lexed(token, rest)
  {
    assert (PrintToken(token) + rest)[1..] == rest;
  }

  lemma NextAfterGap(gap: string, s: string)
    requires IsGap(gap)
    ensures NextToken(gap + s) == NextToken(s)
  {
    GapIsSkipped(gap, s);
  }

  /** A written token is the next one after any gap. */
  lemma PrintedTokenReads(gap: string, token: Token, rest: string)
    requires IsGap(gap)
    ensures NextToken(gap + (PrintToken(token) + rest)) == Lexed(token, rest)
  {
    hide NextToken, PrintToken;
    NextAfterGap(gap, PrintToken(token) + rest);
    if token.Word? { PrintedWordReads(token.text, rest); } else { PrintedBraceReads(token, rest); }
  }

  /** Tokenizing undoes writing tokens, whatever stands between them. */
  lemma {:induction false} LayoutReads(tokens: seq<Token>, gaps: seq<string>)
    requires |gaps| == |tokens| + 1 && AreGaps(gaps)
    ensures Tokens(Layout(tokens, gaps)) == tokens
  {
    if tokens == [] {
      GapIsSkipped(gaps[0], "");
      assert gaps[0] + "" == gaps[0];
    } else {
      hide PrintToken, NextToken, IsGap;
      var rest := Layout(tokens[1..], gaps[1..]);
      PrintedTokenReads(gaps[0], tokens[0], rest);
      TokensStep(Layout(tokens, gaps), tokens[0], rest);
      LayoutReads(tokens[1..], gaps[1..]);
    }
  }

  // ---------------------------------------------------------------- writing scripts

  /** An entry as it is written: its name and its fields in order. */
  datatype Entry = Entry(name: string, fields: seq<(string, string)>)

  /** A "Run Process" section; `title` is its key as spelled in the script. */
  datatype Section = Section(title: string, entries: seq<Entry>)

  function FieldTokens(fields: seq<(string, string)>): seq<Token> {
    if fields == [] then [] else [Word(fields[0].0), Word(fields[0].1)] + FieldTokens(fields[1..])
  }

  function EntryTokens(entry: Entry): seq<Token> { [Word(entry.name), Open] + (FieldTokens(entry.fields) + [Close]) }

  function EntriesTokens(entries: seq<Entry>): seq<Token> {
    if entries == [] then [] else EntryTokens(entries[0]) + EntriesTokens(entries[1..])
  }

  function SectionTokens(section: Section): seq<Token> { [Word(section.title), Open] + (EntriesTokens(section.entries) + [Close]) }

  function SectionsTokens(sections: seq<Section>): seq<Token> {
    if sections == [] then [] else SectionTokens(sections[0]) + SectionsTokens(sections[1..])
  }

  function ScriptTokens(root: string, sections: seq<Section>): seq<Token> {
    [Word(root), Open] + (SectionsTokens(sections) + [Close])
  }

  function AllEntries(sections: seq<Section>): seq<Entry> {
    if sections == [] then [] else sections[0].entries + AllEntries(sections[1..])
  }

  /** The fields as a reader keeps them: names folded, a later field over an earlier one. */
  function FieldMap(read: Fields, fields: seq<(string, string)>): Fields
    decreases |fields|
  {
    if fields == [] then read else FieldMap(read[Lower(fields[0].0) := fields[0].1], fields[1..])
  }

  /** What a reader keeps of a list of entries. */
  function Kept(found: seq<Found>, entries: seq<Entry>, appID: Option<int>): seq<Found>
    decreases |entries|
  {
    if entries == [] then found
    else
      var fields := FieldMap(map[], entries[0].fields);
      Kept(Keep(found, RunOf(Lower(entries[0].name), fields, appID), fields), entries[1..], appID)
  }

  // ---------------------------------------------------------------- reading scripts

  lemma ParseStep(st: State, token: Token, rest: seq<Token>, n: nat, appID: Option<int>)
    requires n < MAX_TOKENS && |st.path| <= MAX_DEPTH
    ensures Parse(st, [token] + rest, n, appID) == Parse(Step(st, token, appID), rest, n + 1, appID)
  {
    hide Step;
    assert ([token] + rest)[1..] == rest;
  }

  /** A key and the "{" after it open a section. */
  lemma ParseOpen(st: State, key: string, rest: seq<Token>, n: nat, appID: Option<int>)
    requires n + 2 <= MAX_TOKENS && |st.path| < MAX_DEPTH && st.pending == None
    ensures var path := st.path + [Lower(key)];
      Parse(st, [Word(key), Open] + rest, n, appID)
        == Parse(State(st.found, path, None, if InEntry(path) then map[] else st.fields), rest, n + 2, appID)
  {
    hide Keep, RunOf;
    assert [Word(key), Open] + rest == [Word(key)] + ([Open] + rest);
    ParseStep(st, Word(key), [Open] + rest, n, appID);
    ParseStep(st.(pending := Some(key)), Open, rest, n + 1, appID);
  }

  lemma {:induction false} ParseFields(st: State, fields: seq<(string, string)>, rest: seq<Token>, n: nat, appID: Option<int>)
    requires n + |FieldTokens(fields)| <= MAX_TOKENS && |st.path| <= MAX_DEPTH && st.pending == None && InEntry(st.path)
    ensures Parse(st, FieldTokens(fields) + rest, n, appID)
      == Parse(st.(fields := FieldMap(st.fields, fields)), rest, n + |FieldTokens(fields)|, appID)
    decreases |fields|
  {
    hide Parse, Keep, RunOf, InEntry, Lower;
    if fields == [] {
      assert FieldTokens(fields) + rest == rest;
    } else {
      var key, value, tail := fields[0].0, fields[0].1, FieldTokens(fields[1..]) + rest;
      assert FieldTokens(fields) + rest == [Word(key)] + ([Word(value)] + tail);
      ParseStep(st, Word(key), [Word(value)] + tail, n, appID);
      ParseStep(st.(pending := Some(key)), Word(value), tail, n + 1, appID);
      ParseFields(st.(fields := st.fields[Lower(key) := value]), fields[1..], rest, n + 2, appID);
    }
  }

  lemma ParseEntry(st: State, entry: Entry, rest: seq<Token>, n: nat, appID: Option<int>)
    requires n + |EntryTokens(entry)| <= MAX_TOKENS && |st.path| < MAX_DEPTH && st.pending == None
    requires InEntry(st.path + [Lower(entry.name)])
    ensures var fields := FieldMap(map[], entry.fields);
      Parse(st, EntryTokens(entry) + rest, n, appID)
        == Parse(State(Keep(st.found, RunOf(Lower(entry.name), fields, appID), fields), st.path, None, fields), rest, n + |EntryTokens(entry)|, appID)
  {
    hide Parse, Keep, RunOf, InEntry, Lower;
    var fields, path := FieldMap(map[], entry.fields), st.path + [Lower(entry.name)];
    var tail := [Close] + rest;
    assert EntryTokens(entry) + rest == [Word(entry.name), Open] + (FieldTokens(entry.fields) + tail);
    ParseOpen(st, entry.name, FieldTokens(entry.fields) + tail, n, appID);
    ParseFields(State(st.found, path, None, map[]), entry.fields, tail, n + 2, appID);
    ParseStep(State(st.found, path, None, fields), Close, rest, n + 2 + |FieldTokens(entry.fields)|, appID);
    assert path[..|path| - 1] == st.path && path[|path| - 1] == Lower(entry.name);
  }

  /** Inside a "Run Process" section: what the entries leave in the variables. */
  lemma {:induction false} ParseEntries(st: State, entries: seq<Entry>, rest: seq<Token>, n: nat, appID: Option<int>) returns (fields: Fields)
    requires n + |EntriesTokens(entries)| <= MAX_TOKENS && 0 < |st.path| < MAX_DEPTH && st.pending == None
    requires st.path[|st.path| - 1] == RUN_PROCESS
    ensures Parse(st, EntriesTokens(entries) + rest, n, appID)
      == Parse(State(Kept(st.found, entries, appID), st.path, None, fields), rest, n + |EntriesTokens(entries)|, appID)
    decreases |entries|
  {
    hide Parse, Keep, RunOf, FieldMap;
    if entries == [] {
      fields := st.fields;
      assert EntriesTokens(entries) + rest == rest;
    } else {
      var own := FieldMap(map[], entries[0].fields);
      var tail := EntriesTokens(entries[1..]) + rest;
      assert EntriesTokens(entries) + rest == EntryTokens(entries[0]) + tail;
      ParseEntry(st, entries[0], tail, n, appID);
      var next := State(Keep(st.found, RunOf(Lower(entries[0].name), own, appID), own), st.path, None, own);
      fields := ParseEntries(next, entries[1..], rest, n + |EntryTokens(entries[0])|, appID);
    }
  }

  /** Below a root that is no "Run Process" section itself. */
  lemma ParseSection(st: State, section: Section, rest: seq<Token>, n: nat, appID: Option<int>) returns (fields: Fields)
    requires n + |SectionTokens(section)| <= MAX_TOKENS && |st.path| == 1 && st.pending == None
    requires st.path[0] != RUN_PROCESS && Lower(section.title) == RUN_PROCESS
    ensures Parse(st, SectionTokens(section) + rest, n, appID)
      == Parse(State(Kept(st.found, section.entries, appID), st.path, None, fields), rest, n + |SectionTokens(section)|, appID)
  {
    hide Parse, Kept, Keep, RunOf;
    var path, tail := st.path + [RUN_PROCESS], [Close] + rest;
    assert SectionTokens(section) + rest == [Word(section.title), Open] + (EntriesTokens(section.entries) + tail);
    ParseOpen(st, section.title, EntriesTokens(section.entries) + tail, n, appID);
    assert !InEntry(path);
    fields := ParseEntries(State(st.found, path, None, st.fields), section.entries, tail, n + 2, appID);
    ParseStep(State(Kept(st.found, section.entries, appID), path, None, fields), Close, rest, n + 2 + |EntriesTokens(section.entries)|, appID);
    assert path[..|path| - 1] == st.path;
  }

  lemma {:induction false} KeptConcat(found: seq<Found>, a: seq<Entry>, b: seq<Entry>, appID: Option<int>)
    ensures Kept(found, a + b, appID) == Kept(Kept(found, a, appID), b, appID)
    decreases |a|
  {
    hide Keep, RunOf, FieldMap;
    if a == [] {
      assert a + b == b;
    } else {
      var fields := FieldMap(map[], a[0].fields);
      KeptConcat(Keep(found, RunOf(Lower(a[0].name), fields, appID), fields), a[1..], b, appID);
      assert (a + b)[1..] == a[1..] + b && (a + b)[0] == a[0];
    }
  }

  lemma {:induction false} ParseSections(st: State, sections: seq<Section>, rest: seq<Token>, n: nat, appID: Option<int>) returns (fields: Fields)
    requires n + |SectionsTokens(sections)| <= MAX_TOKENS && |st.path| == 1 && st.pending == None
    requires st.path[0] != RUN_PROCESS && forall i :: 0 <= i < |sections| ==> Lower(sections[i].title) == RUN_PROCESS
    ensures Parse(st, SectionsTokens(sections) + rest, n, appID)
      == Parse(State(Kept(st.found, AllEntries(sections), appID), st.path, None, fields), rest, n + |SectionsTokens(sections)|, appID)
    decreases |sections|
  {
    hide Parse, Kept, Lower;
    if sections == [] {
      fields := st.fields;
      assert SectionsTokens(sections) + rest == rest;
      KeptNone(st.found, appID);
    } else {
      var tail := SectionsTokens(sections[1..]) + rest;
      assert SectionsTokens(sections) + rest == SectionTokens(sections[0]) + tail;
      fields := ParseSection(st, sections[0], tail, n, appID);
      var next := State(Kept(st.found, sections[0].entries, appID), st.path, None, fields);
      fields := ParseSections(next, sections[1..], rest, n + |SectionTokens(sections[0])|, appID);
      KeptConcat(st.found, sections[0].entries, AllEntries(sections[1..]), appID);
    }
  }

  lemma KeptNone(found: seq<Found>, appID: Option<int>)
    ensures Kept(found, [], appID) == found
  {
  }

  /** Parsing undoes writing: the entries of all "Run Process" sections come back in order, the
      way a reader keeps them, for any root key that is not "Run Process" itself, any spelling of
      the section keys and any spacing and comments. */
  lemma ScriptReadsBack(root: string, sections: seq<Section>, gaps: seq<string>, appID: Option<int>)
    requires Lower(root) != RUN_PROCESS && forall i :: 0 <= i < |sections| ==> Lower(sections[i].title) == RUN_PROCESS
    requires |ScriptTokens(root, sections)| <= MAX_TOKENS
    requires |gaps| == |ScriptTokens(root, sections)| + 1 && AreGaps(gaps)
    requires |Layout(ScriptTokens(root, sections), gaps)| <= MAX_BYTES
    ensures EntriesOf(Layout(ScriptTokens(root, sections), gaps), appID) == Kept([], AllEntries(sections), appID)
  {
    hide Parse, Kept, Layout, Lower, Keep, RunOf;
    var tokens := ScriptTokens(root, sections);
    LayoutReads(tokens, gaps);
    NoMark(tokens, gaps);
    assert tokens == [Word(root), Open] + (SectionsTokens(sections) + [Close]);
    ParseOpen(START, root, SectionsTokens(sections) + [Close], 0, appID);
    var path := [] + [Lower(root)];
    var fields := ParseSections(State([], path, None, map[]), sections, [Close], 2, appID);
    var st := State(Kept([], AllEntries(sections), appID), path, None, fields);
    assert [Close] == [Close] + [];
    ParseStep(st, Close, [], 2 + |SectionsTokens(sections)|, appID);
    ParseNothing(Step(st, Close, appID), 3 + |SectionsTokens(sections)|, appID);
  }

  lemma ParseNothing(st: State, n: nat, appID: Option<int>)
    ensures Parse(st, [], n, appID) == st
  {
  }

  /** A written script does not start with a byte order mark. */
  lemma NoMark(tokens: seq<Token>, gaps: seq<string>)
    requires |gaps| == |tokens| + 1 && AreGaps(gaps) && tokens != []
    requires |Layout(tokens, gaps)| <= MAX_BYTES
    ensures Body(Layout(tokens, gaps)) == Layout(tokens, gaps)
  {
    var text := Layout(tokens, gaps);
    assert text[0] == if gaps[0] == "" then PrintToken(tokens[0])[0] else gaps[0][0];
    assert IsGap(gaps[0]);
    assert text[0] != MARK[0];
  }

  // ---------------------------------------------------------------- writing runs

  /** A key the way a reader takes it: "/" for "\" and no empty parts. */
  function CleanKey(key: string): string { Join(Pieces(Backslashes(key), '\\'), "\\") }

  /** A run with what else its entry says. */
  datatype Wanted = Wanted(run: Run, others: seq<(string, string)>)

  predicate PlainField(field: (string, string)) { Lower(field.0) != HAS_RUN && Lower(field.0) != MINIMUM }

  /** The entry of a run: its key below the hive, its minimum value, then its other fields. */
  function EntryOf(w: Wanted): Entry {
    Entry(w.run.name, [("HasRunKey", HiveName(w.run.machine) + "\\" + w.run.key), ("MinimumHasRunValue", Decimal(w.run.value))] + w.others)
  }

  lemma {:induction false} BackslashesConcat(a: string, b: string)
    ensures Backslashes(a + b) == Backslashes(a) + Backslashes(b)
  {
    if a == "" {
      assert a + b == b;
    } else {
      BackslashesConcat(a[1..], b);
      assert (a + b)[1..] == a[1..] + b;
    }
  }

  lemma {:induction false} BackslashesKeeps(s: string)
    requires '/' !in s
    ensures Backslashes(s) == s
  {
    if s != "" { BackslashesKeeps(s[1..]); }
  }

  lemma HiveReads(hive: string, key: string)
    requires hive != "" && '\\' !in hive && '/' !in hive
    ensures Pieces(Backslashes(hive + "\\" + key), '\\') == [hive] + Pieces(Backslashes(key), '\\')
  {
    BackslashesConcat(hive + "\\", key);
    BackslashesKeeps(hive + "\\");
    SplitPiece(hive, '\\', Backslashes(key));
    assert hive + "\\" + Backslashes(key) == hive + ['\\'] + Backslashes(key);
    NonEmptyConcat([hive], Split(Backslashes(key), '\\'));
    assert [hive][1..] == [];
  }

  lemma HiveNamesAreHives(machine: bool, other: bool)
    ensures HiveName(machine) != "" && '\\' !in HiveName(machine) && '/' !in HiveName(machine)
    ensures IsHive(Lower(HiveName(machine)), other) <==> machine == other
  {
    LowerHiveNames();
    hide Lower;
  }

  lemma LowerHiveNames()
    ensures Lower(HiveName(true)) == "hkey_local_machine"
    ensures Lower(HiveName(false)) == "hkey_current_user"
  {
  }

  lemma HiveOfPrinted(machine: bool, key: string)
    ensures HiveOf(HiveName(machine) + "\\" + key) == Some(Place(machine, CleanKey(key)))
  {
    hide HiveName, IsHive, Lower, Pieces, Backslashes;
    HiveNamesAreHives(machine, true);
    HiveNamesAreHives(machine, false);
    HiveReads(HiveName(machine), key);
    var parts := Pieces(Backslashes(key), '\\');
    assert ([HiveName(machine)] + parts)[1..] == parts;
  }

  lemma {:induction false} FieldMapKeeps(read: Fields, fields: seq<(string, string)>)
    requires forall i :: 0 <= i < |fields| ==> PlainField(fields[i])
    requires HAS_RUN in read && MINIMUM in read
    ensures HAS_RUN in FieldMap(read, fields) && FieldMap(read, fields)[HAS_RUN] == read[HAS_RUN]
    ensures MINIMUM in FieldMap(read, fields) && FieldMap(read, fields)[MINIMUM] == read[MINIMUM]
    decreases |fields|
  {
    if fields != [] {
      assert PlainField(fields[0]);
      FieldMapKeeps(read[Lower(fields[0].0) := fields[0].1], fields[1..]);
    }
  }

  /** The entry of a run reads back as that run, up to the spelling of its key; a key without
      any part is no key at all. */
  lemma RunReadsBack(w: Wanted, appID: Option<int>)
    requires w.run.value >= 1 && forall i :: 0 <= i < |w.others| ==> PlainField(w.others[i])
    ensures RunOf(w.run.name, FieldMap(map[], EntryOf(w).fields), appID)
      == if CleanKey(w.run.key) == "" then None else Some(w.run.(key := CleanKey(w.run.key)))
  {
    hide HiveName, HiveOf, FieldMap, Minimum, CleanKey, Lower;
    var fields := FieldMap(map[], EntryOf(w).fields);
    FieldsOfEntry(w);
    HiveOfPrinted(w.run.machine, w.run.key);
    MinimumReads(fields, w.run.value);
  }

  lemma FieldsOfEntry(w: Wanted)
    requires forall i :: 0 <= i < |w.others| ==> PlainField(w.others[i])
    ensures var fields := FieldMap(map[], EntryOf(w).fields);
      && HAS_RUN in fields && fields[HAS_RUN] == HiveName(w.run.machine) + "\\" + w.run.key
      && MINIMUM in fields && fields[MINIMUM] == Decimal(w.run.value)
  {
    hide HiveName, Decimal;
    var path := HiveName(w.run.machine) + "\\" + w.run.key;
    var own := EntryOf(w).fields;
    assert Lower("HasRunKey") == HAS_RUN && Lower("MinimumHasRunValue") == MINIMUM && HAS_RUN[0] != MINIMUM[0];
    assert own[1..][1..] == w.others && own[1..][0] == own[1];
    assert FieldMap(map[], own) == FieldMap(map[HAS_RUN := path], own[1..]);
    FieldMapKeeps(map[HAS_RUN := path][MINIMUM := Decimal(w.run.value)], w.others);
  }

  lemma MinimumReads(fields: Fields, value: Word)
    requires MINIMUM in fields && fields[MINIMUM] == Decimal(value) && value >= 1
    ensures Minimum(fields) == value
  {
    var digits := Decimal(value);
    WriteReads(value, Ten);
    WriteIsDigits(value, Ten);
    DigitsUnsigned(digits);
    assert digits[0] in DIGITS && digits[|digits| - 1] in DIGITS;
    TrimKeeps(digits, false);
  }

  function EntriesFor(wanted: seq<Wanted>): (r: seq<Entry>)
    ensures |r| == |wanted| && forall i :: 0 <= i < |r| ==> r[i] == EntryOf(wanted[i])
  {
    seq(|wanted|, i requires 0 <= i < |wanted| => EntryOf(wanted[i]))
  }

  /** A run that an entry can hold as it is. */
  ghost predicate Printable(w: Wanted) {
    && Lower(w.run.name) == w.run.name && w.run.value >= 1 && w.run.key != "" && CleanKey(w.run.key) == w.run.key
    && forall i :: 0 <= i < |w.others| ==> PlainField(w.others[i])
  }

  lemma {:induction false} WantedAreKept(found: seq<Found>, wanted: seq<Wanted>, appID: Option<int>)
    requires forall i :: 0 <= i < |wanted| ==> Printable(wanted[i])
    requires forall i, j :: 0 <= i < j < |wanted| ==> wanted[i].run != wanted[j].run
    requires forall i, j :: 0 <= i < |found| && 0 <= j < |wanted| ==> found[i].run != wanted[j].run
    ensures var r := Kept(found, EntriesFor(wanted), appID);
      && |r| == |found| + |wanted| && found <= r
      && forall i :: 0 <= i < |wanted| ==> r[|found| + i] == Found(wanted[i].run, FieldMap(map[], EntryOf(wanted[i]).fields))
    decreases |wanted|
  {
    hide FieldMap, EntryOf, Printable, Kept;
    if wanted != [] {
      var next := found + [Found(wanted[0].run, FieldMap(map[], EntryOf(wanted[0]).fields))];
      FirstIsKept(found, wanted, appID);
      WantedAreKept(next, wanted[1..], appID);
    } else {
      KeptNone(found, appID);
      assert EntriesFor(wanted) == [];
    }
  }

  lemma FirstIsKept(found: seq<Found>, wanted: seq<Wanted>, appID: Option<int>)
    requires wanted != [] && Printable(wanted[0]) && !HasRun(found, wanted[0].run)
    ensures Kept(found, EntriesFor(wanted), appID)
      == Kept(found + [Found(wanted[0].run, FieldMap(map[], EntryOf(wanted[0]).fields))], EntriesFor(wanted[1..]), appID)
  {
    hide RunOf, FieldMap, EntryOf, CleanKey, Lower, PlainField, HasRun;
    RunReadsBack(wanted[0], appID);
    NameOfEntry(wanted[0]);
    assert EntriesFor(wanted)[1..] == EntriesFor(wanted[1..]);
  }

  lemma NameOfEntry(w: Wanted)
    ensures EntryOf(w).name == w.run.name
  {
  }

  /** Any list of distinct runs, spread over any number of "Run Process" sections, reads back as
      exactly that list with each run's fields. */
  lemma RunsReadBack(wanted: seq<Wanted>, root: string, sections: seq<Section>, gaps: seq<string>, appID: Option<int>)
    requires forall i :: 0 <= i < |wanted| ==> Printable(wanted[i])
    requires forall i, j :: 0 <= i < j < |wanted| ==> wanted[i].run != wanted[j].run
    requires AllEntries(sections) == EntriesFor(wanted)
    requires Lower(root) != RUN_PROCESS && forall i :: 0 <= i < |sections| ==> Lower(sections[i].title) == RUN_PROCESS
    requires |ScriptTokens(root, sections)| <= MAX_TOKENS
    requires |gaps| == |ScriptTokens(root, sections)| + 1 && AreGaps(gaps)
    requires |Layout(ScriptTokens(root, sections), gaps)| <= MAX_BYTES
    ensures EntriesOf(Layout(ScriptTokens(root, sections), gaps), appID)
      == seq(|wanted|, i requires 0 <= i < |wanted| => Found(wanted[i].run, FieldMap(map[], EntryOf(wanted[i]).fields)))
  {
    hide Kept, EntriesOf, Layout, FieldMap, EntryOf, Printable, Lower, AreGaps;
    ScriptReadsBack(root, sections, gaps, appID);
    WantedAreKept([], wanted, appID);
  }
}
