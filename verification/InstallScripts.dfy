/** Reading Steam install scripts: the tokenizer and the section parser of
    `SteamInstallScripts.entries`. A script is a sequence of bytes, each a character. */
module InstallScripts {
  import opened Text
  import opened Numbers
  import opened InstallRecords

  // ---------------------------------------------------------------- tokens

  datatype Token = Open | Close | Word(text: string)

  datatype Lexed = End | Lexed(token: Token, rest: string)

  /** What follows the rest of a line; its line break stays. */
  function DropLine(s: string): (r: string)
    ensures |r| <= |s| && (s != "" && s[0] != '\n' ==> |r| < |s|)
  {
    if s == "" || s[0] == '\n' then s else DropLine(s[1..])
  }

  predicate StartsComment(s: string) { |s| > 1 && s[0] == '/' && s[1] == '/' }

  /** What follows blanks and comments. */
  function SkipBlank(s: string): (r: string)
    ensures |r| <= |s|
    ensures r != "" ==> r[0] > ' ' && !StartsComment(r)
    decreases |s|
  {
    if s != "" && s[0] <= ' ' then SkipBlank(s[1..])
    else if StartsComment(s) then SkipBlank(DropLine(s))
    else s
  }

  /** A quoted text up to its closing quote: a backslash stands for the quote or backslash
      after it, and for itself before anything else. */
  function QuotedToken(s: string, read: string): (r: Lexed)
    ensures r.Lexed? && |r.rest| <= |s|
    decreases |s|
  {
    if s == "" then Lexed(Word(read), "")
    else if s[0] == '\"' then Lexed(Word(read), s[1..])
    else if s[0] == '\\' && |s| > 1 && (s[1] == '\"' || s[1] == '\\') then QuotedToken(s[2..], read + [s[1]])
    else QuotedToken(s[1..], read + [s[0]])
  }

  function WordToken(s: string, read: string): (r: Lexed)
    ensures r.Lexed? && |r.rest| <= |s|
  {
    if s == "" || s[0] <= ' ' || s[0] == '{' || s[0] == '}' then Lexed(Word(read), s)
    else WordToken(s[1..], read + [s[0]])
  }

  /** `token()`: the next token; it takes at least one byte. */
  function NextToken(s: string): (r: Lexed)
    ensures r.Lexed? ==> |r.rest| < |s|
    ensures r.End? <==> SkipBlank(s) == ""
  {
    var t := SkipBlank(s);
    if t == "" then End
    else if t[0] == '{' then Lexed(Open, t[1..])
    else if t[0] == '}' then Lexed(Close, t[1..])
    else if t[0] == '\"' then QuotedToken(t[1..], "")
    else WordToken(t[1..], [t[0]])
  }

  function Tokens(s: string): seq<Token>
    decreases |s|
  {
    var next := NextToken(s);
    if next.End? then [] else [next.token] + Tokens(next.rest)
  }

  method SkipBlanks(bytes: string, position: nat) returns (at: nat)
    requires position <= |bytes|
    ensures position <= at <= |bytes| && bytes[at..] == SkipBlank(bytes[position..])
  {
    at := position;
    while at < |bytes|
      invariant position <= at <= |bytes|
      invariant SkipBlank(bytes[at..]) == SkipBlank(bytes[position..])
    {
      var here := bytes[at..];
      assert here[1..] == bytes[at + 1..];
      if bytes[at] <= ' ' { at := at + 1; continue; }
      if bytes[at] == '/' && at + 1 < |bytes| && bytes[at + 1] == '/' {
        assert here[1] == bytes[at + 1];
        at := SkipLine(bytes, at);
        continue;
      }
      assert !StartsComment(here);
      break;
    }
  }

  method SkipLine(bytes: string, position: nat) returns (at: nat)
    requires position < |bytes| && bytes[position] == '/'
    ensures position < at <= |bytes| && bytes[at..] == DropLine(bytes[position..])
  {
    at := position;
    while at < |bytes| && bytes[at] != '\n'
      invariant position <= at <= |bytes|
      invariant DropLine(bytes[at..]) == DropLine(bytes[position..])
      invariant at == position ==> bytes[at] != '\n'
    {
      assert bytes[at..][1..] == bytes[at + 1..];
      at := at + 1;
    }
  }

  method ReadQuoted(bytes: string, position: nat) returns (value: string, at: nat)
    requires position <= |bytes|
    ensures position <= at <= |bytes| && QuotedToken(bytes[position..], "") == Lexed(Word(value), bytes[at..])
  {
    value, at := "", position;
    while at < |bytes|
      invariant position <= at <= |bytes|
      invariant QuotedToken(bytes[at..], value) == QuotedToken(bytes[position..], "")
    {
      var byte := bytes[at];
      assert bytes[at..][1..] == bytes[at + 1..];
      at := at + 1;
      if byte == '\"' { return; }
      if byte == '\\' && at < |bytes| && (bytes[at] == '\"' || bytes[at] == '\\') {
        assert bytes[at - 1..][2..] == bytes[at + 1..] && bytes[at - 1..][1] == bytes[at];
        value := value + [bytes[at]];
        at := at + 1;
      } else {
        assert |bytes[at - 1..]| > 1 ==> bytes[at - 1..][1] == bytes[at];
        value := value + [byte];
      }
    }
  }

  method ReadWord(bytes: string, position: nat, first: char) returns (value: string, at: nat)
    requires position <= |bytes|
    ensures position <= at <= |bytes| && WordToken(bytes[position..], [first]) == Lexed(Word(value), bytes[at..])
  {
    value, at := [first], position;
    while at < |bytes| && bytes[at] > ' ' && bytes[at] != '{' && bytes[at] != '}'
      invariant position <= at <= |bytes|
      invariant WordToken(bytes[at..], value) == WordToken(bytes[position..], [first])
    {
      assert bytes[at..][1..] == bytes[at + 1..];
      value := value + [bytes[at]];
      at := at + 1;
    }
  }

  /** The nested function `token`; `position` is the variable it captures. */
  method ReadToken(bytes: string, position: nat) returns (token: Option<Token>, at: nat)
    requires position <= |bytes|
    ensures position <= at <= |bytes|
    ensures token.None? ==> NextToken(bytes[position..]) == End
    ensures token.Some? ==> NextToken(bytes[position..]) == Lexed(token.value, bytes[at..]) && at > position
  {
    at := SkipBlanks(bytes, position);
    if at == |bytes| { return None, at; }
    var first := bytes[at];
    assert bytes[at..][1..] == bytes[at + 1..];
    at := at + 1;
    if first == '{' { return Some(Open), at; }
    if first == '}' { return Some(Close), at; }
    var value: string;
    if first == '\"' {
      value, at := ReadQuoted(bytes, at);
    } else {
      value, at := ReadWord(bytes, at, first);
    }
    return Some(Word(value)), at;
  }

  // ---------------------------------------------------------------- the section parser

  type Fields = map<string, string>

  /** One "Run Process" entry with the fields of its section, names lowercase. */
  datatype Found = Found(run: Run, fields: Fields)

  /** The variables of the parser: what was found, the open sections, a key that waits for its
      value or section, and the fields of the entry being read. */
  datatype State = State(found: seq<Found>, path: seq<string>, pending: Option<string>, fields: Fields)

  const RUN_PROCESS := "run process"

  /** The innermost open section is an entry of a "Run Process" section. */
  predicate InEntry(path: seq<string>) { |path| >= 2 && path[|path| - 2] == RUN_PROCESS }

  function HiveName(machine: bool): string { if machine then "HKEY_LOCAL_MACHINE" else "HKEY_CURRENT_USER" }

  predicate IsHive(name: string, machine: bool) {
    if machine then name == "hkey_local_machine" || name == "hklm" else name == "hkey_current_user" || name == "hkcu"
  }

  /** "/" counts as "\". */
  function Backslashes(s: string): (r: string)
    ensures |r| == |s|
  {
    if s == "" then "" else [if s[0] == '/' then '\\' else s[0]] + Backslashes(s[1..])
  }

  datatype Place = Place(machine: bool, key: string)

  /** `hive`: the registry hive and the key below it. */
  function HiveOf(path: string): Option<Place> {
    var parts := Pieces(Backslashes(path), '\\');
    if parts == [] then None
    else
      var first, rest := Lower(parts[0]), Join(parts[1..], "\\");
      if IsHive(first, true) then Some(Place(true, rest)) else if IsHive(first, false) then Some(Place(false, rest)) else None
  }

  const HAS_RUN := "hasrunkey"
  const MINIMUM := "minimumhasrunvalue"
  const PROCESS := "process "

  predicate IsProgram(field: string) { PROCESS <= field }

  /** `runKey`: the entry's own key, else the default one of its app. */
  function RunKey(fields: Fields, appID: Option<int>): Option<string> {
    if HAS_RUN in fields then Some(fields[HAS_RUN])
    else if appID.Some? && 0 < appID.value < 0x8000_0000 && exists field :: field in fields && IsProgram(field)
    then Some(HiveName(true) + "\\Software\\Valve\\Steam\\Apps\\" + Decimal(appID.value))
    else None
  }

  function Minimum(fields: Fields): (r: Word)
    ensures r >= 1
  {
    var given := if MINIMUM in fields then ParseUnsigned(Trim(fields[MINIMUM], false), Ten) else None;
    if given.Some? && given.value > 1 then given.value else 1
  }

  /** The run of an entry; none when it names no usable key. */
  function RunOf(name: string, fields: Fields, appID: Option<int>): Option<Run> {
    var key := RunKey(fields, appID);
    if key.None? then None
    else
      var place := HiveOf(key.value);
      if place.None? || place.value.key == "" then None
      else Some(Run(name, place.value.machine, place.value.key, Minimum(fields)))
  }

  predicate HasRun(found: seq<Found>, run: Run) { exists i :: 0 <= i < |found| && found[i].run == run }

  /** An entry is kept unless it names no usable key or its run is there already. */
  function Keep(found: seq<Found>, run: Option<Run>, fields: Fields): seq<Found> {
    if run.None? || HasRun(found, run.value) then found else found + [Found(run.value, fields)]
  }

  /** The body of the token loop. */
  function Step(st: State, token: Token, appID: Option<int>): State {
    match token
    case Open =>
      var path := st.path + [if st.pending.Some? then Lower(st.pending.value) else ""];
      State(st.found, path, None, if InEntry(path) then map[] else st.fields)
    case Close =>
      var found := if InEntry(st.path) then Keep(st.found, RunOf(st.path[|st.path| - 1], st.fields, appID), st.fields) else st.found;
      State(found, if st.path == [] then [] else st.path[..|st.path| - 1], None, st.fields)
    case Word(text) =>
      if st.pending.None? then st.(pending := Some(text))
      else if InEntry(st.path) then st.(fields := st.fields[Lower(st.pending.value) := text], pending := None)
      else st.(pending := None)
  }

  const MAX_TOKENS := 200_000
  const MAX_DEPTH := 32
  const MAX_BYTES := 0x10_0000

  /** The loop over the tokens; `n` of them were processed before. */
  function Parse(st: State, tokens: seq<Token>, n: nat, appID: Option<int>): State
    decreases |tokens|
  {
    if tokens == [] || n >= MAX_TOKENS || |st.path| > MAX_DEPTH then st
    else Parse(Step(st, tokens[0], appID), tokens[1..], n + 1, appID)
  }

  const START := State([], [], None, map[])

  const MARK: string := [0xEF as char, 0xBB as char, 0xBF as char]

  /** The bytes that are read: the first megabyte without a byte order mark. */
  function Body(script: string): string {
    var bytes := if |script| > MAX_BYTES then script[..MAX_BYTES] else script;
    if MARK <= bytes then bytes[3..] else bytes
  }

  function EntriesOf(script: string, appID: Option<int>): seq<Found> {
    Parse(START, Tokens(Body(script)), 0, appID).found
  }

  /** `entries`. */
  method Entries(script: string, appID: Option<int>) returns (found: seq<Found>)
    ensures found == EntriesOf(script, appID)
  {
    hide Step, Body, NextToken;
    var bytes := Body(script);
    var position := 0;
    var st := START;
    var tokens := 0;
    assert bytes[0..] == bytes;
    while true
      invariant 0 <= position <= |bytes|
      invariant 0 <= tokens <= MAX_TOKENS
      invariant Parse(st, Tokens(bytes[position..]), tokens, appID).found == EntriesOf(script, appID)
      decreases |bytes| - position
    {
      var token, next := ReadToken(bytes, position);
      if token.None? { break; }
      TokensStep(bytes[position..], token.value, bytes[next..]);
      tokens := tokens + 1;
      if tokens > MAX_TOKENS || |st.path| > MAX_DEPTH { break; }
      st := Step(st, token.value, appID);
      position := next;
    }
    return st.found;
  }

  lemma TokensStep(s: string, token: Token, rest: string)
    requires NextToken(s) == Lexed(token, rest)
    ensures Tokens(s) == [token] + Tokens(rest)
    ensures Tokens(s) != [] && Tokens(s)[0] == token && Tokens(s)[1..] == Tokens(rest)
  {
  }

  // ---------------------------------------------------------------- what holds for any script

  ghost predicate DistinctRuns(found: seq<Found>) { forall i, j :: 0 <= i < j < |found| ==> found[i].run != found[j].run }

  /** What was found has pairwise distinct runs, lowercase names, a key and a value of at least 1. */
  ghost predicate SoundEntries(found: seq<Found>) {
    && DistinctRuns(found)
    && forall i :: 0 <= i < |found| ==> Lower(found[i].run.name) == found[i].run.name && found[i].run.key != "" && found[i].run.value >= 1
  }

  ghost predicate LowerPath(path: seq<string>) { forall i :: 0 <= i < |path| ==> Lower(path[i]) == path[i] }

  lemma {:induction false} ParseIsSound(st: State, tokens: seq<Token>, n: nat, appID: Option<int>)
    requires SoundEntries(st.found) && LowerPath(st.path)
    ensures SoundEntries(Parse(st, tokens, n, appID).found)
    ensures st.found <= Parse(st, tokens, n, appID).found
    decreases |tokens|
  {
    if !(tokens == [] || n >= MAX_TOKENS || |st.path| > MAX_DEPTH) {
      StepIsSound(st, tokens[0], appID);
      ParseIsSound(Step(st, tokens[0], appID), tokens[1..], n + 1, appID);
    }
  }

  lemma StepIsSound(st: State, token: Token, appID: Option<int>)
    requires SoundEntries(st.found) && LowerPath(st.path)
    ensures SoundEntries(Step(st, token, appID).found) && LowerPath(Step(st, token, appID).path)
    ensures st.found <= Step(st, token, appID).found
  {
    hide RunKey, HiveOf, Minimum, Lower;
    if token.Open? && st.pending.Some? { LowerIdempotent(st.pending.value); }
    assert Lower("") == "";
  }

  /** Whatever bytes a script holds, its entries are sound. */
  lemma EntriesAreSound(script: string, appID: Option<int>)
    ensures SoundEntries(EntriesOf(script, appID))
  {
    ParseIsSound(START, Tokens(Body(script)), 0, appID);
  }
}
