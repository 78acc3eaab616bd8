/** What a session makes of the batch's text: a command line that runs `echo` lines with their
    redirections and starts programs, read from the characters of each line alone. It leaves the
    result file that the next start reads. */
module InstallShell {
  import opened Text
  import opened Numbers
  import opened InstallRecords
  import opened InstallBatch
  import opened InstallBatchLaws

  // ---------------------------------------------------------------- a command line

  /** The result file's text, the exit status of the last program, and how many were started. */
  datatype Shell = Shell(file: string, status: int, started: nat)

  const FRESH := Shell("", 0, 0)

  /** What a program does when it runs: what it writes, and its exit status. */
  datatype Outcome = Outcome(output: string, status: int)

  /** The programs of a session in the order in which they are started: the services first, if they
      are, then those of the batch. */
  function OutcomeOf(services: Services, s: Session, n: nat): Outcome {
    if services.Off? then Outcome("", StatusOf(s, n + 1))
    else if n == 0 then Outcome("services " + s.outcome + "\r\n", if s.servicesFailed then 1 else 0)
    else Outcome("", StatusOf(s, n))
  }

  const LEVEL := "%ERRORLEVEL%"

  /** Every %ERRORLEVEL% of a line replaced. */
  function Expanded(line: string, value: string): string
    decreases |line|
  {
    if line == "" then ""
    else if LEVEL <= line then value + Expanded(line[|LEVEL|..], value)
    else [line[0]] + Expanded(line[1..], value)
  }

  /** The place of the first ">" outside of quotes; |line| when there is none. */
  function RedirectAt(line: string, quoted: bool): (at: nat)
    ensures at <= |line|
  {
    if line == "" || (line[0] == '>' && !quoted) then 0 else 1 + RedirectAt(line[1..], if line[0] == '\"' then !quoted else quoted)
  }

  /** The file after some output with a redirection: ">>" appends, ">" starts anew, and output that
      goes anywhere else leaves the file alone. */
  function Redirected(before: string, output: string, redirection: string, file: string): string {
    if redirection == ">>\"" + file + "\"" then before + output
    else if redirection == ">\"" + file + "\"" then output
    else before
  }

  function Echo(sh: Shell, line: string, file: string): Shell {
    var text := Expanded(line, Signed(sh.status));
    var at := RedirectAt(text, false);
    sh.(file := Redirected(sh.file, text[..at] + "\r\n", text[at..], file))
  }

  const ECHO := "echo "
  const IF_FAILED := "if not \"%ERRORLEVEL%\"==\"0\" echo "

  predicate IsSilent(line: string) { "@" <= line || "rem " <= line }

  predicate IsEcho(line: string) { ECHO <= line }

  predicate IsCondition(line: string) { IF_FAILED <= line }

  /** One line: a remark, an echo, an echo after a failure, or a program. */
  function RunLine(sh: Shell, line: string, file: string, services: Services, s: Session): Shell {
    if IsSilent(line) then sh
    else if IsEcho(line) then Echo(sh, line[|ECHO|..], file)
    else if IsCondition(line) then if Signed(sh.status) == "0" then sh else Echo(sh, line[|IF_FAILED|..], file)
    else
      var o, at := OutcomeOf(services, s, sh.started), RedirectAt(line, false);
      Shell(Redirected(sh.file, o.output, line[at..], file), o.status, sh.started + 1)
  }

  function RunLines(lines: seq<string>, file: string, services: Services, s: Session): Shell {
    if lines == [] then FRESH else RunLine(RunLines(lines[..|lines| - 1], file, services, s), lines[|lines| - 1], file, services, s)
  }

  // ---------------------------------------------------------------- the parts of a line

  lemma NotLevel(line: string)
    requires line != "" && line[0] != '%'
    ensures !(LEVEL <= line)
  {
  }

  lemma {:induction false} PlainExpands(line: string, value: string)
    requires '%' !in line
    ensures Expanded(line, value) == line
  {
    if line != "" {
      assert line[0] in line;
      NotLevel(line);
      PlainExpands(line[1..], value);
      assert line == [line[0]] + line[1..];
    }
  }

  lemma LevelFirst(b: string, value: string)
    ensures Expanded(LEVEL + b, value) == value + Expanded(b, value)
  {
    assert (LEVEL + b)[|LEVEL|..] == b;
  }

  lemma CharExpands(c: char, rest: string, value: string)
    requires c != '%'
    ensures Expanded([c] + rest, value) == [c] + Expanded(rest, value)
  {
    NotLevel([c] + rest);
    assert ([c] + rest)[1..] == rest;
  }

  lemma {:induction false} LevelExpands(a: string, b: string, value: string)
    requires '%' !in a && '%' !in b
    ensures Expanded(a + LEVEL + b, value) == a + value + b
  {
    hide Expanded, LEVEL;
    if a == "" {
      LevelFirst(b, value);
      PlainExpands(b, value);
      assert a + LEVEL + b == LEVEL + b && a + value + b == value + b;
    } else {
      var rest := a[1..] + LEVEL + b;
      assert a[0] in a && a == [a[0]] + a[1..];
      LevelExpands(a[1..], b, value);
      CharExpands(a[0], rest, value);
      assert a + LEVEL + b == [a[0]] + rest;
      assert [a[0]] + (a[1..] + value + b) == a + value + b;
    }
  }

  lemma {:induction false} PlainRedirect(a: string, rest: string)
    requires '>' !in a && '\"' !in a
    ensures RedirectAt(a + rest, false) == |a| + RedirectAt(rest, false)
  {
    if a == "" {
      assert a + rest == rest;
    } else {
      assert a[0] in a && (a + rest)[1..] == a[1..] + rest;
      PlainRedirect(a[1..], rest);
    }
  }

  lemma {:induction false} QuotedRedirect(a: string, rest: string)
    requires '\"' !in a
    ensures RedirectAt(a + ("\"" + rest), true) == |a| + 1 + RedirectAt(rest, false)
  {
    var line := a + ("\"" + rest);
    if a == "" {
      assert line == "\"" + rest && line[1..] == rest;
    } else {
      assert a[0] in a && line[1..] == a[1..] + ("\"" + rest);
      QuotedRedirect(a[1..], rest);
    }
  }

  lemma {:induction false} NoRedirect(line: string, quoted: bool)
    requires '>' !in line
    ensures RedirectAt(line, quoted) == |line|
  {
    if line != "" {
      assert line[0] in line;
      NoRedirect(line[1..], if line[0] == '\"' then !quoted else quoted);
    }
  }

  /** A text that an echo can take as it is. */
  ghost predicate Quiet(s: string) { '%' !in s && '>' !in s && '\"' !in s }

  /** A text without the level. */
  lemma EchoAppends(sh: Shell, text: string, file: string)
    requires Quiet(text) && '%' !in file
    ensures Echo(sh, text + " >>\"" + file + "\"", file) == sh.(file := sh.file + (text + " " + "\r\n"))
    ensures Echo(sh, text + " >\"" + file + "\"", file) == sh.(file := text + " " + "\r\n")
    ensures Echo(sh, text, file) == sh
  {
    var append, create := ">>\"" + file + "\"", ">\"" + file + "\"";
    assert text + " >>\"" + file + "\"" == text + " " + append && text + " >\"" + file + "\"" == text + " " + create;
    PlainExpands(text + " " + append, Signed(sh.status));
    PlainExpands(text + " " + create, Signed(sh.status));
    PlainExpands(text, Signed(sh.status));
    PlainRedirect(text + " ", append);
    PlainRedirect(text + " ", create);
    NoRedirect(text, false);
    assert (text + " " + append)[..|text| + 1] == text + " " && (text + " " + append)[|text| + 1..] == append;
    assert (text + " " + create)[..|text| + 1] == text + " " && (text + " " + create)[|text| + 1..] == create;
    assert append[1] == '>' && create[1] == '\"';
    assert text[|text|..] == "";
  }

  /** A text with the level behind it. */
  lemma EchoLevel(sh: Shell, text: string, file: string)
    requires Quiet(text) && '%' !in file
    ensures Echo(sh, text + " " + LEVEL + " >>\"" + file + "\"", file) == sh.(file := sh.file + (text + " " + Signed(sh.status) + " " + "\r\n"))
  {
    var append, value := ">>\"" + file + "\"", Signed(sh.status);
    var line := text + " " + LEVEL + " >>\"" + file + "\"";
    assert line == text + " " + LEVEL + (" " + append);
    LevelExpands(text + " ", " " + append, value);
    SignedIsQuiet(sh.status);
    var shown := text + " " + value + " ";
    assert text + " " + value + (" " + append) == shown + append;
    PlainRedirect(shown, append);
    assert (shown + append)[..|shown|] == shown && (shown + append)[|shown|..] == append;
  }

  lemma SignedIsQuiet(v: int)
    ensures Quiet(Signed(v)) && (Signed(v) == "0" <==> v == 0)
  {
    var n: nat := if v < 0 then -v else v;
    WriteIsDigits(n, Ten);
    WriteReads(n, Ten);
    assert Quiet(Decimal(n)) by { DigitsAreQuiet(Decimal(n)); }
    assert Decimal(0) == "0";
    assert Signed(v) == "0" ==> v >= 0;
  }

  lemma DigitsAreQuiet(s: string)
    requires AreDigits(s)
    ensures Quiet(s)
  {
    assert '%' !in DIGITS && '>' !in DIGITS && '\"' !in DIGITS;
  }

  lemma DecimalIsQuiet(n: nat)
    ensures Quiet(Decimal(n))
  {
    WriteIsDigits(n, Ten);
    DigitsAreQuiet(Decimal(n));
  }

  lemma LabelIsQuiet(run: Run)
    ensures Quiet(Label(run))
  {
    FilteredIsSafe(run.name);
  }

  lemma QuietConcat(a: string, b: string)
    requires Quiet(a) && Quiet(b)
    ensures Quiet(a + b)
  {
  }

  lemma {:induction false} UnquotedHolds(s: string)
    ensures '\"' !in Unquoted(s) && ('%' !in s ==> '%' !in Unquoted(s))
  {
    if s != "" {
      assert s == [s[0]] + s[1..];
      UnquotedHolds(s[1..]);
    }
  }

  // ---------------------------------------------------------------- what the session has done so far

  /** How many programs the first `k` lines have started, and the last one's status. */
  function Started(services: Services, k: nat): nat {
    (if services.Start? && k > 3 then 1 else 0) + Programs(services, k)
  }

  function Programs(services: Services, k: nat): nat {
    if k < Head(services) then 0 else (k - Head(services) + 1) / 4
  }

  function LastStatus(services: Services, s: Session, k: nat): int {
    if Programs(services, k) > 0 then StatusOf(s, Programs(services, k))
    else if services.Start? && k > 3 && s.servicesFailed then 1 else 0
  }

  /** A program's arguments as the scripts' guard lets them through. */
  predicate AcceptedArguments(arguments: string) {
    forall c :: c in "\r\n&|><^%" ==> c !in arguments
  }

  ghost predicate AcceptedAll(processes: seq<Process>) {
    forall i :: 0 <= i < |processes| ==> Accepted(processes[i].executable) && AcceptedArguments(processes[i].arguments)
  }

  lemma WrittenLine(line: string)
    ensures Written([line]) == line + "\r\n" && Written([]) == ""
  {
    assert [line][1..] == [] && line + "\r\n" + "" == line + "\r\n";
  }

  // ---------------------------------------------------------------- one line of the batch

  lemma EchoLineRuns(sh: Shell, rest: string, file: string, services: Services, s: Session)
    ensures RunLine(sh, "echo " + rest, file, services, s) == Echo(sh, rest, file)
  {
    hide Echo;
    assert ("echo " + rest)[|ECHO|..] == rest && ("echo " + rest)[0] == 'e';
  }

  /** An echo whose text stands without the level. */
  lemma TextLine(sh: Shell, text: string, file: string, services: Services, s: Session)
    requires Quiet(text) && '%' !in file
    ensures RunLine(sh, "echo " + text + " >>\"" + file + "\"", file, services, s) == sh.(file := sh.file + Written([text + " "]))
    ensures RunLine(sh, "echo " + text + " >\"" + file + "\"", file, services, s) == sh.(file := Written([text + " "]))
    ensures RunLine(sh, "echo " + text, file, services, s) == sh
  {
    hide RunLine, Echo;
    EchoAppends(sh, text, file);
    WrittenLine(text + " ");
    EchoLineRuns(sh, text + " >>\"" + file + "\"", file, services, s);
    EchoLineRuns(sh, text + " >\"" + file + "\"", file, services, s);
    EchoLineRuns(sh, text, file, services, s);
    assert "echo " + (text + " >>\"" + file + "\"") == "echo " + text + " >>\"" + file + "\"";
    assert "echo " + (text + " >\"" + file + "\"") == "echo " + text + " >\"" + file + "\"";
  }

  lemma LevelLine(sh: Shell, text: string, file: string, services: Services, s: Session)
    requires Quiet(text) && '%' !in file
    ensures RunLine(sh, "echo " + text + " " + LEVEL + " >>\"" + file + "\"", file, services, s)
      == sh.(file := sh.file + Written([text + " " + Signed(sh.status) + " "]))
  {
    hide RunLine, Echo;
    EchoLevel(sh, text, file);
    WrittenLine(text + " " + Signed(sh.status) + " ");
    EchoLineRuns(sh, text + " " + LEVEL + " >>\"" + file + "\"", file, services, s);
    assert "echo " + (text + " " + LEVEL + " >>\"" + file + "\"") == "echo " + text + " " + LEVEL + " >>\"" + file + "\"";
  }

  lemma SilentLines(sh: Shell, file: string, services: Services, s: Session)
    ensures RunLine(sh, "@echo off", file, services, s) == sh
    ensures RunLine(sh, "rem Madeira Dock: a game's one-time " + "installs, before the host starts the game", file, services, s) == sh
  {
    hide Echo;
    assert ("rem Madeira Dock: a game's one-time " + "installs, before the host starts the game")[..4] == "rem ";
  }

  lemma IfLine(sh: Shell, rest: string, file: string, services: Services, s: Session)
    ensures RunLine(sh, IF_FAILED + rest, file, services, s) == if sh.status == 0 then sh else Echo(sh, rest, file)
  {
    hide Echo, OutcomeOf, Signed;
    SignedIsQuiet(sh.status);
    assert (IF_FAILED + rest)[|IF_FAILED|..] == rest && (IF_FAILED + rest)[0] == 'i';
  }

  lemma FailedText(rest: string)
    ensures "if not \"%ERRORLEVEL%\"==\"0\" " + "echo services failed" + rest == IF_FAILED + ("services failed" + rest)
  {
    assert "if not \"%ERRORLEVEL%\"==\"0\" " + "echo " == IF_FAILED && "echo " + "services failed" == "echo services failed";
  }

  lemma FailedIsQuiet()
    ensures Quiet("services failed") && "services failed" + " " == "services failed "
  {
  }

  lemma FailedLine(sh: Shell, file: string, services: Services, s: Session)
    requires '%' !in file
    ensures RunLine(sh, "if not \"%ERRORLEVEL%\"==\"0\" " + "echo services failed" + (" >>\"" + file + "\""), file, services, s)
      == if sh.status == 0 then sh else sh.(file := sh.file + Written(["services failed "]))
  {
    hide Echo, RunLine, IF_FAILED;
    var rest := " >>\"" + file + "\"";
    FailedText(rest);
    IfLine(sh, "services failed" + rest, file, services, s);
    FailedIsQuiet();
    EchoAppends(sh, "services failed", file);
    WrittenLine("services failed ");
    assert "services failed" + rest == "services failed" + " >>\"" + file + "\"";
  }

  /** A quoted path that starts a program, with what follows it on the line. */
  lemma QuotedLine(sh: Shell, path: string, rest: string, file: string, services: Services, s: Session)
    requires '\"' !in path && '\"' !in rest && '>' !in rest
    ensures RunLine(sh, "\"" + path + "\"" + rest + " >>\"" + file + "\"", file, services, s)
      == var o := OutcomeOf(services, s, sh.started); Shell(sh.file + o.output, o.status, sh.started + 1)
  {
    hide Echo, OutcomeOf, RedirectAt;
    QuotedAppend(path, rest, ">>\"" + file + "\"");
    var line := "\"" + path + "\"" + rest + " >>\"" + file + "\"";
    assert line == "\"" + path + "\"" + rest + " " + (">>\"" + file + "\"");
    assert line[0] == '\"';
  }

  lemma QuotedAppend(path: string, rest: string, append: string)
    requires '\"' !in path && '\"' !in rest && '>' !in rest && append != "" && append[0] == '>'
    ensures var line := "\"" + path + "\"" + rest + " " + append; line[RedirectAt(line, false)..] == append
  {
    var line, tail := "\"" + path + "\"" + rest + " " + append, path + ("\"" + (rest + " " + append));
    assert line == "\"" + tail && line[1..] == tail;
    QuotedRedirect(path, rest + " " + append);
    PlainRedirect(rest + " ", append);
    assert RedirectAt(line, false) == 1 + RedirectAt(tail, true);
    assert line[1 + |path| + 1 + |rest| + 1..] == append;
  }

  lemma NoOutput(before: string, redirection: string, file: string)
    requires redirection == ""
    ensures Redirected(before, "", redirection, file) == before
  {
  }

  lemma QuotedPath(head: string, path: string, tail: string)
    requires '>' !in head && '\"' !in head && '\"' !in path && '>' !in tail
    ensures var line := head + "\"" + path + "\"" + tail; RedirectAt(line, false) == |line|
  {
    var rest := path + ("\"" + tail);
    assert head + "\"" + path + "\"" + tail == head + ("\"" + rest);
    PlainRedirect(head, "\"" + rest);
    assert ("\"" + rest)[1..] == rest;
    QuotedRedirect(path, tail);
    NoRedirect(tail, false);
  }

  lemma ProgramRuns(sh: Shell, line: string, file: string, services: Services, s: Session)
    requires !IsSilent(line) && !IsEcho(line) && !IsCondition(line) && RedirectAt(line, false) == |line|
    requires OutcomeOf(services, s, sh.started).output == ""
    ensures RunLine(sh, line, file, services, s) == Shell(sh.file, OutcomeOf(services, s, sh.started).status, sh.started + 1)
  {
    hide Echo, OutcomeOf, IsSilent, IsEcho, IsCondition, RedirectAt;
    assert line[|line|..] == "";
    NoOutput(sh.file, "", file);
  }

  lemma ArgumentsHold(arguments: string)
    requires AcceptedArguments(arguments)
    ensures '>' !in arguments
  {
    assert "\r\n&|><^%"[4] == '>';
  }

  lemma PackageParts()
    ensures Quiet("C:\\windows\\") && Quiet("system32\\")
  {
  }

  lemma InstallerParts()
    ensures Quiet("msiexec.exe") && Quiet(" /i ") && Quiet("call ")
  {
  }

  lemma HeadsAreQuiet()
    ensures Quiet("call ") && Quiet("C:\\windows\\system32\\msiexec.exe /i ")
  {
    PackageParts();
    InstallerParts();
    hide Quiet;
    QuietConcat("C:\\windows\\", "system32\\");
    QuietConcat("C:\\windows\\" + "system32\\", "msiexec.exe");
    QuietConcat("C:\\windows\\" + "system32\\" + "msiexec.exe", " /i ");
    assert "C:\\windows\\" + "system32\\" + "msiexec.exe" + " /i " == "C:\\windows\\system32\\msiexec.exe /i ";
  }

  /** A program of the batch. */
  lemma ProgramLine(sh: Shell, p: Process, create: string, result: string, file: string, services: Services, s: Session)
    requires '\"' !in p.executable && AcceptedArguments(p.arguments) && OutcomeOf(services, s, sh.started).output == ""
    ensures RunLine(sh, CommandText(RunProgram(p), create, result), file, services, s)
      == Shell(sh.file, OutcomeOf(services, s, sh.started).status, sh.started + 1)
  {
    hide IsPackage, RunLine, OutcomeOf, AcceptedArguments;
    HeadsAreQuiet();
    StartsProgram(sh, if IsPackage(p.executable) then "C:\\windows\\system32\\msiexec.exe /i " else "call ", p, file, services, s);
  }

  lemma QuietParts(s: string)
    requires Quiet(s)
    ensures '>' !in s && '\"' !in s
  {
  }

  /** How the line of a program starts. */
  predicate IsCall(head: string) { head == "call " || head == "C:\\windows\\system32\\msiexec.exe /i " }

  lemma StartsProgram(sh: Shell, head: string, p: Process, file: string, services: Services, s: Session)
    requires IsCall(head) && Quiet(head) && '\"' !in p.executable && AcceptedArguments(p.arguments) && OutcomeOf(services, s, sh.started).output == ""
    ensures RunLine(sh, head + "\"" + p.executable + "\"" + (if p.arguments == "" then "" else " " + p.arguments), file, services, s)
      == Shell(sh.file, OutcomeOf(services, s, sh.started).status, sh.started + 1)
  {
    hide OutcomeOf, RunLine, RedirectAt, AcceptedArguments, IsCall, Quiet, IsSilent, IsEcho, IsCondition;
    var tail := if p.arguments == "" then "" else " " + p.arguments;
    ArgumentsHold(p.arguments);
    TailHolds(p.arguments);
    QuietParts(head);
    HeadIsProgram(head, "\"" + p.executable + "\"" + tail);
    QuotedPath(head, p.executable, tail);
    HeadAndRest(head, p.executable, tail);
    ProgramRuns(sh, head + "\"" + p.executable + "\"" + tail, file, services, s);
  }

  lemma TailHolds(arguments: string)
    requires '>' !in arguments
    ensures '>' !in if arguments == "" then "" else " " + arguments
  {
  }

  lemma HeadAndRest(head: string, path: string, tail: string)
    ensures head + ("\"" + path + "\"" + tail) == head + "\"" + path + "\"" + tail
  {
  }

  lemma HeadIsProgram(head: string, rest: string)
    requires IsCall(head)
    ensures !IsSilent(head + rest) && !IsEcho(head + rest) && !IsCondition(head + rest)
  {
    assert (head + rest)[0] == head[0];
  }

  // ---------------------------------------------------------------- all lines of the batch

  /** The state after `k` lines. */
  ghost function Reached(processes: seq<Process>, services: Services, s: Session, k: nat): Shell
    requires k <= |Commands(processes, services)|
  {
    Shell(Written(AllEchoed(Commands(processes, services)[..k], s)), LastStatus(services, s, k), Started(services, k))
  }

  /** What one command does to a state that was reached so far. */
  ghost predicate CommandDoes(sh: Shell, c: Command, after: Shell, services: Services, s: Session) {
    && after.file == (if c.Begin? then "" else sh.file) + Written(Echoed(c, s))
    && (if c.RunProgram? || c.StartServices?
        then after.status == OutcomeOf(services, s, sh.started).status && after.started == sh.started + 1
        else after.status == sh.status && after.started == sh.started)
  }

  /** The command can do its work: its program is the next one, the level is that of its program. */
  ghost predicate Ready(sh: Shell, c: Command, services: Services, s: Session) {
    match c
    case StartServices(e) => services == Start(e) && sh.started == 0
    case ServicesFailed => sh.status == 0 <==> !s.servicesFailed
    case RunProgram(p) => '\"' !in p.executable && AcceptedArguments(p.arguments) && OutcomeOf(services, s, sh.started).output == ""
    case EchoStart(_, caption) => Quiet(caption)
    case Announce(_, _, caption) => Quiet(caption)
    case EchoExit(index) => sh.status == StatusOf(s, index)
    case _ => true
  }

  lemma NothingEchoed(file: string)
    ensures file + Written([]) == file && "" + file == file
  {
  }

  lemma NumberedText(verb: string, n: nat, more: string)
    requires Quiet(verb) && Quiet(more)
    ensures Quiet(verb + Decimal(n) + more)
  {
    hide Quiet, Decimal;
    DecimalIsQuiet(n);
    QuietConcat(verb, Decimal(n));
    QuietConcat(verb + Decimal(n), more);
  }

  lemma Verbs()
    ensures Quiet("begin ") && Quiet("start ") && Quiet("exit ") && Quiet("end") && Quiet(" ") && Quiet("/") && Quiet("")
    ensures Quiet("services off") && Quiet("[dock-installers] running ")
  {
    ShortVerbs();
    OffVerb();
    LongVerb();
    hide Quiet;
  }

  lemma ShortVerbs()
    ensures Quiet("begin ") && Quiet("start ") && Quiet("exit ") && Quiet("end") && Quiet(" ") && Quiet("/") && Quiet("")
  {
  }

  lemma OffVerb()
    ensures Quiet("services off")
  {
  }

  lemma LongVerb()
    ensures Quiet("[dock-installers] running ")
  {
  }

  lemma CommandRuns(sh: Shell, c: Command, file: string, services: Services, s: Session)
    requires Ready(sh, c, services, s) && '%' !in file && '\"' !in file
    ensures CommandDoes(sh, c, RunLine(sh, CommandText(c, " >\"" + file + "\"", " >>\"" + file + "\""), file, services, s), services, s)
  {
    Verbs();
    hide RunLine, Quiet, Decimal, Signed, Written, IsPackage, OutcomeOf;
    var create, result := " >\"" + file + "\"", " >>\"" + file + "\"";
    NothingEchoed(sh.file);
    match c
    case EchoOff => SilentLines(sh, file, services, s);
    case Remark => SilentLines(sh, file, services, s);
    case Begin(total) =>
      BeginRuns(sh, total, file, services, s);
      NothingEchoed(Written(Echoed(c, s)));
    case ServicesOff => OffRuns(sh, file, services, s);
    case StartServices(e) => ServicesRun(sh, e, file, services, s);
    case ServicesFailed => FailedLine(sh, file, services, s);
    case Announce(index, total, caption) => AnnounceRuns(sh, index, total, caption, file, services, s);
    case EchoStart(index, caption) => StartRuns(sh, index, caption, file, services, s);
    case RunProgram(p) => ProgramLine(sh, p, create, result, file, services, s);
    case EchoExit(index) => ExitRuns(sh, index, file, services, s);
    case EchoEnd => EndRuns(sh, file, services, s);
  }

  lemma BeginRuns(sh: Shell, total: nat, file: string, services: Services, s: Session)
    requires '%' !in file
    ensures RunLine(sh, "echo begin " + Decimal(total) + (" >\"" + file + "\""), file, services, s) == sh.(file := Written(["begin " + Decimal(total) + " "]))
  {
    Verbs();
    hide RunLine, Quiet, Decimal, Written;
    var text := "begin " + Decimal(total);
    NumberedText("begin ", total, "");
    assert text + "" == text;
    TextLine(sh, text, file, services, s);
    assert "echo " + text == "echo begin " + Decimal(total) by { assert "echo " + "begin " == "echo begin "; }
    assert "echo " + text + " >\"" + file + "\"" == "echo begin " + Decimal(total) + (" >\"" + file + "\"");
  }

  lemma OffRuns(sh: Shell, file: string, services: Services, s: Session)
    requires '%' !in file
    ensures RunLine(sh, "echo services off" + (" >>\"" + file + "\""), file, services, s) == sh.(file := sh.file + Written(["services off "]))
  {
    Verbs();
    hide RunLine, Quiet, Written;
    TextLine(sh, "services off", file, services, s);
    assert "echo " + "services off" == "echo services off" && "services off" + " " == "services off ";
    assert "echo services off" + " >>\"" + file + "\"" == "echo services off" + (" >>\"" + file + "\"");
  }

  lemma EndRuns(sh: Shell, file: string, services: Services, s: Session)
    requires '%' !in file
    ensures RunLine(sh, "echo end" + (" >>\"" + file + "\""), file, services, s) == sh.(file := sh.file + Written(["end "]))
  {
    Verbs();
    hide RunLine, Quiet, Written;
    TextLine(sh, "end", file, services, s);
    assert "echo " + "end" == "echo end" && "end" + " " == "end ";
    assert "echo end" + " >>\"" + file + "\"" == "echo end" + (" >>\"" + file + "\"");
  }

  lemma ServicesRun(sh: Shell, executable: string, file: string, services: Services, s: Session)
    requires services == Start(executable) && sh.started == 0
    ensures RunLine(sh, "\"" + Unquoted(executable) + "\" --start-services" + (" >>\"" + file + "\""), file, services, s)
      == Shell(sh.file + Written(["services " + s.outcome]), OutcomeOf(services, s, 0).status, 1)
  {
    hide RunLine, Written;
    var rest := " --start-services";
    UnquotedHolds(executable);
    assert '\"' !in rest && '>' !in rest;
    QuotedLine(sh, Unquoted(executable), rest, file, services, s);
    WrittenLine("services " + s.outcome);
    assert "\"" + rest == "\" --start-services";
    assert "\"" + Unquoted(executable) + "\"" + rest + " >>\"" + file + "\"" == "\"" + Unquoted(executable) + "\" --start-services" + (" >>\"" + file + "\"");
  }

  lemma AnnounceRuns(sh: Shell, index: nat, total: nat, caption: string, file: string, services: Services, s: Session)
    requires Quiet(caption) && '%' !in file
    ensures RunLine(sh, "echo [dock-installers] running " + Decimal(index) + "/" + Decimal(total) + " " + caption, file, services, s) == sh
  {
    Verbs();
    hide RunLine, Quiet, Decimal, Written;
    var verb := "[dock-installers] running ";
    NumberedText(verb, index, "/");
    NumberedText(verb + Decimal(index) + "/", total, " ");
    QuietConcat(verb + Decimal(index) + "/" + Decimal(total) + " ", caption);
    var text := verb + Decimal(index) + "/" + Decimal(total) + " " + caption;
    TextLine(sh, text, file, services, s);
    assert "echo " + verb == "echo [dock-installers] running ";
    assert "echo " + text == "echo [dock-installers] running " + Decimal(index) + "/" + Decimal(total) + " " + caption;
  }

  lemma StartRuns(sh: Shell, index: nat, caption: string, file: string, services: Services, s: Session)
    requires Quiet(caption) && '%' !in file
    ensures RunLine(sh, "echo start " + Decimal(index) + " " + caption + (" >>\"" + file + "\""), file, services, s)
      == sh.(file := sh.file + Written(["start " + Decimal(index) + " " + caption + " "]))
  {
    Verbs();
    hide RunLine, Quiet, Decimal, Written;
    NumberedText("start ", index, " ");
    QuietConcat("start " + Decimal(index) + " ", caption);
    var text := "start " + Decimal(index) + " " + caption;
    TextLine(sh, text, file, services, s);
    assert "echo " + "start " == "echo start ";
    assert "echo " + text + " >>\"" + file + "\"" == "echo start " + Decimal(index) + " " + caption + (" >>\"" + file + "\"");
  }

  lemma ExitRuns(sh: Shell, index: nat, file: string, services: Services, s: Session)
    requires '%' !in file
    ensures RunLine(sh, "echo exit " + Decimal(index) + " %ERRORLEVEL%" + (" >>\"" + file + "\""), file, services, s)
      == sh.(file := sh.file + Written(["exit " + Decimal(index) + " " + Signed(sh.status) + " "]))
  {
    Verbs();
    hide RunLine, Quiet, Decimal, Written, Signed;
    NumberedText("exit ", index, "");
    var text := "exit " + Decimal(index);
    assert text + "" == text;
    LevelLine(sh, text, file, services, s);
    assert "echo " + "exit " == "echo exit " && " " + LEVEL == " %ERRORLEVEL%";
    assert "echo " + text + " " + LEVEL + " >>\"" + file + "\"" == "echo exit " + Decimal(index) + " %ERRORLEVEL%" + (" >>\"" + file + "\"");
    assert text + " " + Signed(sh.status) + " " == "exit " + Decimal(index) + " " + Signed(sh.status) + " ";
  }

  // ---------------------------------------------------------------- the whole batch

  /** The command can do its work, and moves the count of programs and the status on as it should. */
  ghost predicate Steps(processes: seq<Process>, services: Services, s: Session, k: nat)
    requires k < |Commands(processes, services)|
  {
    var c, before, after := Commands(processes, services)[k], Started(services, k), Started(services, k + 1);
    && Ready(Shell("", LastStatus(services, s, k), before), c, services, s)
    && if c.RunProgram? || c.StartServices?
       then after == before + 1 && LastStatus(services, s, k + 1) == OutcomeOf(services, s, before).status
       else after == before && LastStatus(services, s, k + 1) == LastStatus(services, s, k)
  }

  lemma HeadSteps(processes: seq<Process>, services: Services, s: Session, k: nat)
    requires k < Head(services) && k < |Commands(processes, services)|
    ensures Steps(processes, services, s, k)
  {
    HeadCommands(processes, services, k);
    hide Commands, StatusOf;
  }

  lemma ProgramSteps(processes: seq<Process>, services: Services, s: Session, k: nat)
    requires AcceptedAll(processes) && Head(services) <= k < Head(services) + 4 * |processes| && k < |Commands(processes, services)|
    ensures Steps(processes, services, s, k)
  {
    hide AcceptedAll, Accepted, AcceptedArguments, Label, Quiet, ProgramCommands;
    var d := k - Head(services);
    var index := d / 4 + 1;
    ProgramCommandAt(processes, |processes|, index);
    AnnounceAt(processes, |processes|, index);
    assert Commands(processes, services)[k] == ProgramCommands(processes, |processes|)[d];
    hide Commands;
    LabelIsQuiet(processes[index - 1].run);
    AcceptedHolds(processes, index - 1);
    assert d == 4 * index - 4 || d == 4 * index - 3 || d == 4 * index - 2 || d == 4 * index - 1;
    ProgramsAt(services, index, k);
  }

  /** How many programs have started by each of the four lines of one. */
  lemma ProgramsAt(services: Services, index: nat, k: nat)
    requires 1 <= index && Head(services) + 4 * index - 4 <= k < Head(services) + 4 * index
    ensures Programs(services, k) == if k == Head(services) + 4 * index - 1 then index else index - 1
    ensures Programs(services, k + 1) == if k + 1 >= Head(services) + 4 * index - 1 then index else index - 1
  {
  }

  lemma EndSteps(processes: seq<Process>, services: Services, s: Session)
    requires |Commands(processes, services)| == Head(services) + 4 * |processes| + 1
    ensures Steps(processes, services, s, Head(services) + 4 * |processes|)
  {
    hide ProgramCommands, StatusOf;
    var k := Head(services) + 4 * |processes|;
    assert Commands(processes, services)[k] == EchoEnd;
    hide Commands;
    assert Programs(services, k) == Programs(services, k + 1) == |processes|;
  }

  lemma CommandSteps(processes: seq<Process>, services: Services, s: Session, k: nat)
    requires k < |Commands(processes, services)| && AcceptedAll(processes)
    ensures Steps(processes, services, s, k)
  {
    hide Steps, Commands, AcceptedAll;
    CommandsLength(processes, services);
    if k < Head(services) { HeadSteps(processes, services, s, k); }
    else if k < Head(services) + 4 * |processes| { ProgramSteps(processes, services, s, k); }
    else { EndSteps(processes, services, s); }
  }

  lemma HeadCommands(processes: seq<Process>, services: Services, k: nat)
    requires k < Head(services) && k < |Commands(processes, services)|
    ensures var c := Commands(processes, services)[k];
      if k == 0 then c == EchoOff else if k == 1 then c == Remark else if k == 2 then c == Begin(|processes|)
      else if k == 3 then c == (if services.Off? then ServicesOff else StartServices(services.executable))
      else c == ServicesFailed
  {
    hide ProgramCommands;
  }

  lemma AcceptedHolds(processes: seq<Process>, i: nat)
    requires AcceptedAll(processes) && i < |processes|
    ensures '\"' !in processes[i].executable && AcceptedArguments(processes[i].arguments)
  {
    hide AcceptedArguments, Find;
  }

  lemma {:induction false} AnnounceAt(processes: seq<Process>, total: nat, index: nat)
    requires 1 <= index <= |processes|
    ensures |ProgramCommands(processes, total)| == 4 * |processes|
    ensures ProgramCommands(processes, total)[4 * index - 4] == Announce(index, total, Label(processes[index - 1].run))
  {
    hide Label;
    var n := |processes|;
    var init := processes[..n - 1];
    ProgramCommandsLength(init, total);
    if index < n { AnnounceAt(init, total, index); }
  }

  lemma ReachedNext(processes: seq<Process>, services: Services, s: Session, k: nat)
    requires k < |Commands(processes, services)|
    ensures var c := Commands(processes, services)[k];
      Reached(processes, services, s, k + 1).file == (if c.Begin? then "" else Reached(processes, services, s, k).file) + Written(Echoed(c, s))
  {
    hide Echoed, ProgramCommands, ServicesCommands;
    var commands := Commands(processes, services);
    assert commands[..k + 1][..k] == commands[..k];
    WrittenConcat(AllEchoed(commands[..k], s), Echoed(commands[k], s));
    CommandAt(processes, services, k);
    if commands[k].Begin? { NothingYet(processes, services, s); }
  }

  lemma NothingYet(processes: seq<Process>, services: Services, s: Session)
    requires |Commands(processes, services)| > 2
    ensures Written(AllEchoed(Commands(processes, services)[..2], s)) == ""
  {
    hide ProgramCommands, ServicesCommands;
    var commands := Commands(processes, services);
    assert commands[..2] == [EchoOff, Remark] && [EchoOff, Remark][..1] == [EchoOff] && [EchoOff][..0] == [];
    assert AllEchoed([EchoOff], s) == AllEchoed([], s) + [] == [];
    assert AllEchoed([EchoOff, Remark], s) == [] + [] == [];
  }

  /** The result file's name, as a redirection has it. */
  function FileName(resultFile: string): string { Unquoted(resultFile) }

  lemma RunLinesNext(lines: seq<string>, line: string, file: string, services: Services, s: Session)
    ensures RunLines(lines + [line], file, services, s) == RunLine(RunLines(lines, file, services, s), line, file, services, s)
  {
    hide RunLine;
    assert (lines + [line])[..|lines|] == lines;
  }

  lemma TextsNext(commands: seq<Command>, create: string, result: string, k: nat)
    requires k < |commands|
    ensures CommandTexts(commands[..k + 1], create, result) == CommandTexts(commands[..k], create, result) + [CommandText(commands[k], create, result)]
  {
    hide CommandText;
    assert commands[..k + 1][..k] == commands[..k];
  }

  /** The next command, run by its text. */
  lemma OneMoreRuns(processes: seq<Process>, file: string, services: Services, s: Session, k: nat)
    requires AcceptedAll(processes) && '%' !in file && '\"' !in file && k < |Commands(processes, services)|
    ensures RunLine(Reached(processes, services, s, k), CommandText(Commands(processes, services)[k], " >\"" + file + "\"", " >>\"" + file + "\""), file, services, s)
      == Reached(processes, services, s, k + 1)
  {
    hide RunLine, CommandText, Commands, Ready, Started, LastStatus, OutcomeOf, AcceptedAll, Echoed, AllEchoed, Written;
    var sh, c := Reached(processes, services, s, k), Commands(processes, services)[k];
    CommandSteps(processes, services, s, k);
    SameReady(Shell("", sh.status, sh.started), sh, c, services, s);
    CommandRuns(sh, c, file, services, s);
    ReachedNext(processes, services, s, k);
  }

  lemma {:induction false} CommandsRun(processes: seq<Process>, resultFile: string, services: Services, s: Session, k: nat)
    requires AcceptedAll(processes) && '%' !in resultFile && k <= |Commands(processes, services)|
    ensures var file := FileName(resultFile);
      RunLines(CommandTexts(Commands(processes, services)[..k], " >\"" + file + "\"", " >>\"" + file + "\""), file, services, s)
        == Reached(processes, services, s, k)
  {
    hide RunLine, RunLines, CommandText, CommandTexts, Commands, Unquoted, AcceptedAll, Reached;
    var file, commands := FileName(resultFile), Commands(processes, services);
    var create, result := " >\"" + file + "\"", " >>\"" + file + "\"";
    if k == 0 {
      NothingRuns(processes, services, s, file, create, result);
    } else {
      CommandsRun(processes, resultFile, services, s, k - 1);
      UnquotedHolds(resultFile);
      TextsNext(commands, create, result, k - 1);
      RunLinesNext(CommandTexts(commands[..k - 1], create, result), CommandText(commands[k - 1], create, result), file, services, s);
      OneMoreRuns(processes, file, services, s, k - 1);
    }
  }

  lemma NothingRuns(processes: seq<Process>, services: Services, s: Session, file: string, create: string, result: string)
    ensures RunLines(CommandTexts(Commands(processes, services)[..0], create, result), file, services, s) == Reached(processes, services, s, 0)
  {
    hide Commands;
    assert Commands(processes, services)[..0] == [];
    NothingStarted(services, s);
  }

  lemma SameReady(a: Shell, b: Shell, c: Command, services: Services, s: Session)
    requires Ready(a, c, services, s) && a.status == b.status && a.started == b.started
    ensures Ready(b, c, services, s)
  {
  }

  lemma NothingStarted(services: Services, s: Session)
    ensures Shell(Written(AllEchoed([], s)), LastStatus(services, s, 0), Started(services, 0)) == FRESH
  {
  }

  lemma {:induction false} TextsOfPart(commands: seq<Command>, create: string, result: string, k: nat)
    requires k <= |commands|
    ensures |CommandTexts(commands, create, result)| == |commands|
    ensures CommandTexts(commands, create, result)[..k] == CommandTexts(commands[..k], create, result)
  {
    hide CommandText;
    TextsAre(commands, create, result);
    TextsAre(commands[..k], create, result);
  }

  lemma TextRuns(processes: seq<Process>, resultFile: string, services: Services, s: Session, k: nat)
    requires AcceptedAll(processes) && PlainBatch(processes, resultFile, services) && '%' !in resultFile && k <= |Commands(processes, services)|
    ensures var lines := Lines(BatchText(processes, resultFile, services), "");
      |lines| == |Commands(processes, services)| && RunLines(lines[..k], FileName(resultFile), services, s) == Reached(processes, services, s, k)
  {
    hide CommandText, Commands, RunLines, BatchText, PlainBatch, AcceptedAll, Reached;
    BatchHasItsLines(processes, resultFile, services);
    var file := "\"" + Unquoted(resultFile) + "\"";
    TextsOfPart(Commands(processes, services), " >" + file, " >>" + file, k);
    assert " >" + file == " >\"" + FileName(resultFile) + "\"" && " >>" + file == " >>\"" + FileName(resultFile) + "\"";
    CommandsRun(processes, resultFile, services, s, k);
  }

  /** Running the batch's text up to where a session was cut off leaves that session's result file. */
  lemma TextLeavesResultFile(processes: seq<Process>, resultFile: string, services: Services, s: Session)
    requires AcceptedAll(processes) && PlainBatch(processes, resultFile, services) && '%' !in resultFile
    ensures var lines := Lines(BatchText(processes, resultFile, services), "");
      RunLines(if s.cut < |lines| then lines[..s.cut] else lines, FileName(resultFile), services, s).file == ResultFile(processes, services, s)
  {
    hide CommandText, Commands, RunLines, BatchText, PlainBatch, AcceptedAll, AllEchoed, Written;
    var commands, k := Commands(processes, services), |Executed(processes, services, s)|;
    var lines := Lines(BatchText(processes, resultFile, services), "");
    assert commands[..|commands|] == commands;
    assert Executed(processes, services, s) == commands[..k];
    TextRuns(processes, resultFile, services, s, k);
    assert lines[..|lines|] == lines;
  }

  /** The line that starts a program, by its path and arguments. */
  function CallOf(p: Process): string {
    (if |p.executable| >= 4 && Lower(p.executable)[|p.executable| - 4..] == ".msi" then "C:\\windows\\system32\\msiexec.exe /i \"" else "call \"") + p.executable
      + (if p.arguments == "" then "\"" else "\" " + p.arguments)
  }

  lemma CallLine(processes: seq<Process>, resultFile: string, services: Services, i: nat)
    requires PlainBatch(processes, resultFile, services) && 1 <= i <= |processes|
    ensures var lines := Lines(BatchText(processes, resultFile, services), "");
      |lines| == Head(services) + 4 * |processes| + 1 && lines[Head(services) + 4 * i - 2] == CallOf(processes[i - 1])
  {
    hide BatchText, PlainBatch, Commands, CommandText, CallOf, Unquoted;
    BatchHasItsLines(processes, resultFile, services);
    CommandsLength(processes, services);
    CallCommand(processes, services, i);
    var file := "\"" + Unquoted(resultFile) + "\"";
    TextsAre(Commands(processes, services), " >" + file, " >>" + file);
    CallText(processes[i - 1], " >" + file, " >>" + file);
  }

  lemma CallCommand(processes: seq<Process>, services: Services, i: nat)
    requires 1 <= i <= |processes| && |Commands(processes, services)| == Head(services) + 4 * |processes| + 1
    ensures Commands(processes, services)[Head(services) + 4 * i - 2] == RunProgram(processes[i - 1])
  {
    hide ProgramCommands;
    ProgramCommandAt(processes, |processes|, i);
    assert Commands(processes, services)[Head(services) + 4 * i - 2] == ProgramCommands(processes, |processes|)[4 * i - 2];
  }

  lemma CallText(p: Process, create: string, result: string)
    ensures CommandText(RunProgram(p), create, result) == CallOf(p)
  {
    assert |Lower(p.executable)| == |p.executable|;
    var head := if IsPackage(p.executable) then "C:\\windows\\system32\\msiexec.exe /i " else "call ";
    assert head + "\"" == if IsPackage(p.executable) then "C:\\windows\\system32\\msiexec.exe /i \"" else "call \"";
    assert head + "\"" + p.executable + "\"" + (if p.arguments == "" then "" else " " + p.arguments)
      == head + "\"" + p.executable + (if p.arguments == "" then "\"" else "\" " + p.arguments);
  }

  /** The batch's text, run line by line up to any place, gives each program its own status under its
      own number: number `i` is read as exited exactly when the line after the one that starts program
      `i` has run, and then with the status of the program started there. */
  lemma TextGivesEachItsStatus(processes: seq<Process>, resultFile: string, services: Services, s: Session, k: nat)
    requires AcceptedAll(processes) && PlainBatch(processes, resultFile, services) && '%' !in resultFile
    requires |processes| <= 64 && PlainSession(s) && k <= |Lines(BatchText(processes, resultFile, services), "")|
    ensures var lines := Lines(BatchText(processes, resultFile, services), "");
      var exits := ResultsOf(RunLines(lines[..k], FileName(resultFile), services, s).file).exits;
      && |lines| == Head(services) + 4 * |processes| + 1
      && (forall i :: i in exits <==> 1 <= i <= |processes| && Head(services) + 4 * i <= k)
      && (forall i :: i in exits ==> exits[i] == StatusOf(s, i))
      && (forall i :: 1 <= i <= |processes| ==> lines[Head(services) + 4 * i - 2] == CallOf(processes[i - 1]))
      && (forall i :: 1 <= i <= |processes| ==> RunLines(lines[..Head(services) + 4 * i - 1], FileName(resultFile), services, s).status == StatusOf(s, i))
  {
    hide CommandText, Commands, RunLines, BatchText, PlainBatch, AcceptedAll, ResultsOf, StatusOf, CallOf, AllEchoed, Written;
    CommandsLength(processes, services);
    TextRuns(processes, resultFile, services, s, 0);
    TextRuns(processes, resultFile, services, s, k);
    EchoesReadBack(processes, services, s, k);
    forall i | 1 <= i <= |processes|
      ensures Lines(BatchText(processes, resultFile, services), "")[Head(services) + 4 * i - 2] == CallOf(processes[i - 1])
      ensures RunLines(Lines(BatchText(processes, resultFile, services), "")[..Head(services) + 4 * i - 1], FileName(resultFile), services, s).status == StatusOf(s, i)
    {
      CallLine(processes, resultFile, services, i);
      TextRuns(processes, resultFile, services, s, Head(services) + 4 * i - 1);
    }
  }
}
