/** One Dock start's installs (`DockInstallScripts`): what is planned, the batch that runs the
    pending programs, what a session cut off anywhere leaves in the result file, and what the
    next start reads there. */
module InstallBatch {
  import opened Text
  import opened Numbers
  import opened InstallRecords

  /** One program of a "Run Process" entry. */
  datatype Process = Process(run: Run, executable: string, arguments: string)

  // ---------------------------------------------------------------- the plan

  datatype Status = Done | Missing | Unsupported | Pending | Limit

  datatype Item = Item(process: Process, status: Status)

  /** What decides a program's fate: the runs recorded done, the programs on disk, and those
      this build cannot run. */
  datatype Device = Device(done: set<Run>, present: set<string>, unsupported: set<Process>) {
    predicate CanRun(p: Process) { p.run !in done && p.executable in present && p !in unsupported }
  }

  /** The programs that are not done and can run, in order. */
  function Runnable(found: seq<Process>, device: Device): seq<Process> {
    if found == [] then []
    else Runnable(found[..|found| - 1], device) + (if device.CanRun(found[|found| - 1]) then [found[|found| - 1]] else [])
  }

  /** The fate of a program with `ahead` runnable programs before it. */
  function Fate(p: Process, device: Device, ahead: nat, limit: nat): Status {
    if p.run in device.done then Done
    else if p.executable !in device.present then Missing
    else if p in device.unsupported then Unsupported
    else if ahead < limit then Pending
    else Limit
  }

  function WithStatus(items: seq<Item>, status: Status): seq<Process> {
    if items == [] then []
    else
      var last := items[|items| - 1];
      WithStatus(items[..|items| - 1], status) + (if last.status == status then [last.process] else [])
  }

  /** Every program with its fate, in order. */
  function PlanOf(found: seq<Process>, device: Device, limit: nat): seq<Item> {
    if found == [] then []
    else
      var before, last := found[..|found| - 1], found[|found| - 1];
      PlanOf(before, device, limit) + [Item(last, Fate(last, device, |Runnable(before, device)|, limit))]
  }

  /** `plan`; `queued` counts the pending programs so far. */
  method Plan(found: seq<Process>, device: Device, limit: nat) returns (items: seq<Item>)
    ensures items == PlanOf(found, device, limit)
  {
    items := [];
    var queued := 0;
    for i := 0 to |found|
      invariant items == PlanOf(found[..i], device, limit)
      invariant queued == Capped(|Runnable(found[..i], device)|, limit)
    {
      var process := found[i];
      assert found[..i + 1][..i] == found[..i];
      if process.run in device.done { items := items + [Item(process, Done)]; continue; }
      if process.executable !in device.present { items := items + [Item(process, Missing)]; continue; }
      if process in device.unsupported { items := items + [Item(process, Unsupported)]; continue; }
      if queued < limit {
        queued := queued + 1;
        items := items + [Item(process, Pending)];
      } else {
        items := items + [Item(process, Limit)];
      }
    }
    assert found[..|found|] == found;
  }

  function Capped(n: nat, limit: nat): nat { if n < limit then n else limit }

  lemma FateIs(p: Process, device: Device, ahead: nat, limit: nat)
    ensures Fate(p, device, ahead, limit) == Pending <==> device.CanRun(p) && ahead < limit
    ensures Fate(p, device, ahead, limit) == Limit <==> device.CanRun(p) && ahead >= limit
  {
  }

  /** The pending programs are the first runnable ones, as many as the limit allows; the others
      wait for a later start. */
  lemma {:induction false} PendingComesFirst(found: seq<Process>, device: Device, limit: nat)
    ensures var items, runnable := PlanOf(found, device, limit), Runnable(found, device);
      && WithStatus(items, Pending) == runnable[..Capped(|runnable|, limit)]
      && WithStatus(items, Limit) == runnable[Capped(|runnable|, limit)..]
  {
    hide Fate;
    if found != [] {
      var before, last := found[..|found| - 1], found[|found| - 1];
      PendingComesFirst(before, device, limit);
      FateIs(last, device, |Runnable(before, device)|, limit);
      Split1(Runnable(before, device), last, limit);
      var items := PlanOf(found, device, limit);
      assert items[..|items| - 1] == PlanOf(before, device, limit);
    }
  }

  lemma Split1<T>(s: seq<T>, x: T, limit: nat)
    ensures var c, d := Capped(|s|, limit), Capped(|s| + 1, limit);
      && (s + [x])[..d] == s[..c] + (if |s| < limit then [x] else [])
      && (s + [x])[d..] == s[c..] + (if |s| < limit then [] else [x])
      && s + [] == s
  {
  }

  lemma {:induction false} RunnableCanRun(found: seq<Process>, device: Device)
    ensures forall p :: p in Runnable(found, device) ==> p in found && device.CanRun(p)
  {
    if found != [] { RunnableCanRun(found[..|found| - 1], device); }
  }

  // ---------------------------------------------------------------- the batch

  predicate InLabel(c: char) {
    'a' <= c <= 'z' || 'A' <= c <= 'Z' || '0' <= c <= '9' || c == ' ' || c == '.' || c == '-' || c == '_'
  }

  function Filtered(s: string): string {
    if s == "" then "" else (if InLabel(s[0]) then [s[0]] else "") + Filtered(s[1..])
  }

  /** `label`: the entry name reduced to safe characters. */
  function Label(run: Run): string {
    var safe := Filtered(run.name);
    if |safe| > 64 then safe[..64] else safe
  }

  lemma {:induction false} FilteredIsSafe(s: string)
    ensures forall i :: 0 <= i < |Filtered(s)| ==> InLabel(Filtered(s)[i])
  {
    if s != "" { FilteredIsSafe(s[1..]); }
  }

  datatype Services = Off | Start(executable: string)

  /** The lines of a batch. */
  datatype Command =
    | EchoOff
    | Remark
    | Begin(total: nat)
    | ServicesOff
    | StartServices(executable: string)
    | ServicesFailed
    | Announce(index: nat, total: nat, caption: string)
    | EchoStart(index: nat, caption: string)
    | RunProgram(process: Process)
    | EchoExit(index: nat)
    | EchoEnd

  function ServicesCommands(services: Services): seq<Command> {
    if services.Off? then [ServicesOff] else [StartServices(services.executable), ServicesFailed]
  }

  /** The four lines of each program, numbered from 1. */
  function ProgramCommands(processes: seq<Process>, total: nat): seq<Command> {
    if processes == [] then []
    else
      var n := |processes|;
      ProgramCommands(processes[..n - 1], total) + OneProgram(processes[n - 1], n, total)
  }

  function OneProgram(process: Process, index: nat, total: nat): seq<Command> {
    [Announce(index, total, Label(process.run)), EchoStart(index, Label(process.run)), RunProgram(process), EchoExit(index)]
  }

  function Commands(processes: seq<Process>, services: Services): seq<Command> {
    [EchoOff, Remark, Begin(|processes|)] + ServicesCommands(services) + ProgramCommands(processes, |processes|) + [EchoEnd]
  }

  function Unquoted(s: string): string {
    if s == "" then "" else (if s[0] == '\"' then "" else [s[0]]) + Unquoted(s[1..])
  }

  predicate IsPackage(executable: string) {
    var lower := Lower(executable);
    |lower| >= 4 && lower[|lower| - 4..] == ".msi"
  }

  /** A batch line as text; `result` is the redirection into the result file, `create` the one
      that starts the file anew. */
  function CommandText(c: Command, create: string, result: string): string {
    match c
    case EchoOff => "@echo off"
    case Remark => "rem Madeira Dock: a game's one-time " + "installs, before the host starts the game"
    case Begin(total) => "echo begin " + Decimal(total) + create
    case ServicesOff => "echo services off" + result
    case StartServices(executable) => "\"" + Unquoted(executable) + "\" --start-services" + result
    case ServicesFailed => "if not \"%ERRORLEVEL%\"==\"0\" " + "echo services failed" + result
    case Announce(index, total, caption) => "echo [dock-installers] running " + Decimal(index) + "/" + Decimal(total) + " " + caption
    case EchoStart(index, caption) => "echo start " + Decimal(index) + " " + caption + result
    case RunProgram(p) =>
      (if IsPackage(p.executable) then "C:\\windows\\system32\\msiexec.exe /i " else "call ")
        + "\"" + p.executable + "\"" + (if p.arguments == "" then "" else " " + p.arguments)
    case EchoExit(index) => "echo exit " + Decimal(index) + " %ERRORLEVEL%" + result
    case EchoEnd => "echo end" + result
  }

  function CommandTexts(commands: seq<Command>, create: string, result: string): seq<string> {
    if commands == [] then [] else CommandTexts(commands[..|commands| - 1], create, result) + [CommandText(commands[|commands| - 1], create, result)]
  }

  /** The batch's text: its lines, each with a line break; the first echo creates the result
      file and the others append to it. */
  function BatchText(processes: seq<Process>, resultFile: string, services: Services): string {
    var file := "\"" + Unquoted(resultFile) + "\"";
    Join(CommandTexts(Commands(processes, services), " >" + file, " >>" + file), "\r\n") + "\r\n"
  }

  /** The lines before the first program. */
  method BatchHead(total: nat, services: Services, create: string, result: string) returns (lines: seq<string>)
    ensures lines == CommandTexts([EchoOff, Remark, Begin(total)] + ServicesCommands(services), create, result)
  {
    hide CommandText;
    ghost var done: seq<Command> := [];
    lines := [];
    lines, done := Append(lines, done, EchoOff, create, result);
    lines, done := Append(lines, done, Remark, create, result);
    lines, done := Append(lines, done, Begin(total), create, result);
    match services {
      case Off => lines, done := Append(lines, done, ServicesOff, create, result);
      case Start(executable) =>
        lines, done := Append(lines, done, StartServices(executable), create, result);
        lines, done := Append(lines, done, ServicesFailed, create, result);
    }
    assert done == [EchoOff, Remark, Begin(total)] + ServicesCommands(services);
  }

  /** The lines of one program: the body of the loop. */
  method BatchProgram(before: seq<string>, ghost done: seq<Command>, process: Process, index: nat, total: nat, create: string, result: string)
    returns (lines: seq<string>)
    requires before == CommandTexts(done, create, result)
    ensures lines == CommandTexts(done + OneProgram(process, index, total), create, result)
  {
    hide CommandText, Label;
    ghost var all := done;
    lines := before;
    lines, all := Append(lines, all, Announce(index, total, Label(process.run)), create, result);
    lines, all := Append(lines, all, EchoStart(index, Label(process.run)), create, result);
    lines, all := Append(lines, all, RunProgram(process), create, result);
    lines, all := Append(lines, all, EchoExit(index), create, result);
    assert all == done + OneProgram(process, index, total);
  }

  /** `batch`. */
  method Batch(processes: seq<Process>, resultFile: string, services: Services) returns (text: string)
    ensures text == BatchText(processes, resultFile, services)
  {
    hide CommandText, Unquoted, Join, OneProgram, ServicesCommands;
    var file := "\"" + Unquoted(resultFile) + "\"";
    var result, create := " >>" + file, " >" + file;
    var total := |processes|;
    var lines := BatchHead(total, services, create, result);
    ghost var head := [EchoOff, Remark, Begin(total)] + ServicesCommands(services);
    assert head + ProgramCommands(processes[..0], total) == head;
    for offset := 0 to |processes|
      invariant lines == CommandTexts(head + ProgramCommands(processes[..offset], total), create, result)
    {
      assert processes[..offset + 1][..offset] == processes[..offset];
      ghost var done := head + ProgramCommands(processes[..offset], total);
      lines := BatchProgram(lines, done, processes[offset], offset + 1, total, create, result);
      assert done + OneProgram(processes[offset], offset + 1, total) == head + ProgramCommands(processes[..offset + 1], total);
    }
    assert processes[..|processes|] == processes;
    ghost var all: seq<Command>;
    lines, all := Append(lines, head + ProgramCommands(processes, total), EchoEnd, create, result);
    text := Join(lines, "\r\n") + "\r\n";
  }

  method Append(lines: seq<string>, ghost done: seq<Command>, c: Command, create: string, result: string) returns (lines': seq<string>, ghost done': seq<Command>)
    requires lines == CommandTexts(done, create, result)
    ensures done' == done + [c] && lines' == CommandTexts(done', create, result)
  {
    hide CommandText;
    lines' := lines + [CommandText(c, create, result)];
    done' := done + [c];
    assert done'[..|done|] == done;
  }

  // ---------------------------------------------------------------- a session

  /** How a session went: how many lines of the batch it got through, what the service step
      reported, whether that step failed, and the exit status of each program. */
  datatype Session = Session(cut: nat, outcome: string, servicesFailed: bool, statuses: seq<int>)

  /** %ERRORLEVEL% after the program with this number. */
  function StatusOf(s: Session, index: nat): int { if 1 <= index <= |s.statuses| then s.statuses[index - 1] else 0 }

  function Signed(v: int): string { if v < 0 then "-" + Decimal(-v) else Decimal(v) }

  /** What a line of the batch adds to the result file. `echo` writes its text up to the
      redirection, so each line ends with a blank. */
  function Echoed(c: Command, s: Session): seq<string> {
    match c
    case Begin(total) => ["begin " + Decimal(total) + " "]
    case ServicesOff => ["services off "]
    case StartServices(_) => ["services " + s.outcome]
    case ServicesFailed => if s.servicesFailed then ["services failed "] else []
    case EchoStart(index, caption) => ["start " + Decimal(index) + " " + caption + " "]
    case EchoExit(index) => ["exit " + Decimal(index) + " " + Signed(StatusOf(s, index)) + " "]
    case EchoEnd => ["end "]
    case _ => []
  }

  function AllEchoed(commands: seq<Command>, s: Session): seq<string> {
    if commands == [] then [] else AllEchoed(commands[..|commands| - 1], s) + Echoed(commands[|commands| - 1], s)
  }

  function Written(lines: seq<string>): string {
    if lines == [] then "" else lines[0] + "\r\n" + Written(lines[1..])
  }

  /** The lines of the batch the session got through. */
  function Executed(processes: seq<Process>, services: Services, s: Session): seq<Command> {
    var commands := Commands(processes, services);
    if s.cut < |commands| then commands[..s.cut] else commands
  }

  /** The result file a session leaves. */
  function ResultFile(processes: seq<Process>, services: Services, s: Session): string {
    Written(AllEchoed(Executed(processes, services, s), s))
  }

  // ---------------------------------------------------------------- reading the result file

  datatype Results = Results(total: int, started: map<int, string>, exits: map<int, int>, ended: bool, services: Option<string>)

  const NO_RESULTS := Results(0, map[], map[], false, None)

  predicate IsNewline(c: char) { 10 as char <= c <= 13 as char }

  /** `split(whereSeparator: { $0.isNewline })`: the lines that are not empty. */
  function Lines(text: string, line: string): seq<string> {
    if text == "" then if line == "" then [] else [line]
    else if IsNewline(text[0]) then (if line == "" then [] else [line]) + Lines(text[1..], "")
    else Lines(text[1..], line + [text[0]])
  }

  /** `split(separator: " ", maxSplits:)` */
  function Words(s: string, splits: nat): seq<string>
    decreases |s|
  {
    if s == "" then []
    else if splits == 0 then [s]
    else if s[0] == ' ' then Words(s[1..], splits)
    else
      var n := Find(s, " ");
      [s[..n]] + if n == |s| then [] else Words(s[n + 1..], splits - 1)
  }

  predicate IsIndex(index: Option<int>) { index.Some? && 1 <= index.value <= 64 }

  function Prefix64(s: string): string { if |s| > 64 then s[..64] else s }

  /** The first letters of a word, at most 16. */
  function Letters(s: string): string {
    if s == "" then ""
    else
      var rest := Letters(s[1..]);
      var all := (if 'a' <= s[0] <= 'z' || 'A' <= s[0] <= 'Z' then [s[0]] else "") + rest;
      if |all| > 16 then all[..16] else all
  }

  function ReadBegin(r: Results, parts: seq<string>): Results {
    var given := if |parts| > 1 then ParseInt(parts[1]) else None;
    var total := if given.Some? then given.value else 0;
    r.(total := if total > 64 then 64 else total)
  }

  function ReadStart(r: Results, parts: seq<string>): Results {
    if |parts| > 1 && IsIndex(ParseInt(parts[1])) then
      r.(started := r.started[ParseInt(parts[1]).value := if |parts| > 2 then Prefix64(parts[2]) else ""])
    else r
  }

  function ReadExit(r: Results, parts: seq<string>): Results {
    if |parts| > 2 && IsIndex(ParseInt(parts[1])) && ParseInt(Trim(parts[2], false)).Some? then
      r.(exits := r.exits[ParseInt(parts[1]).value := ParseInt(Trim(parts[2], false)).value])
    else r
  }

  function ReadServices(r: Results, parts: seq<string>): Results {
    var word := if |parts| > 1 then Letters(parts[1]) else "";
    if word == "" then r else r.(services := Some(word))
  }

  function ReadLine(r: Results, line: string): Results {
    var parts := Words(Trim(line, true), 2);
    if parts == [] then r
    else if parts[0] == "begin" then ReadBegin(r, parts)
    else if parts[0] == "start" then ReadStart(r, parts)
    else if parts[0] == "exit" then ReadExit(r, parts)
    else if parts[0] == "services" then ReadServices(r, parts)
    else if parts[0] == "end" then r.(ended := true)
    else r
  }

  function ReadLines(lines: seq<string>): Results {
    if lines == [] then NO_RESULTS else ReadLine(ReadLines(lines[..|lines| - 1]), lines[|lines| - 1])
  }

  const MAX_LINES := 200

  function ResultsOf(text: string): Results {
    var lines := Lines(text, "");
    ReadLines(if |lines| > MAX_LINES then lines[..MAX_LINES] else lines)
  }

  /** `results`. */
  method ReadResults(text: string) returns (r: Results)
    ensures r == ResultsOf(text)
  {
    hide ReadLine, Lines;
    var lines := Lines(text, "");
    if |lines| > MAX_LINES { lines := lines[..MAX_LINES]; }
    r := NO_RESULTS;
    for i := 0 to |lines|
      invariant r == ReadLines(lines[..i])
    {
      assert lines[..i + 1][..i] == lines[..i];
      r := ReadLine(r, lines[i]);
    }
    assert lines[..|lines|] == lines;
  }

  predicate Succeeded(status: int) { status == 0 || status == 3010 || status == 1641 }
}
