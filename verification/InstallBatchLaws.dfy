/** The batch and the reader of its result file agree: whatever line a session was cut off at,
    every index that is read stands for the program with that number. */
module InstallBatchLaws {
  import opened Text
  import opened Numbers
  import opened InstallRecords
  import opened InstallBatch

  // ---------------------------------------------------------------- numbers and words

  predicate Fits(v: int) { -0x8000_0000_0000_0000 <= v < 0x8000_0000_0000_0000 }

  lemma SignedReads(v: int)
    requires Fits(v)
    ensures ParseInt(Signed(v)) == Some(v)
  {
    var n: nat := if v < 0 then -v else v;
    WriteReads(n, Ten);
    WriteIsDigits(n, Ten);
    DigitsUnsigned(Decimal(n));
    if v < 0 { assert Signed(v)[1..] == Decimal(n); }
  }

  /** A text without blanks at either end of it and without line breaks or blanks inside. */
  ghost predicate Solid(s: string) { s != "" && forall i :: 0 <= i < |s| ==> !IsSpaceOrNewline(s[i]) }

  lemma DigitsAreSolid(s: string)
    requires s != "" && AreDigits(s)
    ensures Solid(s)
  {
    assert forall c :: c in DIGITS ==> !IsSpaceOrNewline(c);
    assert forall i :: 0 <= i < |s| ==> s[i] in s;
  }

  lemma SignedIsSolid(v: int)
    ensures Solid(Signed(v))
  {
    var n: nat := if v < 0 then -v else v;
    WriteIsDigits(n, Ten);
    DigitsAreSolid(Decimal(n));
  }

  lemma {:induction false} FirstSpace(word: string, rest: string)
    requires ' ' !in word
    ensures Find(word + (" " + rest), " ") == |word| && Find(word, " ") == |word|
  {
    var s := word + (" " + rest);
    if word == "" {
      assert " " <= s;
    } else {
      FirstSpace(word[1..], rest);
      assert s[1..] == word[1..] + (" " + rest);
      assert s[0] == word[0] != ' ';
    }
  }

  lemma WordsSplit(word: string, rest: string, splits: nat)
    requires Solid(word) && splits > 0
    ensures Words(word + " " + rest, splits) == [word] + Words(rest, splits - 1)
    ensures Words(word, splits) == [word]
  {
    var s := word + " " + rest;
    FirstSpace(word, rest);
    assert s == word + (" " + rest);
    assert s[..|word|] == word && s[|word| + 1..] == rest;
    assert word[..|word|] == word;
  }

  lemma {:induction false} TrimRightConcat(a: string, b: string)
    requires a != "" && !IsSpaceOrNewline(a[|a| - 1])
    ensures TrimRight(a + b, true) == a + TrimRight(b, true)
  {
    if b == "" {
      assert a + b == a;
    } else if IsSpaceOrNewline(b[|b| - 1]) {
      TrimRightConcat(a, b[..|b| - 1]);
      assert (a + b)[..|a + b| - 1] == a + b[..|b| - 1];
    }
  }

  lemma TrimHead(a: string, b: string)
    requires Solid(a)
    ensures Trim(a + b, true) == a + TrimRight(b, true)
  {
    assert TrimLeft(a + b, true) == a + b;
    TrimRightConcat(a, b);
  }

  lemma TrimBlank(text: string)
    ensures TrimRight(text + " ", true) == TrimRight(text, true)
  {
    assert (text + " ")[..|text + " "| - 1] == text;
  }

  // ---------------------------------------------------------------- reading one line

  /** A line of one word. */
  lemma OneWord(verb: string)
    requires Solid(verb)
    ensures Words(Trim(verb + " ", true), 2) == [verb]
  {
    TrimHead(verb, " ");
    TrimBlank("");
    assert "" + " " == " " && verb + TrimRight("", true) == verb;
    WordsSplit(verb, "", 2);
  }

  /** A line of two words and maybe more. */
  lemma TwoWords(verb: string, word: string, more: string)
    requires Solid(verb) && Solid(word)
    requires more == "" || more[0] == ' '
    ensures Words(Trim(verb + " " + word + more, true), 2) == [verb, word] + Third(TrimRight(more, true))
  {
    hide Words, TrimRight, Third;
    var head := verb + " " + word;
    TrimHeadOfTwo(verb, word, more);
    TailStart(more);
    TwoWordsTrimmed(verb, word, TrimRight(more, true));
  }

  function Third(tail: string): seq<string> { if tail == "" then [] else Words(tail[1..], 0) }

  lemma TrimHeadOfTwo(verb: string, word: string, more: string)
    requires Solid(verb) && Solid(word)
    ensures Trim(verb + " " + word + more, true) == verb + " " + word + TrimRight(more, true)
  {
    hide TrimRight;
    var head := verb + " " + word;
    assert head[|head| - 1] == word[|word| - 1];
    assert TrimLeft(head + more, true) == head + more;
    TrimRightConcat(head, more);
  }

  lemma TwoWordsTrimmed(verb: string, word: string, tail: string)
    requires Solid(verb) && Solid(word)
    requires tail == "" || tail[0] == ' '
    ensures Words(verb + " " + word + tail, 2) == [verb, word] + Third(tail)
  {
    hide Words, Solid;
    WordsSplit(verb, word + tail, 2);
    assert verb + " " + word + tail == verb + " " + (word + tail);
    if tail == "" {
      assert word + tail == word;
      WordsSplit(word, "", 1);
      assert [verb] + [word] == [verb, word] + [];
    } else {
      assert word + tail == word + " " + tail[1..];
      WordsSplit(word, tail[1..], 1);
    }
  }

  lemma {:induction false} TailStart(more: string)
    requires more == "" || more[0] == ' '
    ensures var tail := TrimRight(more, true); tail == "" || (tail[0] == ' ' && |tail| > 1)
  {
    if more != "" && IsSpaceOrNewline(more[|more| - 1]) { TailStart(more[..|more| - 1]); }
  }

  lemma ReadsEnd(r: Results)
    ensures ReadLine(r, "end ") == r.(ended := true)
  {
    OneWord("end");
    assert "end" + " " == "end ";
  }

  lemma ReadsBegin(r: Results, total: nat)
    requires total <= 64
    ensures ReadLine(r, "begin " + Decimal(total) + " ") == r.(total := total)
  {
    hide Words, Trim, ParseInt, Decimal;
    DecimalIsSolid(total);
    TwoWords("begin", Decimal(total), " ");
    TrimBlank("");
    assert "" + " " == " ";
    assert "begin" + " " + Decimal(total) + " " == "begin " + Decimal(total) + " ";
    ParseIntDecimal(total);
  }

  lemma DecimalIsSolid(n: nat)
    ensures Solid(Decimal(n)) && Signed(n) == Decimal(n)
  {
    SignedIsSolid(n);
  }

  /** The label as it is read back. */
  function ReadLabel(run: Run): string { TrimRight(Label(run), true) }

  lemma ReadsStart(r: Results, index: nat, run: Run)
    requires 1 <= index <= 64
    ensures ReadLine(r, "start " + Decimal(index) + " " + Label(run) + " ") == r.(started := r.started[index as int := ReadLabel(run)])
  {
    hide Words, Trim, ParseInt, Decimal, Label;
    var more := " " + Label(run) + " ";
    DecimalIsSolid(index);
    TwoWords("start", Decimal(index), more);
    assert "start" + " " + Decimal(index) + more == "start " + Decimal(index) + " " + Label(run) + " ";
    ParseIntDecimal(index);
    LabelTail(run);
  }

  lemma LabelTail(run: Run)
    ensures var tail := TrimRight(" " + Label(run) + " ", true);
      if tail == "" then ReadLabel(run) == "" else
        && Words(tail[1..], 0) == [ReadLabel(run)] && Prefix64(ReadLabel(run)) == ReadLabel(run)
  {
    var text := Label(run);
    hide Label;
    TrimBlank(" " + text);
    TrimRightShorter(text);
    LabelIsShort(run);
    if TrimRight(text, true) == "" {
      TrimRightBlank(" ", text);
    } else {
      TrimRightKept(" ", text);
      assert (" " + TrimRight(text, true))[1..] == TrimRight(text, true);
    }
  }

  lemma LabelIsShort(run: Run)
    ensures |Label(run)| <= 64
  {
  }

  lemma {:induction false} TrimRightShorter(s: string)
    ensures |TrimRight(s, true)| <= |s|
  {
    if s != "" && IsSpaceOrNewline(s[|s| - 1]) { TrimRightShorter(s[..|s| - 1]); }
  }

  lemma {:induction false} TrimRightKept(a: string, b: string)
    requires TrimRight(b, true) != ""
    ensures TrimRight(a + b, true) == a + TrimRight(b, true)
  {
    if b != "" && IsSpaceOrNewline(b[|b| - 1]) {
      TrimRightKept(a, b[..|b| - 1]);
      assert (a + b)[..|a + b| - 1] == a + b[..|b| - 1];
    }
  }

  lemma {:induction false} TrimRightBlank(a: string, b: string)
    requires TrimRight(b, true) == ""
    ensures TrimRight(a + b, true) == TrimRight(a, true)
  {
    if b == "" {
      assert a + b == a;
    } else {
      TrimRightBlank(a, b[..|b| - 1]);
      assert (a + b)[..|a + b| - 1] == a + b[..|b| - 1];
    }
  }

  lemma ReadsExit(r: Results, index: nat, status: int)
    requires 1 <= index <= 64 && Fits(status)
    ensures ReadLine(r, "exit " + Decimal(index) + " " + Signed(status) + " ") == r.(exits := r.exits[index as int := status])
  {
    hide Words, Trim, ParseInt, Decimal, Signed, TrimRight;
    var more := " " + Signed(status) + " ";
    DecimalIsSolid(index);
    TwoWords("exit", Decimal(index), more);
    assert "exit" + " " + Decimal(index) + more == "exit " + Decimal(index) + " " + Signed(status) + " ";
    ParseIntDecimal(index);
    SignedReads(status);
    StatusTail(status);
  }

  lemma StatusTail(status: int)
    ensures var tail := TrimRight(" " + Signed(status) + " ", true);
      && tail != "" && Words(tail[1..], 0) == [Signed(status)] && Trim(Signed(status), false) == Signed(status)
  {
    var text := Signed(status);
    hide Signed;
    SignedIsSolid(status);
    TrimBlank(" " + text);
    TrimKeeps(text, true);
    assert TrimLeft(text, true) == text;
    TrimRightKept(" ", text);
    assert (" " + text)[1..] == text;
    TrimKeeps(text, false);
  }

  lemma ReadsServices(r: Results, outcome: string)
    ensures exists services :: ReadLine(r, "services " + outcome) == r.(services := services)
  {
    hide Words, TrimRight;
    var verb := "services";
    TrimHead(verb, " " + outcome);
    assert "services " + outcome == verb + (" " + outcome);
    TailStart(" " + outcome);
    var tail := TrimRight(" " + outcome, true);
    if tail == "" {
      assert verb + tail == verb;
      WordsSplit(verb, "", 2);
    } else {
      assert verb + tail == verb + " " + tail[1..];
      WordsSplit(verb, tail[1..], 2);
    }
    assert Words(Trim("services " + outcome, true), 2)[0] == verb;
    var services := ReadServices(r, Words(Trim("services " + outcome, true), 2)).services;
    assert ReadLine(r, "services " + outcome) == r.(services := services);
  }

  // ---------------------------------------------------------------- the lines of the file

  ghost predicate WholeLine(line: string) { line != "" && forall i :: 0 <= i < |line| ==> !IsNewline(line[i]) }

  lemma {:induction false} LinesPiece(line: string, read: string, rest: string)
    requires read + line != "" && forall i :: 0 <= i < |line| ==> !IsNewline(line[i])
    ensures Lines(line + ("\r\n" + rest), read) == [read + line] + Lines(rest, "")
  {
    var s := line + ("\r\n" + rest);
    if line == "" {
      assert s[1..] == "\n" + rest && ("\n" + rest)[1..] == rest && read + line == read;
    } else {
      assert s[1..] == line[1..] + ("\r\n" + rest);
      assert read + [line[0]] + line[1..] == read + line;
      LinesPiece(line[1..], read + [line[0]], rest);
    }
  }

  lemma {:induction false} WrittenLines(lines: seq<string>)
    requires forall i :: 0 <= i < |lines| ==> WholeLine(lines[i])
    ensures Lines(Written(lines), "") == lines
  {
    if lines != [] {
      var rest := Written(lines[1..]);
      LinesPiece(lines[0], "", rest);
      assert lines[0] + "\r\n" + rest == lines[0] + ("\r\n" + rest);
      assert "" + lines[0] == lines[0];
      WrittenLines(lines[1..]);
    }
  }

  lemma {:induction false} WrittenConcat(a: seq<string>, b: seq<string>)
    ensures Written(a + b) == Written(a) + Written(b)
  {
    if a == [] {
      assert a + b == b;
    } else {
      WrittenConcat(a[1..], b);
      assert (a + b)[1..] == a[1..] + b && (a + b)[0] == a[0];
      assert a[0] + "\r\n" + (Written(a[1..]) + Written(b)) == a[0] + "\r\n" + Written(a[1..]) + Written(b);
    }
  }

  lemma WholeConcat(a: string, b: string)
    requires WholeLine(a) && forall i :: 0 <= i < |b| ==> !IsNewline(b[i])
    ensures WholeLine(a + b)
  {
  }

  lemma LabelIsWhole(run: Run)
    ensures forall i :: 0 <= i < |Label(run)| ==> !IsNewline(Label(run)[i])
  {
    FilteredIsSafe(run.name);
  }

  ghost predicate PlainSession(s: Session) {
    && (forall i :: 0 <= i < |s.outcome| ==> !IsNewline(s.outcome[i]))
    && forall i :: 0 <= i < |s.statuses| ==> Fits(s.statuses[i])
  }

  /** A command of this batch, as far as its echo goes. */
  ghost predicate OfBatch(c: Command, processes: seq<Process>) {
    match c
    case Begin(total) => total == |processes|
    case EchoStart(index, caption) => 1 <= index <= |processes| && caption == Label(processes[index - 1].run)
    case EchoExit(index) => 1 <= index <= |processes|
    case _ => true
  }

  lemma EchoedIsWhole(c: Command, processes: seq<Process>, s: Session)
    requires PlainSession(s) && OfBatch(c, processes)
    ensures |Echoed(c, s)| <= 1 && forall i :: 0 <= i < |Echoed(c, s)| ==> WholeLine(Echoed(c, s)[i])
  {
    hide Decimal, Signed, Label, Solid;
    match c
    case Begin(total) => PartsAreWhole("begin ", total, " ");
    case EchoStart(index, caption) =>
      LabelIsWhole(processes[index - 1].run);
      PartsAreWhole("start ", index, " " + caption + " ");
    case EchoExit(index) =>
      SignedIsWhole(StatusOf(s, index));
      PartsAreWhole("exit ", index, " " + Signed(StatusOf(s, index)) + " ");
    case _ =>
  }

  lemma SignedIsWhole(v: int)
    ensures forall i :: 0 <= i < |Signed(v)| ==> !IsNewline(Signed(v)[i])
  {
    SignedIsSolid(v);
  }

  lemma PartsAreWhole(a: string, n: nat, b: string)
    requires WholeLine(a) && forall i :: 0 <= i < |b| ==> !IsNewline(b[i])
    ensures forall s :: s == a + Decimal(n) + b ==> WholeLine(s)
    ensures |b| > 1 && b[0] == ' ' && b[|b| - 1] == ' ' ==> a + Decimal(n) + b == a + Decimal(n) + " " + b[1..|b| - 1] + " "
  {
    hide Decimal;
    DecimalIsSolid(n);
    WholeConcat(a, Decimal(n));
    WholeConcat(a + Decimal(n), b);
    if |b| > 1 && b[0] == ' ' && b[|b| - 1] == ' ' { assert b == " " + b[1..|b| - 1] + " "; }
  }

  // ---------------------------------------------------------------- the commands by place

  /** The number of commands before the first program. */
  function Head(services: Services): nat { if services.Off? then 4 else 5 }

  lemma {:induction false} ProgramCommandAt(processes: seq<Process>, total: nat, index: nat)
    requires 1 <= index <= |processes|
    ensures |ProgramCommands(processes, total)| == 4 * |processes|
    ensures var c := ProgramCommands(processes, total);
      && c[4 * index - 4].Announce? && c[4 * index - 2] == RunProgram(processes[index - 1]) && c[4 * index - 1] == EchoExit(index)
      && c[4 * index - 3] == EchoStart(index, Label(processes[index - 1].run))
  {
    hide Label;
    var n := |processes|;
    var init := processes[..n - 1];
    if n == 1 {
      assert ProgramCommands(init, total) == [];
    } else {
      ProgramCommandAt(init, total, if index < n then index else n - 1);
    }
  }

  lemma ProgramCommandsLength(processes: seq<Process>, total: nat)
    ensures |ProgramCommands(processes, total)| == 4 * |processes|
  {
    if processes != [] { ProgramCommandAt(processes, total, 1); }
  }

  /** Which command stands at which place of a batch. */
  lemma CommandAt(processes: seq<Process>, services: Services, k: nat)
    requires k < |Commands(processes, services)|
    ensures |Commands(processes, services)| == Head(services) + 4 * |processes| + 1
    ensures var c, d := Commands(processes, services)[k], k - Head(services);
      && OfBatch(c, processes)
      && (k == 2 <==> c.Begin?)
      && (d == 4 * |processes| <==> c == EchoEnd)
      && (c.EchoExit? <==> 0 <= d < 4 * |processes| && d % 4 == 3)
      && (c.EchoExit? ==> d == 4 * c.index - 1)
      && (0 <= d < 4 * |processes| && d % 2 == 0 ==> c.Announce? || c.RunProgram?)
      && (c.EchoStart? <==> 0 <= d < 4 * |processes| && d % 4 == 1)
      && (c.EchoStart? ==> d == 4 * c.index - 3)
      && (c.RunProgram? ==> exists index :: 1 <= index <= |processes| && c.process == processes[index - 1] && d == 4 * index - 2)
  {
    hide Label, ProgramCommands;
    ProgramCommandsLength(processes, |processes|);
    var d := k - Head(services);
    if 0 <= d < 4 * |processes| {
      var index := d / 4 + 1;
      ProgramCommandAt(processes, |processes|, index);
      var c := ProgramCommands(processes, |processes|);
      assert Commands(processes, services)[k] == c[d];
      assert d == 4 * index - 4 || d == 4 * index - 3 || d == 4 * index - 2 || d == 4 * index - 1;
    }
  }

  // ---------------------------------------------------------------- the agreement

  /** What the reader knows after `k` commands of a batch. */
  ghost predicate Reported(r: Results, processes: seq<Process>, services: Services, s: Session, k: nat) {
    var n, head := |processes|, Head(services);
    && (forall i :: i in r.exits <==> 1 <= i <= n && head + 4 * i <= k)
    && (forall i :: i in r.exits ==> i >= 0 && r.exits[i] == StatusOf(s, i))
    && (forall i :: i in r.started <==> 1 <= i <= n && head + 4 * i - 2 <= k)
    && (forall i :: i in r.started ==> 1 <= i <= n && r.started[i] == ReadLabel(processes[i - 1].run))
    && (r.ended <==> head + 4 * n < k)
    && r.total == if k > 2 then n else 0
  }

  /** What reading a command's echo does. */
  ghost predicate Effect(r: Results, after: Results, c: Command, processes: seq<Process>, s: Session)
    requires OfBatch(c, processes)
  {
    match c
    case Begin(total) => after == r.(total := total)
    case ServicesOff => after == r.(services := after.services)
    case StartServices(_) => after == r.(services := after.services)
    case ServicesFailed => after == r.(services := after.services)
    case EchoStart(index, caption) => after == r.(started := r.started[index as int := ReadLabel(processes[index - 1].run)])
    case EchoExit(index) => after == r.(exits := r.exits[index as int := StatusOf(s, index)])
    case EchoEnd => after == r.(ended := true)
    case _ => after == r
  }

  lemma StatusFits(s: Session, index: nat)
    requires PlainSession(s)
    ensures Fits(StatusOf(s, index))
  {
  }

  lemma EchoHasEffect(r: Results, c: Command, processes: seq<Process>, s: Session)
    requires |processes| <= 64 && PlainSession(s) && OfBatch(c, processes)
    ensures Echoed(c, s) == [] ==> Effect(r, r, c, processes, s)
    ensures |Echoed(c, s)| == 1 ==> Effect(r, ReadLine(r, Echoed(c, s)[0]), c, processes, s)
  {
    hide ReadLine, ReadLabel, Label, Decimal, Signed, StatusOf;
    match c
    case Begin(total) => ReadsBegin(r, total);
    case ServicesOff =>
      ReadsServices(r, "off ");
      assert "services " + "off " == "services off ";
    case StartServices(_) => ReadsServices(r, s.outcome);
    case ServicesFailed =>
      ReadsServices(r, "failed ");
      assert "services " + "failed " == "services failed ";
    case EchoStart(index, caption) => ReadsStart(r, index, processes[index - 1].run);
    case EchoExit(index) =>
      StatusFits(s, index);
      ReadsExit(r, index, StatusOf(s, index));
    case EchoEnd => ReadsEnd(r);
    case _ =>
  }

  lemma ReportedNext(r: Results, after: Results, processes: seq<Process>, services: Services, s: Session, k: nat)
    requires k < |Commands(processes, services)| && Reported(r, processes, services, s, k)
    requires OfBatch(Commands(processes, services)[k], processes)
    requires Effect(r, after, Commands(processes, services)[k], processes, s)
    ensures Reported(after, processes, services, s, k + 1)
  {
    hide ReadLabel, Label, Commands, StatusOf;
    CommandAt(processes, services, k);
  }

  /** Programs echo every other command. */
  function EchoBound(services: Services, k: nat): int {
    if k <= Head(services) then 2 * k else k + Head(services) - (k - Head(services)) % 2
  }

  lemma {:induction false} ReadAllEchoed(processes: seq<Process>, services: Services, s: Session, k: nat)
    requires |processes| <= 64 && PlainSession(s) && k <= |Commands(processes, services)|
    ensures var lines := AllEchoed(Commands(processes, services)[..k], s);
      && Reported(ReadLines(lines), processes, services, s, k)
      && (forall i :: 0 <= i < |lines| ==> WholeLine(lines[i]))
  {
    hide ReadLine, Echoed, Commands, WholeLine, Effect, OfBatch;
    if k > 0 {
      hide Reported;
      var commands := Commands(processes, services);
      ReadAllEchoed(processes, services, s, k - 1);
      CommandAt(processes, services, k - 1);
      EchoedIsWhole(commands[k - 1], processes, s);
      var lines, echoed := AllEchoed(commands[..k - 1], s), Echoed(commands[k - 1], s);
      assert commands[..k][..k - 1] == commands[..k - 1];
      var r := ReadLines(lines);
      EchoHasEffect(r, commands[k - 1], processes, s);
      if echoed == [] {
        ReportedNext(r, r, processes, services, s, k - 1);
        assert lines + echoed == lines;
      } else {
        ReportedNext(r, ReadLine(r, echoed[0]), processes, services, s, k - 1);
        assert (lines + echoed)[..|lines|] == lines;
      }
    } else {
      assert Commands(processes, services)[..0] == [];
      CommandsLength(processes, services);
    }
  }

  lemma CommandsLength(processes: seq<Process>, services: Services)
    ensures |Commands(processes, services)| == Head(services) + 4 * |processes| + 1
  {
    ProgramCommandsLength(processes, |processes|);
  }

  lemma EchoCount(processes: seq<Process>, services: Services, s: Session, k: nat)
    requires PlainSession(s) && k < |Commands(processes, services)|
    ensures var echoed, d := Echoed(Commands(processes, services)[k], s), k - Head(services);
      |echoed| <= if 0 <= d < 4 * |processes| && d % 2 == 0 then 0 else 1
  {
    hide Commands;
    CommandAt(processes, services, k);
    EchoedIsWhole(Commands(processes, services)[k], processes, s);
  }

  lemma {:induction false} CountEchoed(processes: seq<Process>, services: Services, s: Session, k: nat)
    requires PlainSession(s) && k <= Head(services) + 4 * |processes| < |Commands(processes, services)|
    ensures 2 * |AllEchoed(Commands(processes, services)[..k], s)| <= EchoBound(services, k)
  {
    if k > 0 {
      hide Echoed, Commands, PlainSession;
      CountEchoed(processes, services, s, k - 1);
      EchoCount(processes, services, s, k - 1);
      EchoedNext(Commands(processes, services), s, k - 1);
      hide AllEchoed, EchoBound;
      EchoBoundNext(services, k - 1);
    }
  }

  lemma EchoBoundNext(services: Services, k: nat)
    ensures var d := k - Head(services); EchoBound(services, k + 1) == EchoBound(services, k) + if d >= 0 && d % 2 == 0 then 0 else 2
    ensures EchoBound(services, k) <= k + Head(services)
    ensures EchoBound(services, 0) == 0
  {
  }

  lemma EchoedNext(commands: seq<Command>, s: Session, k: nat)
    requires k < |commands|
    ensures |AllEchoed(commands[..k + 1], s)| == |AllEchoed(commands[..k], s)| + |Echoed(commands[k], s)|
  {
    hide Echoed;
    assert commands[..k + 1][..k] == commands[..k];
  }

  /** No result file of a batch has more lines than are read. */
  lemma FewLines(processes: seq<Process>, services: Services, s: Session, k: nat)
    requires |processes| <= 64 && PlainSession(s) && k <= |Commands(processes, services)|
    ensures |AllEchoed(Commands(processes, services)[..k], s)| <= MAX_LINES
  {
    hide Echoed, Commands, PlainSession;
    CommandsLength(processes, services);
    var commands := Commands(processes, services);
    if k < |commands| {
      CountEchoed(processes, services, s, k);
    } else {
      CountEchoed(processes, services, s, k - 1);
      EchoCount(processes, services, s, k - 1);
      EchoedNext(commands, s, k - 1);
    }
  }

  /** What the first `k` commands have echoed reads back as exactly what happened. */
  lemma EchoesReadBack(processes: seq<Process>, services: Services, s: Session, k: nat)
    requires |processes| <= 64 && PlainSession(s) && k <= |Commands(processes, services)|
    ensures Reported(ResultsOf(Written(AllEchoed(Commands(processes, services)[..k], s))), processes, services, s, k)
  {
    hide AllEchoed, Commands, ReadLines, Reported;
    ReadAllEchoed(processes, services, s, k);
    FewLines(processes, services, s, k);
    WrittenLines(AllEchoed(Commands(processes, services)[..k], s));
  }

  /** Whatever line of the batch a session was cut off at, the result file reads back as exactly
      what happened: the programs that exited are the first ones, each with its own status under
      its own number, the programs that started are the same ones or one more, and the end is
      seen only when the whole batch ran. */
  lemma ResultsAgree(processes: seq<Process>, services: Services, s: Session)
    requires |processes| <= 64 && PlainSession(s)
    ensures Reported(ResultsOf(ResultFile(processes, services, s)), processes, services, s, |Executed(processes, services, s)|)
  {
    hide AllEchoed, Commands, ResultsOf, Reported;
    var commands := Commands(processes, services);
    var k := |Executed(processes, services, s)|;
    assert commands[..|commands|] == commands;
    assert Executed(processes, services, s) == commands[..k];
    EchoesReadBack(processes, services, s, k);
  }

  /** A status that is read back was reported right after its own program ran. */
  lemma ExitFollowsItsProgram(processes: seq<Process>, services: Services, s: Session, index: int)
    requires |processes| <= 64 && PlainSession(s)
    requires index in ResultsOf(ResultFile(processes, services, s)).exits
    ensures 1 <= index <= |processes|
    ensures ResultsOf(ResultFile(processes, services, s)).exits[index] == StatusOf(s, index)
    ensures exists k: nat :: (k + 1 < |Executed(processes, services, s)|
      && Executed(processes, services, s)[k] == RunProgram(processes[index - 1]) && Executed(processes, services, s)[k + 1] == EchoExit(index))
  {
    hide ResultsOf, ResultFile, Label;
    ResultsAgree(processes, services, s);
    CommandsLength(processes, services);
    var k := Head(services) + 4 * index - 2;
    CommandAt(processes, services, k + 1);
    ProgramCommandAt(processes, |processes|, index);
    assert Commands(processes, services)[k] == ProgramCommands(processes, |processes|)[4 * index - 2];
    assert Executed(processes, services, s)[k] == RunProgram(processes[index - 1]);
    assert Executed(processes, services, s)[k + 1] == EchoExit(index);
  }

  // ---------------------------------------------------------------- the batch as text

  ghost predicate NoBreaks(s: string) { forall i :: 0 <= i < |s| ==> !IsNewline(s[i]) }

  lemma {:induction false} UnquotedNoBreaks(s: string)
    requires NoBreaks(s)
    ensures NoBreaks(Unquoted(s))
  {
    if s != "" { UnquotedNoBreaks(s[1..]); }
  }

  lemma DecimalNoBreaks(n: nat)
    ensures NoBreaks(Decimal(n))
  {
    DecimalIsSolid(n);
  }

  /** The texts in a command have no line breaks. */
  ghost predicate PlainCommand(c: Command) {
    match c
    case StartServices(executable) => NoBreaks(executable)
    case Announce(_, _, caption) => NoBreaks(caption)
    case EchoStart(_, caption) => NoBreaks(caption)
    case RunProgram(p) => NoBreaks(p.executable) && NoBreaks(p.arguments)
    case _ => true
  }

  lemma Both(a: string, b: string)
    requires NoBreaks(a) && NoBreaks(b)
    ensures NoBreaks(a + b)
  {
  }

  lemma Three(a: string, b: string, c: string)
    requires NoBreaks(a) && NoBreaks(b) && NoBreaks(c)
    ensures NoBreaks(a + b + c)
  {
  }

  /** The fixed texts of the batch have no line breaks. */
  lemma EchoTexts()
    ensures NoBreaks("echo begin ") && NoBreaks("echo services off") && NoBreaks("\" --start-services")
    ensures NoBreaks("echo start ") && NoBreaks("echo exit ") && NoBreaks(" %ERRORLEVEL%") && NoBreaks("echo end")
  {
  }

  lemma OtherTexts()
    ensures NoBreaks("@echo off") && NoBreaks("echo [dock-installers] running ") && NoBreaks("call ")
    ensures NoBreaks("/") && NoBreaks(" ") && NoBreaks("\"") && NoBreaks("")
  {
  }

  lemma LongTexts()
    ensures NoBreaks("rem Madeira Dock: a game's one-time " + "installs, before the host starts the game")
  {
    var a, b := "rem Madeira Dock: a game's one-time ", "installs, before the host starts the game";
    RemarkHead();
    RemarkTail();
    hide NoBreaks;
    Both(a, b);
  }

  lemma RemarkHead()
    ensures NoBreaks("rem Madeira Dock: a game's one-time ")
  {
  }

  lemma RemarkTail()
    ensures NoBreaks("installs, before the host starts the game")
  {
  }

  lemma PackageText()
    ensures NoBreaks("C:\\windows\\system32\\msiexec.exe /i ")
  {
  }

  lemma FailedText()
    ensures NoBreaks("if not \"%ERRORLEVEL%\"==\"0\" " + "echo services failed")
  {
    Both("if not \"%ERRORLEVEL%\"==\"0\" ", "echo services failed");
  }

  lemma CommandNoBreaks(c: Command, create: string, result: string)
    requires PlainCommand(c) && NoBreaks(create) && NoBreaks(result)
    ensures NoBreaks(CommandText(c, create, result))
  {
    EchoTexts();
    OtherTexts();
    LongTexts();
    PackageText();
    FailedText();
    hide NoBreaks, Decimal, Unquoted, IsPackage;
    match c
    case EchoOff =>
    case Remark =>
    case Begin(total) =>
      DecimalNoBreaks(total);
      Three("echo begin ", Decimal(total), create);
    case ServicesOff => Both("echo services off", result);
    case StartServices(executable) =>
      UnquotedNoBreaks(executable);
      Both("\"", Unquoted(executable));
      Three("\"" + Unquoted(executable), "\" --start-services", result);
    case ServicesFailed => Both("if not \"%ERRORLEVEL%\"==\"0\" " + "echo services failed", result);
    case Announce(index, total, caption) =>
      DecimalNoBreaks(index);
      DecimalNoBreaks(total);
      var head := "echo [dock-installers] running ";
      Three(head, Decimal(index), "/");
      Three(head + Decimal(index) + "/", Decimal(total), " ");
      Both(head + Decimal(index) + "/" + Decimal(total) + " ", caption);
    case EchoStart(index, caption) =>
      DecimalNoBreaks(index);
      Three("echo start ", Decimal(index), " ");
      Three("echo start " + Decimal(index) + " ", caption, result);
    case RunProgram(p) =>
      var head := if IsPackage(p.executable) then "C:\\windows\\system32\\msiexec.exe /i " else "call ";
      var tail := if p.arguments == "" then "" else " " + p.arguments;
      Both(" ", p.arguments);
      Three(head, "\"", p.executable);
      Three(head + "\"" + p.executable, "\"", tail);
    case EchoExit(index) =>
      DecimalNoBreaks(index);
      Three("echo exit ", Decimal(index), " %ERRORLEVEL%");
      Both("echo exit " + Decimal(index) + " %ERRORLEVEL%", result);
    case EchoEnd => Both("echo end", result);
  }

  lemma CommandIsWhole(c: Command, create: string, result: string)
    requires PlainCommand(c) && NoBreaks(create) && NoBreaks(result)
    ensures WholeLine(CommandText(c, create, result))
  {
    CommandNoBreaks(c, create, result);
    CommandIsSomething(c, create, result);
    hide CommandText;
  }

  lemma CommandIsSomething(c: Command, create: string, result: string)
    ensures CommandText(c, create, result) != ""
  {
    hide Decimal, Unquoted, IsPackage;
  }

  lemma {:induction false} TextsAreWhole(commands: seq<Command>, create: string, result: string)
    requires (forall i :: 0 <= i < |commands| ==> PlainCommand(commands[i])) && NoBreaks(create) && NoBreaks(result)
    ensures var texts := CommandTexts(commands, create, result);
      |texts| == |commands| && forall i :: 0 <= i < |texts| ==> texts[i] == CommandText(commands[i], create, result) && WholeLine(texts[i])
  {
    hide CommandText, WholeLine, NoBreaks, PlainCommand;
    if commands != [] {
      var n := |commands| - 1;
      TextsAreWhole(commands[..n], create, result);
      CommandIsWhole(commands[n], create, result);
    }
  }

  lemma {:induction false} JoinIsWritten(lines: seq<string>)
    requires lines != []
    ensures Join(lines, "\r\n") + "\r\n" == Written(lines)
  {
    if |lines| > 1 {
      JoinIsWritten(lines[1..]);
      assert lines[0] + "\r\n" + Join(lines[1..], "\r\n") + "\r\n" == lines[0] + "\r\n" + (Join(lines[1..], "\r\n") + "\r\n");
    } else {
      assert Written(lines[1..]) == "";
    }
  }

  lemma {:induction false} ProgramsArePlain(processes: seq<Process>, total: nat)
    requires forall i :: 0 <= i < |processes| ==> NoBreaks(processes[i].executable) && NoBreaks(processes[i].arguments)
    ensures forall i :: 0 <= i < |ProgramCommands(processes, total)| ==> PlainCommand(ProgramCommands(processes, total)[i])
  {
    hide NoBreaks, Label;
    if processes != [] {
      var n := |processes|;
      ProgramsArePlain(processes[..n - 1], total);
      LabelNoBreaks(processes[n - 1].run);
    }
  }

  lemma LabelNoBreaks(run: Run)
    ensures NoBreaks(Label(run))
  {
    LabelIsWhole(run);
  }

  /** No path or argument that the batch takes over holds a line break. */
  ghost predicate PlainBatch(processes: seq<Process>, resultFile: string, services: Services) {
    && (forall i :: 0 <= i < |processes| ==> NoBreaks(processes[i].executable) && NoBreaks(processes[i].arguments))
    && NoBreaks(resultFile) && (services.Start? ==> NoBreaks(services.executable))
  }

  lemma PlainBatchHasItsLines(processes: seq<Process>, resultFile: string, services: Services)
    requires PlainBatch(processes, resultFile, services)
    ensures var file := "\"" + Unquoted(resultFile) + "\"";
      Lines(BatchText(processes, resultFile, services), "") == CommandTexts(Commands(processes, services), " >" + file, " >>" + file)
  {
    hide CommandText, ProgramCommands, WholeLine;
    var file := "\"" + Unquoted(resultFile) + "\"";
    UnquotedNoBreaks(resultFile);
    ProgramsArePlain(processes, |processes|);
    var commands := Commands(processes, services);
    TextsAreWhole(commands, " >" + file, " >>" + file);
    var texts := CommandTexts(commands, " >" + file, " >>" + file);
    JoinIsWritten(texts);
    WrittenLines(texts);
  }

  lemma {:induction false} LinesHaveNoBreaks(text: string, line: string)
    requires NoBreaks(line)
    ensures forall i :: 0 <= i < |Lines(text, line)| ==> NoBreaks(Lines(text, line)[i])
  {
    if text != "" { LinesHaveNoBreaks(text[1..], if IsNewline(text[0]) then "" else line + [text[0]]); }
  }

  lemma BreakStays(before: string, part: string, after: string)
    requires !NoBreaks(part)
    ensures !NoBreaks(before + part + after)
  {
    var i :| 0 <= i < |part| && IsNewline(part[i]);
    assert (before + part + after)[|before| + i] == part[i];
  }

  lemma {:induction false} UnquotedKeepsBreak(s: string)
    requires !NoBreaks(s)
    ensures !NoBreaks(Unquoted(s))
  {
    var i :| 0 <= i < |s| && IsNewline(s[i]);
    if i == 0 {
      assert Unquoted(s)[0] == s[0];
    } else {
      assert IsNewline(s[1..][i - 1]);
      UnquotedKeepsBreak(s[1..]);
      BreakStays(if s[0] == '\"' then "" else [s[0]], Unquoted(s[1..]), "");
      assert (if s[0] == '\"' then "" else [s[0]]) + Unquoted(s[1..]) + "" == Unquoted(s);
    }
  }

  lemma {:induction false} TextsAre(commands: seq<Command>, create: string, result: string)
    ensures var texts := CommandTexts(commands, create, result);
      |texts| == |commands| && forall i :: 0 <= i < |texts| ==> texts[i] == CommandText(commands[i], create, result)
  {
    hide CommandText;
    if commands != [] { TextsAre(commands[..|commands| - 1], create, result); }
  }

  lemma ProgramKeepsBreak(p: Process, create: string, result: string)
    requires !NoBreaks(p.executable) || !NoBreaks(p.arguments)
    ensures !NoBreaks(CommandText(RunProgram(p), create, result))
  {
    hide NoBreaks, IsPackage;
    ProgramText(if IsPackage(p.executable) then "C:\\windows\\system32\\msiexec.exe /i " else "call ", p.executable, p.arguments);
  }

  lemma ProgramText(head: string, executable: string, arguments: string)
    requires !NoBreaks(executable) || !NoBreaks(arguments)
    ensures !NoBreaks(head + "\"" + executable + "\"" + (if arguments == "" then "" else " " + arguments))
  {
    var tail := if arguments == "" then "" else " " + arguments;
    if !NoBreaks(executable) {
      hide NoBreaks;
      BreakStays(head + "\"", executable, "\"" + tail);
      assert head + "\"" + executable + ("\"" + tail) == head + "\"" + executable + "\"" + tail;
    } else {
      assert arguments != "";
      hide NoBreaks;
      BreakStays(head + "\"" + executable + "\"" + " ", arguments, "");
      assert head + "\"" + executable + "\"" + " " + arguments + "" == head + "\"" + executable + "\"" + tail;
    }
  }

  /** A line break in a path or in arguments stands in the text of some command. */
  lemma BreakIsInSomeText(processes: seq<Process>, resultFile: string, services: Services) returns (k: nat)
    requires !PlainBatch(processes, resultFile, services)
    ensures var file, commands := "\"" + Unquoted(resultFile) + "\"", Commands(processes, services);
      k < |commands| && !NoBreaks(CommandText(commands[k], " >" + file, " >>" + file))
  {
    hide NoBreaks, Decimal, Unquoted, ProgramCommands;
    var file, commands := "\"" + Unquoted(resultFile) + "\"", Commands(processes, services);
    var create, result := " >" + file, " >>" + file;
    CommandsLength(processes, services);
    if !NoBreaks(resultFile) {
      k := 2;
      UnquotedKeepsBreak(resultFile);
      BreakStays("echo begin " + Decimal(|processes|) + " >\"", Unquoted(resultFile), "\"");
      assert CommandText(Begin(|processes|), create, result) == "echo begin " + Decimal(|processes|) + " >\"" + Unquoted(resultFile) + "\"";
    } else if services.Start? && !NoBreaks(services.executable) {
      k := 3;
      UnquotedKeepsBreak(services.executable);
      BreakStays("\"", Unquoted(services.executable), "\" --start-services" + result);
      assert CommandText(StartServices(services.executable), create, result) == "\"" + Unquoted(services.executable) + ("\" --start-services" + result);
    } else {
      var i :| 0 <= i < |processes| && (!NoBreaks(processes[i].executable) || !NoBreaks(processes[i].arguments));
      k := Head(services) + 4 * (i + 1) - 2;
      ProgramCommandAt(processes, |processes|, i + 1);
      assert commands[k] == ProgramCommands(processes, |processes|)[4 * (i + 1) - 2];
      ProgramKeepsBreak(processes[i], create, result);
    }
  }

  /** The lines of the batch's text are its commands, one for one, exactly when no path or argument
      holds a line break: then, and only then, no program can add a line. */
  lemma BatchHasItsLines(processes: seq<Process>, resultFile: string, services: Services)
    ensures var file := "\"" + Unquoted(resultFile) + "\"";
      (Lines(BatchText(processes, resultFile, services), "") == CommandTexts(Commands(processes, services), " >" + file, " >>" + file))
        <==> PlainBatch(processes, resultFile, services)
  {
    hide CommandText, Commands, BatchText, Unquoted, NoBreaks, PlainBatch;
    var file := "\"" + Unquoted(resultFile) + "\"";
    if PlainBatch(processes, resultFile, services) {
      PlainBatchHasItsLines(processes, resultFile, services);
    } else {
      var k := BreakIsInSomeText(processes, resultFile, services);
      var texts := CommandTexts(Commands(processes, services), " >" + file, " >>" + file);
      TextsAre(Commands(processes, services), " >" + file, " >>" + file);
      OtherTexts();
      LinesHaveNoBreaks(BatchText(processes, resultFile, services), "");
      assert !NoBreaks(texts[k]);
    }
  }

  /** The guard a program's path has to pass. */
  predicate Accepted(executable: string) {
    var lower := Lower(executable);
    && |executable| > 3 && "C:\\" <= executable
    && '%' !in executable && '\"' !in executable && Find(executable, "..") == |executable|
    && (".exe" == lower[|lower| - 4..] || ".msi" == lower[|lower| - 4..])
  }

  const BREAKING := "C:\\a\nb.exe"

  lemma TwoDotsAt(s: string, at: nat)
    requires at < |s| && ".." <= s[at..]
    ensures at + 1 < |s| && s[at] == '.' && s[at + 1] == '.'
  {
    assert s[at..][0] == '.' && s[at..][1] == '.';
  }

  lemma NoTwoDots(s: string)
    requires forall k :: 0 <= k < |s| - 1 ==> s[k] != '.' || s[k + 1] != '.'
    ensures Find(s, "..") == |s|
  {
    var at := Find(s, "..");
    if at < |s| { TwoDotsAt(s, at); }
  }

  lemma ExeSuffix(s: string)
    requires |s| > 4 && s[|s| - 4..] == ".exe"
    ensures Lower(s)[|s| - 4..] == ".exe"
  {
    assert forall k :: 0 <= k < 4 ==> s[|s| - 4 + k] == ".exe"[k];
  }

  lemma BreakingShape()
    ensures |BREAKING| == 10 && "C:\\" <= BREAKING && BREAKING[6..] == ".exe"
    ensures forall k :: 0 <= k < 9 ==> BREAKING[k] != '.' || BREAKING[k + 1] != '.'
    ensures '%' !in BREAKING && '\"' !in BREAKING
  {
  }

  lemma BreakingIsAccepted()
    ensures Accepted(BREAKING)
  {
    hide Find, Lower, BREAKING;
    BreakingShape();
    NoTwoDots(BREAKING);
    ExeSuffix(BREAKING);
  }

  /** A path with a line break passes it, and a batch with it is not the lines of its commands. */
  lemma BreakingPathIsAccepted(run: Run, resultFile: string, services: Services)
    ensures Accepted(BREAKING) && !PlainBatch([Process(run, BREAKING, "")], resultFile, services)
  {
    hide Accepted;
    BreakingIsAccepted();
    assert BREAKING[4] == '\n';
    assert !NoBreaks([Process(run, BREAKING, "")][0].executable);
  }
}
