/** How long a result file can get: what keeps a session's report within what the next start reads. */
module InstallResultSizes {
  import opened Numbers
  import opened InstallBatch
  import opened InstallBatchLaws

  function PowerOfTen(k: nat): nat { if k == 0 then 1 else 10 * PowerOfTen(k - 1) }

  lemma {:induction false} DecimalLength(n: nat, k: nat)
    requires k > 0 && n < PowerOfTen(k)
    ensures |Decimal(n)| <= k
  {
    if n >= 10 {
      assert k > 1 by { assert PowerOfTen(1) == 10 * PowerOfTen(0) == 10; }
      DecimalLength(n / 10, k - 1);
    }
  }

  /** Exit statuses have at most 19 digits, the numbers of programs at most two. */
  lemma NumberLengths(n: nat, v: int)
    requires n <= 64 && Fits(v)
    ensures |Decimal(n)| <= 2 && |Signed(v)| <= 20
  {
    assert PowerOfTen(2) == 100;
    DecimalLength(n, 2);
    NineteenDigits();
    DecimalLength(if v < 0 then -v else v, 19);
  }

  lemma NineteenDigits()
    ensures PowerOfTen(19) == 10_000_000_000_000_000_000
  {
    assert PowerOfTen(5) == 100_000;
    assert PowerOfTen(10) == 10_000_000_000;
    assert PowerOfTen(15) == 1_000_000_000_000_000;
  }

  /** The most a command's echo adds to the result file, its line break included. */
  function EchoSize(c: Command, outcome: nat): nat {
    match c
    case Begin(_) => 11
    case ServicesOff => 15
    case StartServices(_) => 11 + outcome
    case ServicesFailed => 18
    case EchoStart(_, _) => 76
    case EchoExit(_) => 31
    case EchoEnd => 6
    case _ => 0
  }

  function EchoSizes(commands: seq<Command>, outcome: nat): nat {
    if commands == [] then 0 else EchoSizes(commands[..|commands| - 1], outcome) + EchoSize(commands[|commands| - 1], outcome)
  }

  lemma {:induction false} EchoSizesConcat(a: seq<Command>, b: seq<Command>, outcome: nat)
    ensures EchoSizes(a + b, outcome) == EchoSizes(a, outcome) + EchoSizes(b, outcome)
  {
    hide EchoSize;
    if b == [] {
      assert a + b == a;
    } else {
      EchoSizesConcat(a, b[..|b| - 1], outcome);
      assert (a + b)[..|a + b| - 1] == a + b[..|b| - 1];
    }
  }

  lemma EchoedSize(c: Command, processes: seq<Process>, s: Session)
    requires |processes| <= 64 && PlainSession(s) && OfBatch(c, processes)
    ensures |Echoed(c, s)| <= 1 && (|Echoed(c, s)| == 1 ==> |Echoed(c, s)[0]| + 2 <= EchoSize(c, |s.outcome|))
  {
    hide Decimal, Signed, Label, StatusOf, PlainSession;
    match c
    case Begin(total) => NumberLengths(total, 0);
    case EchoStart(index, caption) =>
      NumberLengths(index, 0);
      LabelIsShort(processes[index - 1].run);
    case EchoExit(index) =>
      StatusFits(s, index);
      NumberLengths(index, StatusOf(s, index));
    case _ =>
  }

  lemma WrittenOne(line: string)
    ensures |Written([line])| == |line| + 2 && Written([]) == ""
  {
    assert [line][1..] == [];
  }

  lemma {:induction false} EchoedSizes(processes: seq<Process>, services: Services, s: Session, k: nat)
    requires |processes| <= 64 && PlainSession(s) && k <= |Commands(processes, services)|
    ensures |Written(AllEchoed(Commands(processes, services)[..k], s))| <= EchoSizes(Commands(processes, services)[..k], |s.outcome|)
  {
    hide Echoed, Commands, EchoSize, OfBatch, PlainSession, Written;
    var commands := Commands(processes, services);
    if k == 0 {
      assert commands[..0] == [];
      WrittenOne("");
    } else {
      EchoedSizes(processes, services, s, k - 1);
      CommandAt(processes, services, k - 1);
      EchoedSize(commands[k - 1], processes, s);
      assert commands[..k][..k - 1] == commands[..k - 1];
      var echoed := Echoed(commands[k - 1], s);
      WrittenConcat(AllEchoed(commands[..k - 1], s), echoed);
      if echoed == [] { WrittenOne(""); } else { WrittenOne(echoed[0]); assert echoed == [echoed[0]]; }
    }
  }

  lemma EchoSizesOfPart(commands: seq<Command>, k: nat, outcome: nat)
    requires k <= |commands|
    ensures EchoSizes(commands[..k], outcome) <= EchoSizes(commands, outcome)
  {
    EchoSizesConcat(commands[..k], commands[k..], outcome);
    assert commands[..k] + commands[k..] == commands;
  }

  lemma SizeNext(commands: seq<Command>, c: Command, outcome: nat)
    ensures EchoSizes(commands + [c], outcome) == EchoSizes(commands, outcome) + EchoSize(c, outcome)
  {
    assert (commands + [c])[..|commands|] == commands;
  }

  lemma FewSizes(a: Command, b: Command, c: Command, d: Command, outcome: nat)
    ensures EchoSizes([a], outcome) == EchoSize(a, outcome)
    ensures EchoSizes([a, b], outcome) == EchoSize(a, outcome) + EchoSize(b, outcome)
    ensures EchoSizes([a, b, c], outcome) == EchoSize(a, outcome) + EchoSize(b, outcome) + EchoSize(c, outcome)
    ensures EchoSizes([a, b, c, d], outcome) == EchoSize(a, outcome) + EchoSize(b, outcome) + EchoSize(c, outcome) + EchoSize(d, outcome)
  {
    hide EchoSize;
    SizeNext([], a, outcome);
    SizeNext([a], b, outcome);
    SizeNext([a, b], c, outcome);
    SizeNext([a, b, c], d, outcome);
    assert [] + [a] == [a] && [a] + [b] == [a, b] && [a, b] + [c] == [a, b, c] && [a, b, c] + [d] == [a, b, c, d];
  }

  lemma {:induction false} ProgramSizes(processes: seq<Process>, total: nat, outcome: nat)
    ensures EchoSizes(ProgramCommands(processes, total), outcome) == 107 * |processes|
  {
    hide Label;
    if processes != [] {
      var n := |processes|;
      ProgramSizes(processes[..n - 1], total, outcome);
      var own := OneProgram(processes[n - 1], n, total);
      EchoSizesConcat(ProgramCommands(processes[..n - 1], total), own, outcome);
      FewSizes(own[0], own[1], own[2], own[3], outcome);
      assert own == [own[0], own[1], own[2], own[3]];
    }
  }

  lemma HeadSizes(total: nat, services: Services, outcome: nat)
    ensures EchoSizes([EchoOff, Remark, Begin(total)] + ServicesCommands(services), outcome) <= 40 + outcome
  {
    hide EchoSizes;
    EchoSizesConcat([EchoOff, Remark, Begin(total)], ServicesCommands(services), outcome);
    FewSizes(EchoOff, Remark, Begin(total), EchoEnd, outcome);
    match services
    case Off => FewSizes(ServicesOff, EchoEnd, EchoEnd, EchoEnd, outcome);
    case Start(executable) => FewSizes(StartServices(executable), ServicesFailed, EchoEnd, EchoEnd, outcome);
  }

  /** A session's result file is as long as its outcome of the services, 46 characters, and 107 for
      each program, at most. */
  lemma ResultFileSize(processes: seq<Process>, services: Services, s: Session)
    requires |processes| <= 64 && PlainSession(s)
    ensures |ResultFile(processes, services, s)| <= 46 + |s.outcome| + 107 * |processes|
  {
    hide AllEchoed, Written, EchoSizes, ProgramCommands, ServicesCommands;
    var commands := Commands(processes, services);
    var k := |Executed(processes, services, s)|;
    assert commands[..|commands|] == commands;
    assert Executed(processes, services, s) == commands[..k];
    EchoedSizes(processes, services, s, k);
    EchoSizesOfPart(commands, k, |s.outcome|);
    var head, programs := [EchoOff, Remark, Begin(|processes|)] + ServicesCommands(services), ProgramCommands(processes, |processes|);
    assert commands == head + programs + [EchoEnd];
    EchoSizesConcat(head + programs, [EchoEnd], |s.outcome|);
    EchoSizesConcat(head, programs, |s.outcome|);
    HeadSizes(|processes|, services, |s.outcome|);
    ProgramSizes(processes, |processes|, |s.outcome|);
    FewSizes(EchoEnd, EchoEnd, EchoEnd, EchoEnd, |s.outcome|);
  }
}
