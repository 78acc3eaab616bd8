/** The record of one launch (`LaunchDiagnostics.c`): which stages were reached and when, a bounded
    table of distinct problems, and the verdict. Recognising log lines is not part of this model: a
    recognised line is a stage or a problem event. */
module LaunchRecord {
  import opened Text

  // ---------------------------------------------------------------- categories and stages

  datatype Category =
    | NoProblem | ProcessFailure | MissingDll | Device | Swapchain | Shader | Present | Window | Video
    | Unimplemented | Dependency | Architecture | WineInit | Audio | Unclassified

  /** The order in which the verdict asks for categories. */
  function Rank(cat: Category): nat {
    match cat
    case WineInit => 0
    case MissingDll => 1
    case Architecture => 2
    case Unimplemented => 3
    case Dependency => 4
    case ProcessFailure => 5
    case Device => 6
    case Swapchain => 7
    case Present => 8
    case Window => 9
    case Shader => 10
    case Video => 11
    case Audio => 12
    case Unclassified => 13
    case NoProblem => 14
  }

  const ORDER := [WineInit, MissingDll, Architecture, Unimplemented, Dependency, ProcessFailure, Device, Swapchain,
                  Present, Window, Shader, Video, Audio, Unclassified]

  const LAUNCH := 0
  const CHILD_PROCESS := 2
  const GRAPHICS_API := 3
  const FIRST_PRESENT := 7
  const PROCESS_EXIT := 9
  const STAGES := 10

  const MAX_PROBLEMS := 24
  const DETAIL := 240
  const KEY := 96

  type Word = x: nat | x < 0x1_0000_0000
  const WORD := 0x1_0000_0000

  function Plus1(x: Word): Word { if x + 1 == WORD then 0 else x + 1 }

  datatype Stage = Stage(reached: bool, time: real, detail: string)

  datatype Problem = Problem(cat: Category, key: string, error: string, time: real, count: Word)

  datatype Launch = Launch(
    stages: seq<Stage>, problems: seq<Problem>, dropped: Word,
    presentBase: Option<nat>, presents: nat, exited: bool, exitStatus: int, crash: nat)

  // ---------------------------------------------------------------- texts

  /** One byte as it is copied. */
  function Cleaned(c: char): char { if c < ' ' && c != '\t' then '?' else c }

  /** `md_copy`: up to `n` bytes of the first line, as far as there is room. */
  function Copied(src: string, n: nat, room: nat): string {
    if src == "" || n == 0 || room == 0 || src[0] == '\n' || src[0] == '\r' then ""
    else [Cleaned(src[0])] + Copied(src[1..], n - 1, room - 1)
  }

  function Whole(src: string, capacity: nat): string
    requires capacity > 0
  {
    Copied(src, |src|, capacity - 1)
  }

  predicate IsHexDigit(c: char) { '0' <= c <= '9' || 'a' <= c <= 'f' || 'A' <= c <= 'F' }

  function HexRun(s: string, most: nat): nat { if s == "" || most == 0 || !IsHexDigit(s[0]) then 0 else 1 + HexRun(s[1..], most - 1) }

  lemma {:induction false} HexRunFits(s: string, most: nat)
    ensures HexRun(s, most) <= |s|
  {
    if s != "" && most > 0 && IsHexDigit(s[0]) { HexRunFits(s[1..], most - 1); }
  }

  /** `md_skip_tid`: an error line without its thread id. */
  function SkipThread(s: string): string {
    HexRunFits(s, 8);
    var i := HexRun(s, 8);
    if 4 <= i < |s| && s[i] == ':' then s[i + 1..] else s
  }

  /** What makes two reports the same problem: a name, else the head of the error. */
  function KeyOf(key: string, error: string): string {
    if key != "" then Whole(key, KEY) else Copied(error, if |error| < 80 then |error| else 80, KEY - 1)
  }

  // ---------------------------------------------------------------- events

  /** `madeira_diag_reset` of a program. */
  function Fresh(exe: string): Launch {
    Launch([Stage(true, 0.0, Whole(exe, DETAIL))] + seq(STAGES - 1, i => Stage(false, 0.0, "")), [], 0, None, 0, false, 0, 0)
  }

  /** `md_stage_locked` */
  function Reach(l: Launch, stage: int, detail: Option<string>, now: real): Launch {
    if stage < 0 || stage >= |l.stages| then l
    else
      var r, text := l.stages[stage], if detail.Some? then Whole(detail.value, DETAIL) else "";
      if r.reached then
        if r.detail == "" && detail.Some? then l.(stages := l.stages[stage := r.(detail := text)]) else l
      else l.(stages := l.stages[stage := Stage(true, now, text)])
  }

  /** The place of a problem in the table. */
  function PlaceOf(problems: seq<Problem>, cat: Category, key: string): (i: nat)
    ensures i <= |problems|
    ensures i < |problems| ==> problems[i].cat == cat && problems[i].key == key
    ensures forall j :: 0 <= j < i ==> !(problems[j].cat == cat && problems[j].key == key)
  {
    if problems == [] || (problems[0].cat == cat && problems[0].key == key) then 0
    else
      var rest := PlaceOf(problems[1..], cat, key);
      assert forall j :: 0 < j <= rest ==> problems[j] == problems[1..][j - 1];
      rest + 1
  }

  /** `md_problem_locked`; a category out of range counts as unclassified. */
  function Report(l: Launch, cat: Category, key: string, error: string, now: real): Launch {
    var text := SkipThread(error);
    var known, k := if cat == NoProblem then Unclassified else cat, KeyOf(key, text);
    var i := PlaceOf(l.problems, known, k);
    if i < |l.problems| then l.(problems := l.problems[i := l.problems[i].(count := Plus1(l.problems[i].count))])
    else if |l.problems| >= MAX_PROBLEMS then l.(dropped := Plus1(l.dropped))
    else l.(problems := l.problems + [Problem(known, k, Whole(text, DETAIL), now, 1)])
  }

  /** `madeira_diag_note_present_count` */
  function Presented(l: Launch, count: nat, now: real): Launch {
    var base := if l.presentBase.Some? then l.presentBase.value else count;
    var noted := l.(presentBase := Some(base));
    if count <= base then noted
    else
      var shown := noted.(presents := count - base);
      if |l.stages| > FIRST_PRESENT && !l.stages[FIRST_PRESENT].reached
      then Reach(shown, FIRST_PRESENT, Some("a frame was presented to the Metal layer"), now) else shown
  }

  predicate Reached(l: Launch, stage: nat) { stage < |l.stages| && l.stages[stage].reached }

  /** Whether an exit is reported as a problem too, and under which key. */
  function ExitProblem(l: Launch, crash: nat): Option<string> {
    if crash != 0 then Some("crash")
    else if !Reached(l, FIRST_PRESENT) && !Reached(l, CHILD_PROCESS) then Some("exit before first frame")
    else None
  }

  /** `madeira_diag_process_exit`; `detail` is the printed status. Only the first exit counts. */
  function Exited(l: Launch, status: int, crash: nat, detail: string, now: real): Launch {
    if l.exited then l
    else
      var ended := Reach(l.(exited := true, exitStatus := status, crash := crash), PROCESS_EXIT, Some(detail), now);
      var key := ExitProblem(ended, crash);
      if key.Some? then Report(ended, ProcessFailure, key.value, detail, now) else ended
  }

  /** The cnc-ddraw fallback writes its detail over the one the stage has. */
  function Rewritten(l: Launch, detail: string, now: real): Launch {
    var reached := Reach(l, GRAPHICS_API, Some(detail), now);
    if GRAPHICS_API < |reached.stages| then
      reached.(stages := reached.stages[GRAPHICS_API := reached.stages[GRAPHICS_API].(detail := Whole(detail, DETAIL))])
    else reached
  }

  datatype Event =
    | StageEvent(stage: int, detail: Option<string>, now: real)
    | ProblemEvent(cat: Category, key: string, error: string, now: real)
    | PresentEvent(count: nat, now: real)
    | ExitEvent(status: int, crash: nat, text: string, now: real)
    | FallbackEvent(text: string, now: real)

  function Next(l: Launch, e: Event): Launch {
    match e
    case StageEvent(stage, detail, now) => Reach(l, stage, detail, now)
    case ProblemEvent(cat, key, error, now) => Report(l, cat, key, error, now)
    case PresentEvent(count, now) => Presented(l, count, now)
    case ExitEvent(status, crash, text, now) => Exited(l, status, crash, text, now)
    case FallbackEvent(text, now) => Rewritten(l, text, now)
  }

  function After(l: Launch, events: seq<Event>): Launch {
    if events == [] then l else Next(After(l, events[..|events| - 1]), events[|events| - 1])
  }

  // ---------------------------------------------------------------- the global record

  class Record {
    const stages: array<Stage>
    const problems: array<Problem>
    var nproblems: nat
    var dropped: Word
    var presentBase: Option<nat>
    var presents: nat
    var exited: bool
    var exitStatus: int
    var crash: nat

    ghost predicate Valid()
      reads this
    {
      stages.Length == STAGES && problems.Length == MAX_PROBLEMS && nproblems <= MAX_PROBLEMS
    }

    ghost function Current(): Launch
      reads this, stages, problems
      requires Valid()
    {
      Launch(stages[..], problems[..nproblems], dropped, presentBase, presents, exited, exitStatus, crash)
    }

    constructor (exe: string)
      ensures Valid() && fresh(stages) && fresh(problems) && Current() == Fresh(exe)
    {
      stages := new Stage[STAGES](i => Stage(false, 0.0, ""));
      problems := new Problem[MAX_PROBLEMS](i => Problem(NoProblem, "", "", 0.0, 0));
      nproblems, dropped, presentBase, presents, exited, exitStatus, crash := 0, 0, None, 0, false, 0, 0;
      new;
      stages[LAUNCH] := Stage(true, 0.0, Whole(exe, DETAIL));
      assert stages[..] == Fresh(exe).stages;
    }

    method ReachStage(stage: int, detail: Option<string>, now: real)
      requires Valid()
      modifies stages
      ensures Valid() && Current() == Reach(old(Current()), stage, detail, now)
    {
      if stage < 0 || stage >= STAGES { return; }
      var r := stages[stage];
      if r.reached {
        if r.detail == "" && detail.Some? { stages[stage] := r.(detail := Whole(detail.value, DETAIL)); }
        return;
      }
      stages[stage] := Stage(true, now, if detail.Some? then Whole(detail.value, DETAIL) else "");
    }

    method ReportProblem(cat: Category, key: string, error: string, now: real)
      requires Valid()
      modifies this`nproblems, this`dropped, problems
      ensures Valid() && Current() == Report(old(Current()), cat, key, error, now)
    {
      hide PlaceOf, Copied;
      var text := SkipThread(error);
      var known := if cat == NoProblem then Unclassified else cat;
      var k := KeyOf(key, text);
      ghost var table := problems[..nproblems];
      var i := 0;
      while i < nproblems
        invariant 0 <= i <= nproblems && nproblems <= MAX_PROBLEMS
        invariant problems[..nproblems] == table && Current() == old(Current())
        invariant PlaceOf(table, known, k) >= i
      {
        PlaceAt(table, known, k, i);
        assert table[i] == problems[i];
        if problems[i].cat == known && problems[i].key == k {
          assert problems[i] == table[i];
          problems[i] := problems[i].(count := Plus1(problems[i].count));
          assert problems[..nproblems] == table[i := table[i].(count := Plus1(table[i].count))];
          return;
        }
        i := i + 1;
      }
      PlaceEnds(table, known, k);
      if nproblems >= MAX_PROBLEMS {
        dropped := Plus1(dropped);
        return;
      }
      problems[nproblems] := Problem(known, k, Whole(text, DETAIL), now, 1);
      nproblems := nproblems + 1;
      assert problems[..nproblems] == table + [Problem(known, k, Whole(text, DETAIL), now, 1)];
    }

    method NotePresents(count: nat, now: real)
      requires Valid()
      modifies this, stages
      ensures Valid() && Current() == Presented(old(Current()), count, now)
    {
      if presentBase.None? { presentBase := Some(count); }
      if count > presentBase.value {
        presents := count - presentBase.value;
        if !stages[FIRST_PRESENT].reached { ReachStage(FIRST_PRESENT, Some("a frame was presented to the Metal layer"), now); }
      }
    }

    method ProcessExit(status: int, crashStatus: nat, detail: string, now: real)
      requires Valid()
      modifies this, stages, problems
      ensures Valid() && Current() == Exited(old(Current()), status, crashStatus, detail, now)
    {
      hide Report, Reach;
      if exited { return; }
      exited, exitStatus, crash := true, status, crashStatus;
      ReachStage(PROCESS_EXIT, Some(detail), now);
      if crashStatus != 0 {
        ReportProblem(ProcessFailure, "crash", detail, now);
      } else if !stages[FIRST_PRESENT].reached && !stages[CHILD_PROCESS].reached {
        ReportProblem(ProcessFailure, "exit before first frame", detail, now);
      }
    }

    /** `md_verdict_locked`: no problem once a frame was presented; else the category that comes
        first in the order, or what the exit says. */
    method Verdict() returns (v: Category)
      requires Valid()
      ensures v == NoProblem <==> Reached(Current(), FIRST_PRESENT)
      ensures !Reached(Current(), FIRST_PRESENT) ==> IsVerdict(Current(), v)
    {
      if stages[FIRST_PRESENT].reached { return NoProblem; }
      for i := 0 to |ORDER|
        invariant forall p :: p in Current().problems && p.cat != NoProblem ==> Rank(p.cat) >= i
      {
        OrderRanks(i);
        for j := 0 to nproblems
          invariant forall p :: p in Current().problems && p.cat != NoProblem ==> Rank(p.cat) >= i
          invariant forall m :: 0 <= m < j ==> problems[m].cat != ORDER[i]
        {
          if problems[j].cat == ORDER[i] {
            assert problems[..nproblems][j] == problems[j];
            return ORDER[i];
          }
        }
        forall p | p in Current().problems && p.cat != NoProblem ensures Rank(p.cat) >= i + 1 {
          var m: nat :| m < nproblems && problems[..nproblems][m] == p;
          assert problems[m].cat != ORDER[i];
          RankInjective(p.cat, ORDER[i]);
        }
      }
      return if exited then ProcessFailure else Unclassified;
    }
  }

  function Categories(problems: seq<Problem>): set<Category> { set p | p in problems :: p.cat }

  /** The verdict of a launch without a frame. */
  ghost predicate IsVerdict(l: Launch, v: Category) {
    if forall p :: p in l.problems ==> p.cat == NoProblem then v == if l.exited then ProcessFailure else Unclassified
    else v in Categories(l.problems) && v != NoProblem && forall p :: p in l.problems && p.cat != NoProblem ==> Rank(v) <= Rank(p.cat)
  }

  lemma OrderRanks(i: nat)
    requires i < |ORDER|
    ensures Rank(ORDER[i]) == i && ORDER[i] != NoProblem
  {
  }

  lemma RankInjective(a: Category, b: Category)
    ensures Rank(a) == Rank(b) <==> a == b
  {
  }

  lemma PlaceAt(problems: seq<Problem>, cat: Category, key: string, i: nat)
    requires i < |problems| && PlaceOf(problems, cat, key) >= i
    ensures PlaceOf(problems, cat, key) == i <==> problems[i].cat == cat && problems[i].key == key
  {
  }

  lemma PlaceEnds(problems: seq<Problem>, cat: Category, key: string)
    ensures PlaceOf(problems, cat, key) <= |problems|
  {
  }
}
