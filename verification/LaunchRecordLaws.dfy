/** What holds of a launch's record over every sequence of events since its reset. */
module LaunchRecordLaws {
  import opened Text
  import opened LaunchRecord

  // ---------------------------------------------------------------- the table

  ghost predicate DistinctProblems(problems: seq<Problem>) {
    forall i, j :: 0 <= i < j < |problems| ==> problems[i].cat != problems[j].cat || problems[i].key != problems[j].key
  }

  /** All stages, at most 24 records with pairwise distinct category and key, none without category. */
  ghost predicate Inv(l: Launch) {
    && |l.stages| == STAGES
    && |l.problems| <= MAX_PROBLEMS
    && DistinctProblems(l.problems)
    && forall p :: p in l.problems ==> p.cat != NoProblem
  }

  lemma ReportKeepsInv(l: Launch, cat: Category, key: string, error: string, now: real)
    requires Inv(l)
    ensures Inv(Report(l, cat, key, error, now)) && Report(l, cat, key, error, now).stages == l.stages
  {
    hide KeyOf, SkipThread, Whole;
  }

  lemma NextKeepsInv(l: Launch, e: Event)
    requires Inv(l)
    ensures Inv(Next(l, e))
  {
    hide Whole, Report, DistinctProblems;
    match e
    case ProblemEvent(cat, key, error, now) => ReportKeepsInv(l, cat, key, error, now);
    case ExitEvent(status, crash, text, now) =>
      if !l.exited {
        var ended := Reach(l.(exited := true, exitStatus := status, crash := crash), PROCESS_EXIT, Some(text), now);
        var key := ExitProblem(ended, crash);
        if key.Some? { ReportKeepsInv(ended, ProcessFailure, key.value, text, now); }
      }
    case _ =>
  }

  lemma FreshInv(exe: string)
    ensures Inv(Fresh(exe)) && Fresh(exe).problems == [] && Fresh(exe).dropped == 0
  {
  }

  /** After any events since the reset the table holds at most 24 records with pairwise distinct
      category and key. */
  lemma {:induction false} TableStaysDistinct(exe: string, events: seq<Event>)
    ensures Inv(After(Fresh(exe), events))
  {
    hide Inv, Next, Fresh;
    if events != [] {
      TableStaysDistinct(exe, events[..|events| - 1]);
      NextKeepsInv(After(Fresh(exe), events[..|events| - 1]), events[|events| - 1]);
    } else {
      FreshInv(exe);
    }
  }

  // ---------------------------------------------------------------- counts

  function Sum(problems: seq<Problem>): nat {
    if problems == [] then 0 else Sum(problems[..|problems| - 1]) + problems[|problems| - 1].count
  }

  /** How many problems an event reports. */
  function Reports(l: Launch, e: Event): nat {
    match e
    case ProblemEvent(_, _, _, _) => 1
    case ExitEvent(status, crash, text, now) =>
      if !l.exited && ExitProblem(Reach(l, PROCESS_EXIT, Some(text), now), crash).Some? then 1 else 0
    case _ => 0
  }

  function AllReports(l: Launch, events: seq<Event>): nat {
    if events == [] then 0
    else
      var init := events[..|events| - 1];
      AllReports(l, init) + Reports(After(l, init), events[|events| - 1])
  }

  /** What the counters have counted. */
  function Counted(l: Launch): nat { Sum(l.problems) + l.dropped }

  lemma {:induction false} SumUpdate(problems: seq<Problem>, i: nat, p: Problem)
    requires i < |problems|
    ensures Sum(problems[i := p]) + problems[i].count == Sum(problems) + p.count
  {
    var n := |problems| - 1;
    if i < n {
      SumUpdate(problems[..n], i, p);
      assert problems[i := p][..n] == problems[..n][i := p];
    } else {
      assert problems[i := p][..n] == problems[..n];
    }
  }

  lemma SumAppend(problems: seq<Problem>, p: Problem)
    ensures Sum(problems + [p]) == Sum(problems) + p.count
  {
    assert (problems + [p])[..|problems|] == problems;
  }

  /** One report counts one, up to the turn of a 32-bit counter. */
  lemma ReportCounts(l: Launch, cat: Category, key: string, error: string, now: real)
    ensures Counted(Report(l, cat, key, error, now)) == Counted(l) + 1 || Counted(Report(l, cat, key, error, now)) + WORD == Counted(l) + 1
  {
    hide KeyOf, SkipThread, Whole, Sum;
    var text := SkipThread(error);
    var known, k := if cat == NoProblem then Unclassified else cat, KeyOf(key, text);
    var i := PlaceOf(l.problems, known, k);
    if i < |l.problems| {
      SumUpdate(l.problems, i, l.problems[i].(count := Plus1(l.problems[i].count)));
    } else if |l.problems| < MAX_PROBLEMS {
      SumAppend(l.problems, Problem(known, k, Whole(text, DETAIL), now, 1));
    }
  }

  lemma NextCounts(l: Launch, e: Event)
    ensures Counted(Next(l, e)) == Counted(l) + Reports(l, e) || Counted(Next(l, e)) + WORD == Counted(l) + Reports(l, e)
  {
    hide Whole, Report, Sum;
    match e
    case ProblemEvent(cat, key, error, now) => ReportCounts(l, cat, key, error, now);
    case ExitEvent(status, crash, text, now) =>
      if !l.exited {
        var ended := Reach(l.(exited := true, exitStatus := status, crash := crash), PROCESS_EXIT, Some(text), now);
        var key := ExitProblem(ended, crash);
        if key.Some? { ReportCounts(ended, ProcessFailure, key.value, text, now); }
      }
    case _ =>
  }

  /** The counts of all records and the dropped reports together are the number of reports, up to
      turns of the 32-bit counters. */
  lemma {:induction false} CountsAreReports(exe: string, events: seq<Event>) returns (turns: nat)
    ensures Counted(After(Fresh(exe), events)) + turns * WORD == AllReports(Fresh(exe), events)
  {
    hide Counted, Next, Fresh, Reports;
    if events != [] {
      var init, last := events[..|events| - 1], events[|events| - 1];
      turns := CountsAreReports(exe, init);
      NextCounts(After(Fresh(exe), init), last);
      if Counted(After(Fresh(exe), events)) != Counted(After(Fresh(exe), init)) + Reports(After(Fresh(exe), init), last) {
        turns := turns + 1;
      }
    } else {
      NothingCounted(exe);
      turns := 0;
    }
  }

  lemma NothingCounted(exe: string)
    ensures Counted(Fresh(exe)) == 0
  {
    FreshInv(exe);
  }

  /** With fewer than 2^32 reports every report is counted exactly once. */
  lemma EveryReportCounts(exe: string, events: seq<Event>)
    requires AllReports(Fresh(exe), events) < WORD
    ensures Sum(After(Fresh(exe), events).problems) + After(Fresh(exe), events).dropped == AllReports(Fresh(exe), events)
  {
    hide AllReports, After, Fresh, Sum;
    var turns := CountsAreReports(exe, events);
    assert turns >= 1 ==> turns * WORD >= WORD;
  }

  // ---------------------------------------------------------------- each record counts its own reports

  /** One report of a run: what makes its problem, the error's text and the time. */
  datatype Said = Said(cat: Category, key: string, error: string, time: real)

  /** What an event reports: a problem without a category is unclassified; the first exit is a problem
      after a crash, or before any frame and any child process. */
  function SaidBy(l: Launch, e: Event): seq<Said> {
    match e
    case ProblemEvent(cat, key, error, now) =>
      [Said(if cat == NoProblem then Unclassified else cat, KeyOf(key, SkipThread(error)), Whole(SkipThread(error), DETAIL), now)]
    case ExitEvent(_, crash, text, now) =>
      var shown := SkipThread(text);
      if l.exited || (crash == 0 && (Reached(l, FIRST_PRESENT) || Reached(l, CHILD_PROCESS))) then []
      else [Said(ProcessFailure, KeyOf(if crash != 0 then "crash" else "exit before first frame", shown), Whole(shown, DETAIL), now)]
    case _ => []
  }

  function AllSaid(l: Launch, events: seq<Event>): seq<Said> {
    if events == [] then []
    else
      var init := events[..|events| - 1];
      AllSaid(l, init) + SaidBy(After(l, init), events[|events| - 1])
  }

  /** How often a problem was reported. */
  function Times(said: seq<Said>, cat: Category, key: string): nat {
    if said == [] then 0
    else
      var last := said[|said| - 1];
      Times(said[..|said| - 1], cat, key) + if last.cat == cat && last.key == key then 1 else 0
  }

  predicate InTable(problems: seq<Problem>, cat: Category, key: string) {
    exists i :: 0 <= i < |problems| && problems[i].cat == cat && problems[i].key == key
  }

  /** How many reports are of problems that are not in the table. */
  function Outside(said: seq<Said>, problems: seq<Problem>): nat {
    if said == [] then 0
    else
      var last := said[|said| - 1];
      Outside(said[..|said| - 1], problems) + if InTable(problems, last.cat, last.key) then 0 else 1
  }

  predicate IsFirst(said: seq<Said>, i: nat)
    requires i < |said|
  {
    forall j :: 0 <= j < i ==> said[j].cat != said[i].cat || said[j].key != said[i].key
  }

  /** The record counts the reports of its problem and shows the first of them. */
  ghost predicate Told(p: Problem, said: seq<Said>) {
    && p.count == Times(said, p.cat, p.key) % WORD
    && exists i :: 0 <= i < |said| && IsFirst(said, i) && said[i] == Said(p.cat, p.key, p.error, p.time)
  }

  /** The table is exactly what the reports make it, up to turns of the 32-bit counters. */
  ghost predicate Tallied(l: Launch, said: seq<Said>) {
    && (forall p :: p in l.problems ==> Told(p, said))
    && (forall i :: 0 <= i < |said| ==> InTable(l.problems, said[i].cat, said[i].key) || |l.problems| == MAX_PROBLEMS)
    && l.dropped == Outside(said, l.problems) % WORD
  }

  lemma {:induction false} OutsideSame(said: seq<Said>, a: seq<Problem>, b: seq<Problem>)
    requires forall cat, key :: InTable(a, cat, key) <==> InTable(b, cat, key)
    ensures Outside(said, a) == Outside(said, b)
  {
    hide InTable;
    if said != [] { OutsideSame(said[..|said| - 1], a, b); }
  }

  lemma {:induction false} NoneOutside(said: seq<Said>, problems: seq<Problem>)
    requires forall i :: 0 <= i < |said| ==> InTable(problems, said[i].cat, said[i].key)
    ensures Outside(said, problems) == 0
  {
    hide InTable;
    if said != [] { NoneOutside(said[..|said| - 1], problems); }
  }

  lemma {:induction false} NeverSaid(said: seq<Said>, cat: Category, key: string)
    requires forall i :: 0 <= i < |said| ==> said[i].cat != cat || said[i].key != key
    ensures Times(said, cat, key) == 0
  {
    if said != [] { NeverSaid(said[..|said| - 1], cat, key); }
  }

  lemma SaidMore(said: seq<Said>, x: Said, problems: seq<Problem>)
    ensures forall cat, key :: Times(said + [x], cat, key) == Times(said, cat, key) + if x.cat == cat && x.key == key then 1 else 0
    ensures Outside(said + [x], problems) == Outside(said, problems) + if InTable(problems, x.cat, x.key) then 0 else 1
    ensures forall i :: 0 <= i < |said| ==> (IsFirst(said + [x], i) <==> IsFirst(said, i)) && (said + [x])[i] == said[i]
  {
    assert (said + [x])[..|said|] == said;
    assert forall i :: 0 <= i < |said| ==> (said + [x])[i] == said[i];
  }

  lemma PlaceIsInTable(problems: seq<Problem>, cat: Category, key: string)
    ensures PlaceOf(problems, cat, key) < |problems| <==> InTable(problems, cat, key)
  {
  }

  /** A record whose problem is reported again. */
  lemma CountedRecord(said: seq<Said>, x: Said, p: Problem)
    requires Told(p, said) && p.cat == x.cat && p.key == x.key
    ensures Told(p.(count := Plus1(p.count)), said + [x])
  {
    hide Times, Outside, IsFirst, Plus1;
    SaidMore(said, x, []);
    Turned(Times(said, p.cat, p.key), p.count);
    var m :| 0 <= m < |said| && IsFirst(said, m) && said[m] == Said(p.cat, p.key, p.error, p.time);
    assert IsFirst(said + [x], m) && (said + [x])[m] == said[m];
  }

  lemma SameInTable(problems: seq<Problem>, i: nat, p: Problem)
    requires i < |problems| && p.cat == problems[i].cat && p.key == problems[i].key
    ensures forall cat, key :: InTable(problems[i := p], cat, key) <==> InTable(problems, cat, key)
    ensures InTable(problems, p.cat, p.key)
  {
    var after := problems[i := p];
    forall cat, key ensures InTable(after, cat, key) <==> InTable(problems, cat, key) {
      if k: nat :| k < |after| && after[k].cat == cat && after[k].key == key { assert problems[k].cat == cat && problems[k].key == key; }
      if k: nat :| k < |problems| && problems[k].cat == cat && problems[k].key == key { assert after[k].cat == cat && after[k].key == key; }
    }
  }

  /** The three ways a report goes: the problem is known, it enters the table, or the table is full. */
  lemma KnownReport(l: Launch, said: seq<Said>, x: Said, i: nat)
    requires Inv(l) && Tallied(l, said) && i < |l.problems| && l.problems[i].cat == x.cat && l.problems[i].key == x.key
    ensures Tallied(l.(problems := l.problems[i := l.problems[i].(count := Plus1(l.problems[i].count))]), said + [x])
  {
    var row := l.problems[i].(count := Plus1(l.problems[i].count));
    var after := l.problems[i := row];
    assert l.problems[i] in l.problems;
    CountedRecord(said, x, l.problems[i]);
    SameInTable(l.problems, i, row);
    SaidMore(said, x, after);
    hide Times, Outside, InTable, Told;
    OutsideSame(said, l.problems, after);
    forall p | p in after ensures Told(p, said + [x]) {
      var k :| 0 <= k < |after| && after[k] == p;
      if k != i {
        assert l.problems[k] == p && p in l.problems;
        assert p.cat != x.cat || p.key != x.key;
        OldRecord(said, x, p);
      }
    }
    forall m | 0 <= m < |said + [x]| ensures InTable(after, (said + [x])[m].cat, (said + [x])[m].key) || |after| == MAX_PROBLEMS {
      if m < |said| { assert InTable(l.problems, said[m].cat, said[m].key) || |l.problems| == MAX_PROBLEMS; }
    }
  }

  lemma Turned(n: nat, count: Word)
    requires count == n % WORD
    ensures Plus1(count) == (n + 1) % WORD
  {
  }

  lemma DroppedReport(l: Launch, said: seq<Said>, x: Said)
    requires Inv(l) && Tallied(l, said) && !InTable(l.problems, x.cat, x.key) && |l.problems| == MAX_PROBLEMS
    ensures Tallied(l.(dropped := Plus1(l.dropped)), said + [x])
  {
    hide Times, Outside, Told, InTable, Plus1;
    SaidMore(said, x, l.problems);
    Turned(Outside(said, l.problems), l.dropped);
    forall p | p in l.problems ensures Told(p, said + [x]) {
      NotThis(l.problems, p, x);
      OldRecord(said, x, p);
    }
  }

  /** A record that the report does not touch. */
  lemma OldRecord(said: seq<Said>, x: Said, p: Problem)
    requires Told(p, said) && (p.cat != x.cat || p.key != x.key)
    ensures Told(p, said + [x])
  {
    hide Times, Outside, IsFirst;
    SaidMore(said, x, []);
    var m :| 0 <= m < |said| && IsFirst(said, m) && said[m] == Said(p.cat, p.key, p.error, p.time);
    assert IsFirst(said + [x], m) && (said + [x])[m] == said[m];
  }

  /** The record of a problem that is reported for the first time. */
  lemma NewRecord(said: seq<Said>, x: Said)
    requires forall i :: 0 <= i < |said| ==> said[i].cat != x.cat || said[i].key != x.key
    ensures Told(Problem(x.cat, x.key, x.error, x.time, 1), said + [x])
  {
    NeverSaid(said, x.cat, x.key);
    SaidMore(said, x, []);
    forall j | 0 <= j < |said| ensures (said + [x])[j].cat != x.cat || (said + [x])[j].key != x.key { assert (said + [x])[j] == said[j]; }
    assert IsFirst(said + [x], |said|) && (said + [x])[|said|] == x;
  }

  lemma AllInTable(l: Launch, said: seq<Said>, x: Said, row: Problem)
    requires Tallied(l, said) && !InTable(l.problems, x.cat, x.key) && |l.problems| < MAX_PROBLEMS && row.cat == x.cat && row.key == x.key
    ensures forall i :: 0 <= i < |said| ==> said[i].cat != x.cat || said[i].key != x.key
    ensures forall i :: 0 <= i < |said + [x]| ==> InTable(l.problems + [row], (said + [x])[i].cat, (said + [x])[i].key)
    ensures Outside(said, l.problems) == Outside(said + [x], l.problems + [row]) == 0
  {
    hide Times, Outside;
    var after := l.problems + [row];
    assert after[|l.problems|] == row;
    forall i | 0 <= i < |said| ensures InTable(after, said[i].cat, said[i].key) && (said[i].cat != x.cat || said[i].key != x.key) {
      assert InTable(l.problems, said[i].cat, said[i].key);
      var k :| 0 <= k < |l.problems| && l.problems[k].cat == said[i].cat && l.problems[k].key == said[i].key;
      assert after[k] == l.problems[k];
    }
    forall m | 0 <= m < |said + [x]| ensures InTable(after, (said + [x])[m].cat, (said + [x])[m].key) {
      if m < |said| { assert (said + [x])[m] == said[m]; }
    }
    NoneOutside(said, l.problems);
    NoneOutside(said + [x], after);
  }

  lemma NewReport(l: Launch, said: seq<Said>, x: Said)
    requires Inv(l) && Tallied(l, said) && !InTable(l.problems, x.cat, x.key) && |l.problems| < MAX_PROBLEMS
    ensures Tallied(l.(problems := l.problems + [Problem(x.cat, x.key, x.error, x.time, 1)]), said + [x])
  {
    hide Times, Outside, InTable, IsFirst, Told, Inv;
    var row := Problem(x.cat, x.key, x.error, x.time, 1);
    var after := l.problems + [row];
    AllInTable(l, said, x, row);
    NewRecord(said, x);
    forall p | p in after ensures Told(p, said + [x]) {
      if p != row {
        assert p in l.problems;
        NotThis(l.problems, p, x);
        OldRecord(said, x, p);
      }
    }
  }

  lemma NotThis(problems: seq<Problem>, p: Problem, x: Said)
    requires p in problems && !InTable(problems, x.cat, x.key)
    ensures p.cat != x.cat || p.key != x.key
  {
    var k :| 0 <= k < |problems| && problems[k] == p;
  }

  lemma ReportTallies(l: Launch, said: seq<Said>, cat: Category, key: string, error: string, now: real)
    requires Inv(l) && Tallied(l, said)
    ensures var text := SkipThread(error);
      Tallied(Report(l, cat, key, error, now), said + [Said(if cat == NoProblem then Unclassified else cat, KeyOf(key, text), Whole(text, DETAIL), now)])
  {
    hide KeyOf, SkipThread, Whole, Tallied, InTable, PlaceOf;
    var text := SkipThread(error);
    var x := Said(if cat == NoProblem then Unclassified else cat, KeyOf(key, text), Whole(text, DETAIL), now);
    var i := PlaceOf(l.problems, x.cat, x.key);
    PlaceIsInTable(l.problems, x.cat, x.key);
    if i < |l.problems| { KnownReport(l, said, x, i); }
    else if |l.problems| >= MAX_PROBLEMS { DroppedReport(l, said, x); }
    else { NewReport(l, said, x); }
  }

  lemma SameTable(l: Launch, other: Launch, said: seq<Said>)
    requires Tallied(l, said) && other.problems == l.problems && other.dropped == l.dropped
    ensures Tallied(other, said)
  {
  }

  lemma NextTallies(l: Launch, said: seq<Said>, e: Event)
    requires Inv(l) && Tallied(l, said)
    ensures Tallied(Next(l, e), said + SaidBy(l, e))
  {
    hide Whole, Report, KeyOf, SkipThread, Tallied;
    assert said + [] == said;
    match e
    case ProblemEvent(cat, key, error, now) => ReportTallies(l, said, cat, key, error, now);
    case ExitEvent(status, crash, text, now) =>
      if l.exited {
        SameTable(l, l, said);
      } else {
        var ended := Reach(l.(exited := true, exitStatus := status, crash := crash), PROCESS_EXIT, Some(text), now);
        SameTable(l, ended, said);
        assert Reached(ended, FIRST_PRESENT) == Reached(l, FIRST_PRESENT) && Reached(ended, CHILD_PROCESS) == Reached(l, CHILD_PROCESS);
        var key := ExitProblem(ended, crash);
        if key.Some? { ReportTallies(ended, said, ProcessFailure, key.value, text, now); }
      }
    case _ => SameTable(l, Next(l, e), said);
  }

  /** After any events each record counts exactly the reports of its own category and key and shows
      the error and the time of the first of them; what was reported has a record or the table is full,
      and the reports of problems without a record are the dropped ones. All up to 32 bits. */
  lemma {:induction false} RecordsCountTheirReports(exe: string, events: seq<Event>)
    ensures Tallied(After(Fresh(exe), events), AllSaid(Fresh(exe), events))
  {
    hide Next, Fresh, Tallied, SaidBy, Inv;
    if events == [] {
      NothingSaid(exe);
    } else {
      var init := events[..|events| - 1];
      RecordsCountTheirReports(exe, init);
      TableStaysDistinct(exe, init);
      NextTallies(After(Fresh(exe), init), AllSaid(Fresh(exe), init), events[|events| - 1]);
    }
  }

  lemma NothingSaid(exe: string)
    ensures Tallied(Fresh(exe), [])
  {
  }

  // ---------------------------------------------------------------- stages

  lemma NextKeepsStages(l: Launch, e: Event, stage: nat)
    requires stage < |l.stages| && l.stages[stage].reached
    ensures |Next(l, e).stages| == |l.stages|
    ensures Next(l, e).stages[stage].reached && Next(l, e).stages[stage].time == l.stages[stage].time
  {
    hide Whole, Report;
    match e
    case ProblemEvent(cat, key, error, now) => ReportKeepsStages(l, cat, key, error, now);
    case ExitEvent(status, crash, text, now) =>
      if !l.exited {
        var ended := Reach(l.(exited := true, exitStatus := status, crash := crash), PROCESS_EXIT, Some(text), now);
        var key := ExitProblem(ended, crash);
        if key.Some? { ReportKeepsStages(ended, ProcessFailure, key.value, text, now); }
      }
    case _ =>
  }

  lemma ReportKeepsStages(l: Launch, cat: Category, key: string, error: string, now: real)
    ensures Report(l, cat, key, error, now).stages == l.stages
  {
    hide KeyOf, SkipThread, Whole;
  }

  /** A reached stage stays reached, with the time it was first reached at. */
  lemma {:induction false} FirstTimeCounts(l: Launch, events: seq<Event>, stage: nat)
    requires stage < |l.stages| && l.stages[stage].reached
    ensures |After(l, events).stages| == |l.stages|
    ensures After(l, events).stages[stage].reached && After(l, events).stages[stage].time == l.stages[stage].time
  {
    hide Next;
    if events != [] {
      FirstTimeCounts(l, events[..|events| - 1], stage);
      NextKeepsStages(After(l, events[..|events| - 1]), events[|events| - 1], stage);
    }
  }

  /** The event reaches the stage: its own event, the first counted frame, the first exit, or the
      graphics fallback. */
  predicate ReachesStage(l: Launch, e: Event, stage: nat) {
    match e
    case StageEvent(at, _, _) => at == stage
    case PresentEvent(count, _) => stage == FIRST_PRESENT && l.presentBase.Some? && count > l.presentBase.value
    case ExitEvent(_, _, _, _) => stage == PROCESS_EXIT && !l.exited
    case FallbackEvent(_, _) => stage == GRAPHICS_API
    case _ => false
  }

  /** When a stage was reached first in a run; the launch itself is at 0. */
  function ReachedAt(exe: string, events: seq<Event>, stage: nat): Option<real> {
    if events == [] then if stage == LAUNCH then Some(0.0) else None
    else
      var init, e := events[..|events| - 1], events[|events| - 1];
      var before := ReachedAt(exe, init, stage);
      if before.None? && ReachesStage(After(Fresh(exe), init), e, stage) then Some(e.now) else before
  }

  lemma NextReaches(l: Launch, e: Event, stage: nat)
    requires |l.stages| == STAGES && stage < STAGES
    ensures |Next(l, e).stages| == STAGES
    ensures Next(l, e).stages[stage].reached <==> l.stages[stage].reached || ReachesStage(l, e, stage)
    ensures Next(l, e).stages[stage].reached ==> Next(l, e).stages[stage].time == if l.stages[stage].reached then l.stages[stage].time else e.now
  {
    hide Whole, Report;
    match e
    case ProblemEvent(cat, key, error, now) => ReportKeepsStages(l, cat, key, error, now);
    case ExitEvent(status, crash, text, now) =>
      if !l.exited {
        var ended := Reach(l.(exited := true, exitStatus := status, crash := crash), PROCESS_EXIT, Some(text), now);
        var key := ExitProblem(ended, crash);
        if key.Some? { ReportKeepsStages(ended, ProcessFailure, key.value, text, now); }
      }
    case _ =>
  }

  /** After any events a stage is reached exactly when some event reached it, with the time of the
      first that did. */
  lemma {:induction false} StagesAreReached(exe: string, events: seq<Event>, stage: nat)
    requires stage < STAGES
    ensures var l := After(Fresh(exe), events);
      && |l.stages| == STAGES
      && (l.stages[stage].reached <==> ReachedAt(exe, events, stage).Some?)
      && (l.stages[stage].reached ==> Some(l.stages[stage].time) == ReachedAt(exe, events, stage))
  {
    hide Next, ReachesStage;
    if events != [] {
      var init, e := events[..|events| - 1], events[|events| - 1];
      StagesAreReached(exe, init, stage);
      NextReaches(After(Fresh(exe), init), e, stage);
    }
  }

  // ---------------------------------------------------------------- the verdict

  /** The verdict as a function of the record. */
  function VerdictOf(l: Launch): Category {
    if Reached(l, FIRST_PRESENT) then NoProblem
    else if l.problems == [] then if l.exited then ProcessFailure else Unclassified
    else Highest(l.problems)
  }

  function Highest(problems: seq<Problem>): Category
    requires problems != []
  {
    var last := problems[|problems| - 1].cat;
    if |problems| == 1 then last
    else
      var rest := Highest(problems[..|problems| - 1]);
      if Rank(rest) <= Rank(last) then rest else last
  }

  lemma {:induction false} HighestIsFirst(problems: seq<Problem>)
    requires problems != []
    ensures (exists p :: p in problems && p.cat == Highest(problems)) && forall p :: p in problems ==> Rank(Highest(problems)) <= Rank(p.cat)
  {
    var n := |problems| - 1;
    assert problems[n] in problems;
    if n > 0 {
      HighestIsFirst(problems[..n]);
      assert problems == problems[..n] + [problems[n]];
    }
  }

  /** What the verdict asks for settles it: nothing else is the verdict of that record. */
  lemma VerdictIsHighest(l: Launch, v: Category)
    requires Inv(l) && (v == NoProblem <==> Reached(l, FIRST_PRESENT)) && (!Reached(l, FIRST_PRESENT) ==> IsVerdict(l, v))
    ensures v == VerdictOf(l)
  {
    if !Reached(l, FIRST_PRESENT) && l.problems != [] {
      HighestIsFirst(l.problems);
      assert l.problems[0] in l.problems;
      var p :| p in l.problems && p.cat == Highest(l.problems);
      var q :| q in l.problems && q.cat == v;
      RankInjective(v, Highest(l.problems));
    }
  }
}
