/** Safety of the install protocol over every run of starts, sessions cut off at any line, choice
    changes and restarts of the app. */
module InstallProtocolLaws {
  import opened Text
  import opened InstallRecords
  import opened InstallMark
  import opened InstallMarkLaws
  import opened InstallDwords
  import opened RegistryLines
  import opened InstallBatch
  import opened InstallBatchLaws
  import opened InstallResultSizes
  import opened InstallProtocol

  // ---------------------------------------------------------------- the invariant

  /** The result file is one that a session of the last batch left. */
  ghost predicate LeftBy(result: string, batch: InstallProtocol.Written, s: Session) {
    PlainSession(s) && s.cut > 2 && result == ResultFile(batch.processes, batch.services, s)
  }

  /** The ledger names the runs of the last batch in its order, no batch has more than eight
      programs, and the result file belongs to that batch. */
  ghost predicate Inv(st: State) {
    match st.batch
    case None => st.ledger.session == [] && st.result == None && !st.script
    case Some(batch) =>
      && 1 <= |batch.processes| <= LIMIT
      && st.ledger.session == RunsOf(batch.processes)
      && (forall i :: 0 <= i < |batch.processes| ==> OneLine(batch.processes[i].run))
      && (st.result.Some? ==> exists s :: LeftBy(st.result.value, batch, s))
  }

  lemma ChosenAreFound(st: State, start: Start)
    ensures |Chosen(st, start)| <= LIMIT
    ensures forall p :: p in Chosen(st, start) ==> p in start.found && DeviceOf(st, start).CanRun(p)
  {
    hide PlanOf, WithStatus, DeviceOf;
    PendingComesFirst(start.found, DeviceOf(st, start), LIMIT);
    RunnableCanRun(start.found, DeviceOf(st, start));
  }

  lemma InvKept(st: State, e: Event)
    requires Inv(st) && Plain(e)
    ensures Inv(Next(st, e))
  {
    hide ResultFile, Chosen, Absorbed, SkipsAfter;
    match e
    case DockStart(start) =>
      AbsorbedIsEmpty(st, start.stamp);
      ChosenAreFound(Absorbed(st, start.stamp).(result := None, batch := None, script := false), start);
      assert RunsOf([]) == [];
    case RunSession(s) =>
      if st.script && st.batch.Some? && s.cut > 2 {
        assert LeftBy(Next(st, e).result.value, st.batch.value, s);
      }
    case _ =>
  }

  lemma AbsorbedIsEmpty(st: State, stamp: string)
    ensures Absorbed(st, stamp).ledger.session == []
  {
  }

  /** Every state of every run satisfies the invariant. */
  lemma {:induction false} InvAlways(st: State, events: seq<Event>)
    requires Inv(st) && AllPlain(events)
    ensures Inv(After(st, events))
  {
    hide Inv, Next, Plain;
    if events != [] {
      InvAlways(st, events[..|events| - 1]);
      InvKept(After(st, events[..|events| - 1]), events[|events| - 1]);
    }
  }

  // ---------------------------------------------------------------- what absorbing records

  lemma {:induction false} SuccessesAreReported(session: seq<Run>, exits: map<int, int>, run: Run)
    ensures run in Successes(session, exits) <==>
      exists i :: 0 <= i < |session| && session[i] == run && i + 1 in exits && Succeeded(exits[i + 1])
  {
    hide Succeeded;
    if session != [] {
      var n := |session|;
      var init := session[..n - 1];
      SuccessesAreReported(init, exits, run);
      if run in Successes(session, exits) {
        if run in Successes(init, exits) {
          var i :| 0 <= i < |init| && init[i] == run && i + 1 in exits && Succeeded(exits[i + 1]);
          assert session[i] == run;
        } else {
          assert session[n - 1] == run;
        }
      } else {
        forall i | 0 <= i < n && i + 1 in exits && Succeeded(exits[i + 1]) ensures session[i] != run {
          if i < n - 1 { assert init[i] == session[i]; }
        }
      }
    }
  }

  lemma {:induction false} OfHiveAre(runs: seq<Run>, machine: bool)
    ensures forall run :: run in OfHive(runs, machine) <==> run in runs && run.machine == machine
  {
    if runs != [] {
      OfHiveAre(runs[..|runs| - 1], machine);
      assert runs == runs[..|runs| - 1] + [runs[|runs| - 1]];
    }
  }

  /** The runs a state would record. */
  lemma ReportsAreSession(st: State, run: Run)
    requires run in Reports(st)
    ensures run in st.ledger.session
  {
    SuccessesAreReported(st.ledger.session, ResultsOf(st.result.value).exits, run);
  }

  lemma SessionIsPlain(st: State)
    requires Inv(st)
    ensures forall run :: run in st.ledger.session ==> OneLine(run)
  {
    if st.batch.Some? { RunsOfLength(st.batch.value.processes); }
  }

  function Selected(st: State, machine: bool): seq<Run> { OfHive(Reports(st), machine) }

  /** Absorbing is marking, hive by hive, in lines. */
  lemma AbsorbedLines(st: State, stamp: string, machine: bool)
    requires Inv(st) && '\n' !in stamp && st.ledger.session != [] && st.TextOf(machine) != ""
    ensures Split(Absorbed(st, stamp).TextOf(machine), '\n') == MarkAll(Split(st.TextOf(machine), '\n'), Targets(Selected(st, machine)), stamp)
    ensures forall run :: run in Selected(st, machine) ==> run in st.ledger.session && run.machine == machine
  {
    hide MarkAll, Targets, Reports, MarkedText, OneLine;
    OfHiveAre(Reports(st), machine);
    forall run | run in Selected(st, machine) ensures run in st.ledger.session && OneLine(run) {
      ReportsAreSession(st, run);
      SessionIsPlain(st);
    }
    MarkedLines(Selected(st, machine), st.TextOf(machine), stamp);
  }

  lemma OtherwiseSame(st: State, stamp: string, machine: bool)
    requires st.ledger.session == [] || st.TextOf(machine) == ""
    ensures Absorbed(st, stamp).TextOf(machine) == st.TextOf(machine)
  {
  }

  /** Only a start changes the registry files, and only by absorbing. */
  lemma OnlyStartsRecord(st: State, e: Event, machine: bool)
    ensures Next(st, e).TextOf(machine) == if e.DockStart? then Absorbed(st, e.start.stamp).TextOf(machine) else st.TextOf(machine)
  {
    hide Chosen, Absorbed, SkipsAfter, RunsOf;
  }

  // ---------------------------------------------------------------- values never fall

  /** No step lowers the value of any run, as long as the runs of the last batch have names and keys
      of one line; InstallMarkLaws.BrokenNameHidesValues shows what a line break in a name does. */
  lemma ValueNeverFalls(st: State, e: Event, run: Run)
    requires Inv(st) && (e.DockStart? ==> '\n' !in e.start.stamp) && st.Value(run).Some?
    ensures AtLeast(Next(st, e).Value(run), st.Value(run).value)
  {
    hide Recorded, MarkAll, Targets, Absorbed, Next, Inv, Selected;
    OnlyStartsRecord(st, e, run.machine);
    if e.DockStart? {
      if st.ledger.session == [] || st.TextOf(run.machine) == "" {
        OtherwiseSame(st, e.start.stamp, run.machine);
      } else {
        AbsorbedLines(st, e.start.stamp, run.machine);
        RecordedNeverFalls(Split(st.TextOf(run.machine), '\n'), Targets(Selected(st, run.machine)), e.start.stamp, run);
      }
    }
  }

  lemma DoneStaysDone(st: State, e: Event, run: Run)
    requires Inv(st) && Plain(e) && st.Done(run)
    ensures Next(st, e).Done(run)
  {
    hide Recorded, Next, Inv;
    if st.Value(run).Some? { ValueNeverFalls(st, e, run); }
  }

  // ---------------------------------------------------------------- who raises a value

  /** A run's recorded value is raised only by a start that absorbs the report of a success: the
      last batch held, at some index, a program whose session reported exit status 0, 3010 or
      1641 for that index, and that program's run asks for at least the new value of the same
      name in the same hive, under a key whose header meets one of the run's. */
  lemma RaisedOnlyByReports(st: State, e: Event, run: Run, v: nat) returns (s: Session, index: nat, at: string, key: string)
    requires Inv(st) && Plain(e)
    requires AtLeast(Next(st, e).Value(run), v) && !AtLeast(st.Value(run), v)
    ensures e.DockStart? && st.batch.Some? && st.result.Some? && LeftBy(st.result.value, st.batch.value, s)
    ensures 1 <= index <= |st.batch.value.processes|
    ensures EchoExit(index) in Executed(st.batch.value.processes, st.batch.value.services, s) && Succeeded(StatusOf(s, index))
    ensures var writer := st.batch.value.processes[index - 1].run;
      && writer.machine == run.machine && Lower(writer.name) == Lower(run.name) && writer.value >= v
      && at in Keys(writer) && key in Keys(run) && HeadersMeet(at, key)
  {
    hide Recorded, MarkAll, Targets, Absorbed, Next, HeadersMeet, Keys, Succeeded, ResultFile, StatusOf, Commands, ResultsOf;
    OnlyStartsRecord(st, e, run.machine);
    assert e.DockStart?;
    if st.ledger.session == [] || st.TextOf(run.machine) == "" {
      OtherwiseSame(st, e.start.stamp, run.machine);
      assert false;
    }
    AbsorbedLines(st, e.start.stamp, run.machine);
    var writer: Run;
    writer, at, key := RecordedRaisedBy(Split(st.TextOf(run.machine), '\n'), Selected(st, run.machine), e.start.stamp, run, v);
    s, index := ReportedBy(st, writer);
  }

  /** A run that would be recorded was reported by a session of the last batch. */
  lemma ReportedBy(st: State, writer: Run) returns (s: Session, index: nat)
    requires Inv(st) && writer in Selected(st, writer.machine)
    ensures st.batch.Some? && st.result.Some? && LeftBy(st.result.value, st.batch.value, s)
    ensures 1 <= index <= |st.batch.value.processes| && st.batch.value.processes[index - 1].run == writer
    ensures EchoExit(index) in Executed(st.batch.value.processes, st.batch.value.services, s) && Succeeded(StatusOf(s, index))
  {
    hide Succeeded, ResultFile, StatusOf, Commands, ResultsOf;
    OfHiveAre(Reports(st), writer.machine);
    var batch := st.batch.value;
    s :| LeftBy(st.result.value, batch, s);
    var exits := ResultsOf(st.result.value).exits;
    SuccessesAreReported(st.ledger.session, exits, writer);
    var i :| 0 <= i < |st.ledger.session| && st.ledger.session[i] == writer && i + 1 in exits && Succeeded(exits[i + 1]);
    index := i + 1;
    RunsOfLength(batch.processes);
    ExitFollowsItsProgram(batch.processes, batch.services, s, index);
  }

  // ---------------------------------------------------------------- recorded runs stay out

  /** A start puts no program of a run into its batch that was recorded before. */
  lemma DoneStaysOut(st: State, start: Start, run: Run)
    requires Inv(st) && Plain(DockStart(start)) && st.Done(run)
    ensures var after := Next(st, DockStart(start));
      after.batch.Some? ==> forall p :: p in after.batch.value.processes ==> p.run != run
  {
    hide Absorbed, SkipsAfter, Inv, RunsOf, Chosen, Marked, Recorded;
    var absorbed := Absorbed(st, start.stamp).(result := None, batch := None, script := false);
    var e := DockStart(start);
    DoneStaysDone(st, e, run);
    assert Next(st, e).TextOf(run.machine) == absorbed.TextOf(run.machine);
    assert absorbed.Done(run);
    ChosenAreFound(absorbed, start);
    assert forall p :: p in start.found && p.run == run ==> run in DeviceOf(absorbed, start).done;
  }

  /** Once recorded, a run stays recorded, and no later start of any game puts one of its programs
      into a batch. */
  lemma {:induction false} RecordedRunsStayOut(st: State, events: seq<Event>, run: Run)
    requires Inv(st) && AllPlain(events) && st.Done(run)
    ensures After(st, events).Done(run)
    ensures events != [] && events[|events| - 1].DockStart? && After(st, events).batch.Some? ==>
      forall p :: p in After(st, events).batch.value.processes ==> p.run != run
  {
    hide Inv, Next, Plain, Marked, Recorded;
    if events != [] {
      var init, last := events[..|events| - 1], events[|events| - 1];
      RecordedRunsStayOut(st, init, run);
      InvAlways(st, init);
      DoneStaysDone(After(st, init), last, run);
      if last.DockStart? { DoneStaysOut(After(st, init), last.start, run); }
    }
  }

  // ---------------------------------------------------------------- what a start runs

  /** A program that is due: not recorded as done, on disk, and one this build can run. */
  ghost predicate IsDue(st: State, start: Start, p: Process) {
    !st.Done(p.run) && p.executable in start.present && p !in start.unsupported
  }

  /** The places of the due programs among the first ones found. */
  ghost predicate ArePlaces(st: State, start: Start, found: seq<Process>, runnable: seq<Process>, places: seq<nat>) {
    && |places| == |runnable|
    && (forall i, j :: 0 <= i < j < |places| ==> places[i] < places[j])
    && (forall i :: 0 <= i < |places| ==> places[i] < |found| && found[places[i]] == runnable[i])
    && (forall k :: 0 <= k < |found| ==> (IsDue(st, start, found[k]) <==> k in places))
  }

  lemma PlacesNext(st: State, start: Start, found: seq<Process>, runnable: seq<Process>, places: seq<nat>, p: Process)
    requires ArePlaces(st, start, found, runnable, places)
    ensures IsDue(st, start, p) ==> ArePlaces(st, start, found + [p], runnable + [p], places + [|found|])
    ensures !IsDue(st, start, p) ==> ArePlaces(st, start, found + [p], runnable, places)
  {
    hide IsDue;
    var more := found + [p];
    assert forall k :: 0 <= k < |found| ==> more[k] == found[k];
    assert forall i :: 0 <= i < |places| ==> places[i] in places;
  }

  lemma {:induction false} RunnableAre(st: State, start: Start, found: seq<Process>) returns (places: seq<nat>)
    requires forall p :: p in found ==> p in start.found
    ensures ArePlaces(st, start, found, Runnable(found, DeviceOf(st, start)), places)
  {
    hide IsDue, DeviceOf;
    if found == [] {
      places := [];
    } else {
      hide ArePlaces;
      var n := |found| - 1;
      var init, last := found[..n], found[n];
      assert found == init + [last];
      places := RunnableAre(st, start, init);
      DueCanRun(st, start, last);
      PlacesNext(st, start, init, Runnable(init, DeviceOf(st, start)), places, last);
      assert Runnable(init, DeviceOf(st, start)) + [] == Runnable(init, DeviceOf(st, start));
      if IsDue(st, start, last) { places := places + [n]; }
    }
  }

  lemma DueCanRun(st: State, start: Start, p: Process)
    requires p in start.found
    ensures DeviceOf(st, start).CanRun(p) <==> IsDue(st, start, p)
  {
    hide Marked;
    if st.Done(p.run) { assert p.run in DeviceOf(st, start).done; }
  }

  /** A start that is on, does not skip the game and can write puts the first due programs into its
      batch, eight at most, in the order in which they were found, and nothing else; any other start
      writes no batch. */
  lemma StartRunsWhatIsDue(st: State, start: Start) returns (places: seq<nat>)
    ensures var absorbed, after := Absorbed(st, start.stamp).(result := None, batch := None, script := false), Next(st, DockStart(start));
      && (forall i, j :: 0 <= i < j < |places| ==> places[i] < places[j])
      && (forall i :: 0 <= i < |places| ==> places[i] < |start.found|)
      && (forall k :: 0 <= k < |start.found| ==> (IsDue(absorbed, start, start.found[k]) <==> k in places))
      && (after.batch.Some? <==> start.enabled && start.canWrite && places != [] && !(start.choice && start.app in st.ledger.skips))
      && (after.batch.Some? ==>
        && |after.batch.value.processes| == (if |places| < 8 then |places| else 8)
        && (forall i :: 0 <= i < |after.batch.value.processes| ==> after.batch.value.processes[i] == start.found[places[i]])
        && after.batch.value.services == start.services && after.script && after.ledger.app == start.app)
  {
    hide PlanOf, WithStatus, DeviceOf, Runnable, Reports, Record, RunsOf, SkipsAfter, IsDue;
    var absorbed := Absorbed(st, start.stamp).(result := None, batch := None, script := false);
    places := RunnableAre(absorbed, start, start.found);
    PendingComesFirst(start.found, DeviceOf(absorbed, start), LIMIT);
    NothingFound(start, DeviceOf(absorbed, start));
    RunsOfNone();
    RunsOfLength(Chosen(absorbed, start));
  }

  lemma RunsOfNone()
    ensures RunsOf([]) == []
  {
  }

  // ---------------------------------------------------------------- successes are recorded

  /** A reported success records its run at the next start exactly when the registry file is there,
      the result file is short enough to be read and the run's name does not hide its number from
      the reader; else the run stays as it was and the report is gone all the same. One success is
      enough for a run of several programs: the others, run or not, stay out of that start's batch. */
  lemma SuccessIsRecorded(st: State, start: Start, index: nat)
    requires Inv(st) && Plain(DockStart(start)) && st.batch.Some? && st.result.Some?
    requires 1 <= index <= |st.batch.value.processes|
    requires var exits := ResultsOf(st.result.value).exits; index in exits && Succeeded(exits[index])
    ensures var run, after := st.batch.value.processes[index - 1].run, Next(st, DockStart(start));
      && (after.Done(run) <==> st.Done(run) || (st.TextOf(run.machine) != "" && |st.result.value| <= MAX_RESULT && !HoldsDword(run.name)))
      && after.result == None
      && (after.Done(run) && after.batch.Some? ==> forall p :: p in after.batch.value.processes ==> p.run != run)
  {
    hide Recorded, Marked, MarkAll, Targets, Absorbed, Succeeded, ResultsOf, ResultFile, RunsOf, Chosen, SkipsAfter;
    var run := st.batch.value.processes[index - 1].run;
    AbsorbedDone(st, start.stamp, index);
    var absorbed := Absorbed(st, start.stamp).(result := None, batch := None, script := false);
    assert Next(st, DockStart(start)).TextOf(run.machine) == absorbed.TextOf(run.machine);
    ChosenAreFound(absorbed, start);
    if absorbed.Done(run) {
      assert forall p :: p in start.found && p.run == run ==> run in DeviceOf(absorbed, start).done;
    }
  }

  lemma AbsorbedDone(st: State, stamp: string, index: nat)
    requires Inv(st) && '\n' !in stamp && st.batch.Some? && st.result.Some?
    requires 1 <= index <= |st.batch.value.processes|
    requires var exits := ResultsOf(st.result.value).exits; index in exits && Succeeded(exits[index])
    ensures var run := st.batch.value.processes[index - 1].run;
      Absorbed(st, stamp).Done(run) <==> st.Done(run) || (st.TextOf(run.machine) != "" && |st.result.value| <= MAX_RESULT && !HoldsDword(run.name))
  {
    hide Recorded, MarkAll, Targets, Absorbed, Succeeded, ResultsOf, ResultFile, RunsOf, HoldsDword, OneLine;
    var run := st.batch.value.processes[index - 1].run;
    RunsOfLength(st.batch.value.processes);
    assert st.ledger.session[index - 1] == run;
    if st.TextOf(run.machine) == "" {
      OtherwiseSame(st, stamp, run.machine);
    } else {
      AbsorbedLines(st, stamp, run.machine);
      if |st.result.value| <= MAX_RESULT {
        var exits := ResultsOf(st.result.value).exits;
        assert (index - 1) + 1 in exits;
        SuccessesAreReported(st.ledger.session, exits, run);
        OfHiveAre(Reports(st), run.machine);
        MarkedAfter(Split(st.TextOf(run.machine), '\n'), Selected(st, run.machine), stamp, run);
        if HoldsDword(run.name) { HiddenNeverRecorded(run, Split(st.TextOf(run.machine), '\n')); }
      } else {
        NoTargets(Split(st.TextOf(run.machine), '\n'), stamp);
      }
    }
  }

  lemma NoTargets(lines: seq<string>, stamp: string)
    ensures MarkAll(lines, Targets([]), stamp) == lines
  {
  }

  /** The longest report of the services that leaves room for eight programs. */
  const LONGEST_OUTCOME := 15482

  /** A batch's program whose session got past its exit line with a success is recorded at the start
      after that session, and never again runs at that start, exactly when the registry file is there
      and the run's name does not hide its number. */
  lemma SessionIsRecorded(st: State, first: Start, s: Session, second: Start, index: nat)
    requires Inv(st) && Plain(DockStart(first)) && PlainSession(s) && Plain(DockStart(second)) && |s.outcome| <= LONGEST_OUTCOME
    requires var planned := Next(st, DockStart(first)); planned.batch.Some? && 1 <= index <= |planned.batch.value.processes|
    requires var batch := Next(st, DockStart(first)).batch.value;
      EchoExit(index) in Executed(batch.processes, batch.services, s) && Succeeded(StatusOf(s, index))
    ensures var planned := Next(st, DockStart(first));
      var run, after := planned.batch.value.processes[index - 1].run, After(st, [DockStart(first), RunSession(s), DockStart(second)]);
      && !planned.Done(run)
      && (after.Done(run) <==> planned.TextOf(run.machine) != "" && !HoldsDword(run.name))
      && (after.Done(run) && after.batch.Some? ==> forall p :: p in after.batch.value.processes ==> p.run != run)
  {
    hide Next, Inv, Marked, HoldsDword, Succeeded, ResultFile, Commands, ResultsOf, PlainSession;
    var planned := Next(st, DockStart(first));
    InvKept(st, DockStart(first));
    ThreeSteps(st, DockStart(first), RunSession(s), DockStart(second));
    BatchIsWritten(st, first);
    var batch := planned.batch.value;
    ExitIsRead(batch, s, index, planned);
    InvKept(planned, RunSession(s));
    SuccessIsRecorded(Next(planned, RunSession(s)), second, index);
  }

  lemma ThreeSteps(st: State, a: Event, b: Event, c: Event)
    ensures After(st, [a, b, c]) == Next(Next(Next(st, a), b), c)
  {
    hide Next;
    assert [a, b, c][..2] == [a, b] && [a, b][..1] == [a] && [a][..0] == [];
    assert After(st, [a, b]) == Next(After(st, [a]), b);
  }

  /** A batch that was written waits for its session, and none of its runs is done. */
  lemma BatchIsWritten(st: State, start: Start)
    requires Next(st, DockStart(start)).batch.Some?
    ensures var after := Next(st, DockStart(start));
      after.script && |after.batch.value.processes| <= LIMIT && forall p :: p in after.batch.value.processes ==> !after.Done(p.run)
  {
    hide Absorbed, Chosen, SkipsAfter, RunsOf, Marked;
    var absorbed := Absorbed(st, start.stamp).(result := None, batch := None, script := false);
    ChosenAreFound(absorbed, start);
    forall p | p in Chosen(absorbed, start) ensures !absorbed.Done(p.run) {
      assert p in start.found && DeviceOf(absorbed, start).CanRun(p);
    }
  }

  /** A session that got past a program's exit line leaves a result file that is read, with that
      program's status. */
  lemma ExitIsRead(batch: InstallProtocol.Written, s: Session, index: nat, st: State)
    requires st.batch == Some(batch) && st.script && PlainSession(s) && |s.outcome| <= LONGEST_OUTCOME
    requires 1 <= index <= |batch.processes| <= LIMIT && EchoExit(index) in Executed(batch.processes, batch.services, s)
    ensures var after := Next(st, RunSession(s));
      && after == st.(result := Some(ResultFile(batch.processes, batch.services, s)))
      && |after.result.value| <= MAX_RESULT
      && index in ResultsOf(after.result.value).exits && ResultsOf(after.result.value).exits[index] == StatusOf(s, index)
  {
    hide ResultFile, ResultsOf, Commands;
    var executed := Executed(batch.processes, batch.services, s);
    var k :| 0 <= k < |executed| && executed[k] == EchoExit(index);
    CommandAt(batch.processes, batch.services, k);
    CommandsLength(batch.processes, batch.services);
    ResultsAgree(batch.processes, batch.services, s);
    ResultFileSize(batch.processes, batch.services, s);
  }

  // ---------------------------------------------------------------- the choice

  /** A game whose choice is Skip runs nothing at a start that honours the choice, and only the
      user takes the choice back. */
  lemma SkippedGamesRunNothing(st: State, e: Event, app: nat)
    requires Inv(st) && Plain(e) && app in st.ledger.skips
    ensures e.DockStart? && e.start.app == app && e.start.choice ==> Next(st, e).batch == None && Next(st, e).ledger.session == []
    ensures app in Next(st, e).ledger.skips <==> e != Choose(app, true)
  {
    hide PlanOf, WithStatus, Record, Reports, ResultFile;
    assert RunsOf([]) == [];
  }

  /** This start runs everything that is pending, as far as the choice goes. */
  predicate RunsAll(absorbed: State, start: Start) {
    start.enabled && start.choice && Chosen(absorbed, start) != [] && |Runnable(start.found, DeviceOf(absorbed, start))| <= LIMIT
  }

  /** A start turns the choice to Skip exactly when it is to run everything that is pending, whether
      or not the batch could be written: a game is skipped without having run anything exactly when,
      on top of that, it could not. */
  lemma RunningTurnsToSkip(st: State, start: Start)
    requires start.app !in st.ledger.skips
    ensures var absorbed, after := Absorbed(st, start.stamp).(result := None, batch := None, script := false), Next(st, DockStart(start));
      && (start.app in after.ledger.skips <==> RunsAll(absorbed, start))
      && (start.app in after.ledger.skips && after.batch == None <==> RunsAll(absorbed, start) && !start.canWrite)
  {
    hide PlanOf, WithStatus, DeviceOf, Runnable, Reports, Record, RunsOf;
    var absorbed := Absorbed(st, start.stamp).(result := None, batch := None, script := false);
    PendingComesFirst(start.found, DeviceOf(absorbed, start), LIMIT);
    NothingFound(start, DeviceOf(absorbed, start));
  }

  lemma NothingFound(start: Start, device: Device)
    ensures start.found == [] ==> Runnable(start.found, device) == []
  {
  }

  /** A first start that finds one program and cannot write its batch. */
  const FIRST := State(Ledger([], 0, {}), "", "", None, None, false)

  function OneProgramFound(canWrite: bool): Start {
    var p := Process(Run("n", true, "K", 1), "C:\\a.exe", "");
    InstallProtocol.Start.Start(7, [p], {p.executable}, {}, true, true, Off, canWrite, "")
  }

  /** The game's choice is Skip from then on, and nothing has run. */
  lemma SkippedUnrun()
    ensures var after := Next(FIRST, DockStart(OneProgramFound(false)));
      && 7 in after.ledger.skips && after.batch == None
      && !after.Done(OneProgramFound(false).found[0].run)
      && Next(FIRST, DockStart(OneProgramFound(true))).batch.Some?
  {
    hide Absorbed, PlanOf, WithStatus, RunsOf;
    var start := OneProgramFound(false);
    NotDoneYet(start.found[0].run);
    assert Absorbed(FIRST, "") == FIRST by { AbsorbNothing(); }
    forall canWrite: bool ensures Chosen(FIRST, OneProgramFound(canWrite)) == start.found && RunsAll(FIRST, OneProgramFound(canWrite)) {
      var device := DeviceOf(FIRST, OneProgramFound(canWrite));
      assert device.CanRun(start.found[0]);
      assert start.found[..0] == [];
      assert Runnable(start.found, device) == start.found;
      PendingComesFirst(start.found, device, LIMIT);
      assert start.found[..1] == start.found;
    }
    RunningTurnsToSkip(FIRST, start);
  }

  lemma AbsorbNothing()
    ensures Absorbed(FIRST, "") == FIRST
  {
  }

  lemma NotDoneYet(run: Run)
    requires run.value > 0
    ensures !FIRST.Done(run)
  {
    RecordedAtLeast(run, [""], run.value);
  }
}
