/** Dock starts over the life of a prefix (`DockInstallers`): a start absorbs what the last
    batch reported, plans, and writes the next batch; sessions run it and may end at any line;
    the user may change a game's choice; the app may restart. */
module InstallProtocol {
  import opened Text
  import opened InstallRecords
  import opened InstallMark
  import opened InstallMarkLaws
  import opened InstallBatch
  import opened InstallBatchLaws

  // ---------------------------------------------------------------- the state

  /** The ledger file: the runs of the last batch in its order, its game, and the games whose
      choice is Skip. */
  datatype Ledger = Ledger(session: seq<Run>, app: nat, skips: set<nat>)

  /** A batch as it was written. */
  datatype Written = Written(processes: seq<Process>, services: Services)

  /** Everything that outlives a start: the ledger, the registry files' texts (empty before the
      prefix is seeded), the result file, the batch last written, and whether this app run still
      holds its name. */
  datatype State = State(ledger: Ledger, machine: string, user: string, result: Option<string>, batch: Option<Written>, script: bool) {
    function TextOf(machineHive: bool): string { if machineHive then machine else user }

    /** The value a run has in its hive. */
    function Value(run: Run): Option<nat> { Recorded(run, Split(TextOf(run.machine), '\n')) }

    predicate Done(run: Run) { Marked(run, Split(TextOf(run.machine), '\n')) }
  }

  /** What a start is given: the game, the programs of its scripts, the device, the switches, and
      whether the batch file could be written. */
  datatype Start = Start(
    app: nat, found: seq<Process>, present: set<string>, unsupported: set<Process>,
    enabled: bool, choice: bool, services: Services, canWrite: bool, stamp: string)

  datatype Event = DockStart(start: Start) | RunSession(session: Session) | Choose(app: nat, run: bool) | Restart

  const LIMIT := 8
  const MAX_RESULT := 16384

  // ---------------------------------------------------------------- absorbing results

  /** The runs whose programs the last batch reported as successful. */
  function Successes(session: seq<Run>, exits: map<int, int>): seq<Run> {
    if session == [] then []
    else
      var n := |session|;
      Successes(session[..n - 1], exits) + (if n in exits && Succeeded(exits[n]) then [session[n - 1]] else [])
  }

  function OfHive(runs: seq<Run>, machine: bool): seq<Run> {
    if runs == [] then []
    else
      var last := runs[|runs| - 1];
      OfHive(runs[..|runs| - 1], machine) + (if last.machine == machine then [last] else [])
  }

  /** A hive's text with the runs recorded in it; a file that is not there yet stays so. */
  function Record(runs: seq<Run>, text: string, stamp: string): string {
    if text == "" then "" else MarkedText(runs, text, stamp)
  }

  function Reports(st: State): seq<Run> {
    if st.result.Some? && |st.result.value| <= MAX_RESULT then Successes(st.ledger.session, ResultsOf(st.result.value).exits) else []
  }

  function Absorbed(st: State, stamp: string): State {
    if st.ledger.session == [] then st
    else st.(
      machine := Record(OfHive(Reports(st), true), st.machine, stamp),
      user := Record(OfHive(Reports(st), false), st.user, stamp),
      result := None,
      ledger := st.ledger.(session := [], app := 0))
  }

  // ---------------------------------------------------------------- a start

  function RunsOf(processes: seq<Process>): seq<Run> {
    if processes == [] then [] else RunsOf(processes[..|processes| - 1]) + [processes[|processes| - 1].run]
  }

  function DeviceOf(st: State, start: Start): Device {
    Device(set p | p in start.found && st.Done(p.run) :: p.run, start.present, start.unsupported)
  }

  /** The pending programs of a start, after the game's choice. */
  function Chosen(st: State, start: Start): seq<Process> {
    var pending := WithStatus(PlanOf(start.found, DeviceOf(st, start), LIMIT), Pending);
    if start.choice && start.app in st.ledger.skips then [] else pending
  }

  /** The choice becomes Skip when this start runs everything that is pending. */
  function SkipsAfter(st: State, start: Start): set<nat> {
    var items := PlanOf(start.found, DeviceOf(st, start), LIMIT);
    if start.choice && Chosen(st, start) != [] && WithStatus(items, Limit) == [] then st.ledger.skips + {start.app} else st.ledger.skips
  }

  /** `prepare`. */
  function Prepared(before: State, start: Start): State {
    var st := Absorbed(before, start.stamp).(result := None, batch := None, script := false);
    if !start.enabled || start.found == [] then st
    else
      var pending := Chosen(st, start);
      var runs := if pending != [] && start.canWrite then pending else [];
      st.(
        ledger := Ledger(RunsOf(runs), if runs == [] then 0 else start.app, SkipsAfter(st, start)),
        batch := if runs == [] then None else Some(Written(runs, start.services)),
        script := runs != [])
  }

  // ---------------------------------------------------------------- every step

  function Next(st: State, e: Event): State {
    match e
    case DockStart(start) => Prepared(st, start)
    case RunSession(s) =>
      if st.script && st.batch.Some? && s.cut > 2 then st.(result := Some(ResultFile(st.batch.value.processes, st.batch.value.services, s))) else st
    case Choose(app, run) => st.(ledger := st.ledger.(skips := if run then st.ledger.skips - {app} else st.ledger.skips + {app}))
    case Restart => st.(script := false)
  }

  /** What the steps of a run are about: names and keys of one line, sessions that report statuses
      of 64 bits, stamps of one line. */
  ghost predicate Plain(e: Event) {
    match e
    case DockStart(start) => '\n' !in start.stamp && forall p :: p in start.found ==> OneLine(p.run)
    case RunSession(s) => PlainSession(s)
    case _ => true
  }

  function After(st: State, events: seq<Event>): State {
    if events == [] then st else Next(After(st, events[..|events| - 1]), events[|events| - 1])
  }

  ghost predicate AllPlain(events: seq<Event>) { forall i :: 0 <= i < |events| ==> Plain(events[i]) }

  /** The state object the app works on. */
  class DockInstalls {
    var ledger: Ledger
    var machine: string
    var user: string
    var result: Option<string>
    var batch: Option<Written>
    var script: bool

    ghost function Current(): State
      reads this
    {
      State(ledger, machine, user, result, batch, script)
    }

    constructor (machine: string, user: string)
      ensures Current() == State(Ledger([], 0, {}), machine, user, None, None, false)
    {
      ledger, this.machine, this.user := Ledger([], 0, {}), machine, user;
      result, batch, script := None, None, false;
    }

    /** `SteamInstallScripts.mark(_:prefix:)` for one hive's text; nothing is written when nothing
        changes, which is the same text. */
    static method RecordIn(runs: seq<Run>, text: string, stamp: string) returns (out: string)
      ensures out == Record(runs, text, stamp)
    {
      if runs == [] || text == "" {
        assert Targets([]) == [];
        return text;
      }
      var updated, changed := Mark(runs, text, stamp);
      if changed > 0 { return updated; }
      NothingToMark(Split(text, '\n'), Targets(runs), stamp);
      return text;
    }

    static method Select(runs: seq<Run>, machine: bool) returns (selected: seq<Run>)
      ensures selected == OfHive(runs, machine)
    {
      selected := [];
      for i := 0 to |runs|
        invariant selected == OfHive(runs[..i], machine)
      {
        assert runs[..i + 1][..i] == runs[..i];
        if runs[i].machine == machine { selected := selected + [runs[i]]; }
      }
      assert runs[..|runs|] == runs;
    }

    /** `absorbResults`. */
    method AbsorbResults(stamp: string)
      modifies this
      ensures Current() == Absorbed(old(Current()), stamp)
    {
      if ledger.session == [] { return; }
      var succeeded: seq<Run> := [];
      if result.Some? && |result.value| <= MAX_RESULT {
        var results := ReadResults(result.value);
        var session := ledger.session;
        for offset := 0 to |session|
          invariant Current() == old(Current())
          invariant succeeded == Successes(session[..offset], results.exits)
        {
          var index := offset + 1;
          assert session[..index][..offset] == session[..offset];
          if index in results.exits && Succeeded(results.exits[index]) { succeeded := succeeded + [session[offset]]; }
        }
        assert session[..|session|] == session;
      }
      var selected := Select(succeeded, true);
      machine := RecordIn(selected, machine, stamp);
      selected := Select(succeeded, false);
      user := RecordIn(selected, user, stamp);
      result := None;
      ledger := ledger.(session := [], app := 0);
    }

    /** `prepare`. */
    method Prepare(start: Start)
      modifies this
      ensures Current() == Prepared(old(Current()), start)
    {
      hide PlanOf, WithStatus, Absorbed, RunsOf, Marked, State.TextOf;
      batch, script := None, false;
      AbsorbFirst(Current(), old(Current()), start.stamp);
      AbsorbResults(start.stamp);
      result := None;
      ghost var st := Absorbed(old(Current()), start.stamp).(result := None, batch := None, script := false);
      assert Current() == st;
      if !start.enabled || start.found == [] { return; }
      var done := Survey(start.found);
      assert DeviceOf(st, start) == Device(done, start.present, start.unsupported);
      var items := Plan(start.found, Device(done, start.present, start.unsupported), LIMIT);
      var pending := WithStatus(items, Pending);
      var skips := ledger.skips;
      if start.choice && start.app in ledger.skips && pending != [] {
        pending := [];
      } else if start.choice && pending != [] && WithStatus(items, Limit) == [] {
        skips := skips + {start.app};
      }
      if pending != [] && start.canWrite {
        batch, script := Some(Written(pending, start.services)), true;
      }
      var session := RunsOf(if script then pending else []);
      RunsOfLength(if script then pending else []);
      ledger := Ledger(session, if session == [] then 0 else start.app, skips);
    }

    /** The runs of the found programs that the registry files record as done. */
    method Survey(found: seq<Process>) returns (done: set<Run>)
      ensures done == set p | p in found && Current().Done(p.run) :: p.run
    {
      done := {};
      for i := 0 to |found|
        invariant done == set p | p in found[..i] && Current().Done(p.run) :: p.run
      {
        var run := found[i].run;
        assert found[..i + 1] == found[..i] + [found[i]];
        var recorded := ReadRecorded(run, if run.machine then machine else user);
        if (if recorded.Some? then recorded.value else 0) >= run.value { done := done + {run}; }
      }
      assert found[..|found|] == found;
    }

    method SetRunsNext(app: nat, run: bool)
      modifies this
      ensures Current() == Next(old(Current()), Choose(app, run))
    {
      ledger := ledger.(skips := if run then ledger.skips - {app} else ledger.skips + {app});
    }
  }

  /** Absorbing does not look at the batch. */
  lemma AbsorbFirst(now: State, before: State, stamp: string)
    requires now == before.(batch := None, script := false)
    ensures Absorbed(now, stamp) == Absorbed(before, stamp).(batch := None, script := false)
  {
  }

  lemma {:induction false} RunsOfLength(processes: seq<Process>)
    ensures |RunsOf(processes)| == |processes|
    ensures forall i :: 0 <= i < |processes| ==> RunsOf(processes)[i] == processes[i].run
  {
    if processes != [] { RunsOfLength(processes[..|processes| - 1]); }
  }
}
