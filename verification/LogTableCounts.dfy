/** What the rows of the log table say: without an eviction every line that is logged while its row
    holds its place is counted, and the row shows the last of them. */
module LogTableCounts {
  import opened LogTable
  import opened LogTableLaws
  import opened LogTableRuns

  /** One accepted line of a kind. */
  datatype Line = Line(raw: string, now: int)

  /** The lines of a kind that its row stands for, told by the run: since the last clear the first one,
      and those logged while the index held a place for the kind. */
  function Heard(events: seq<Event>, sig: string): seq<Line> {
    if events == [] then []
    else
      var init, e := events[..|events| - 1], events[|events| - 1];
      HeardAfter(Heard(init, sig), After(EMPTY, init), e, sig)
  }

  function HeardAfter(before: seq<Line>, st: Store, e: Event, sig: string): seq<Line> {
    if e.Log? && e.sig == sig && (before == [] || (sig in st.index && st.index[sig] >= 0)) then before + [Line(e.raw, e.now)]
    else if e.ClearLock? && st.phase.Rest? then []
    else before
  }

  /** The row of a kind: the time of its first line, time and text of its last one, and how many. */
  function RowOf(sig: string, lines: seq<Line>): Row
    requires lines != []
  {
    Row(lines[0].now, lines[|lines| - 1].now, sig, lines[|lines| - 1].raw, |lines|)
  }

  /** No eviction since the last clear. */
  ghost predicate Undisturbed(events: seq<Event>) {
    events == [] ||
      var init, e := events[..|events| - 1], events[|events| - 1];
      var st := After(EMPTY, init);
      (e.ClearLock? && st.phase.Rest?) || (Undisturbed(init) && !(e.Commit? && st.phase.Draining? && Evicts(st)))
  }

  // ---------------------------------------------------------------- the table with all queues worked in

  ghost function Pending(st: Store): seq<Update> { (if st.phase.Draining? then st.phase.updates else []) + st.updates }

  ghost function Standing(st: Store): seq<Row> { if st.phase.Clearing? then [] else st.rows }

  ghost function Final(st: Store): seq<Row> { Apply(Standing(st), Pending(st)) + Queue(st) }

  /** Every row is the row of the lines heard of its kind, and every kind heard has one. */
  ghost predicate Tells(rows: seq<Row>, events: seq<Event>) {
    && (forall i :: 0 <= i < |rows| ==> TellsOne(rows[i], events))
    && (forall sig :: Heard(events, sig) != [] <==> sig in Sigs(rows))
  }

  ghost predicate TellsOne(row: Row, events: seq<Event>) {
    Heard(events, row.sig) != [] && row == RowOf(row.sig, Heard(events, row.sig))
  }

  /** So does the table with everything that waits. */
  ghost predicate Says(st: Store, events: seq<Event>) { Tells(Final(st), events) }

  /** Updates are for rows that stand. */
  ghost predicate Aimed(st: Store) { forall u :: u in Pending(st) ==> u.index < |Standing(st)| }

  ghost predicate Sound(st: Store, events: seq<Event>) { Inv(st) && Tidy(st) && Aimed(st) && Says(st, events) }

  lemma {:induction false} ApplyConcat(rows: seq<Row>, a: seq<Update>, b: seq<Update>)
    ensures Apply(rows, a + b) == Apply(Apply(rows, a), b)
  {
    hide ApplyOne;
    if b == [] {
      assert a + b == a;
    } else {
      ApplyConcat(rows, a, b[..|b| - 1]);
      assert (a + b)[..|a + b| - 1] == a + b[..|b| - 1];
    }
  }

  /** Rows behind the ones that updates are for stay as they are. */
  lemma {:induction false} ApplyBeside(rows: seq<Row>, more: seq<Row>, updates: seq<Update>)
    requires forall u :: u in updates ==> u.index < |rows|
    ensures Apply(rows + more, updates) == Apply(rows, updates) + more
  {
    if updates != [] {
      var init, last := updates[..|updates| - 1], updates[|updates| - 1];
      assert last in updates;
      ApplyBeside(rows, more, init);
      ApplyKeepsSigs(rows, init);
    }
  }

  lemma ApplyMore(rows: seq<Row>, updates: seq<Update>, u: Update)
    ensures Apply(rows, updates + [u]) == ApplyOne(Apply(rows, updates), u)
  {
    assert (updates + [u])[..|updates|] == updates;
  }

  lemma FinalSigs(st: Store)
    ensures Sigs(Final(st)) == Sigs(Standing(st)) + Sigs(Queue(st))
  {
    ApplyKeepsSigs(Standing(st), Pending(st));
    SameSigsSame(Standing(st), Apply(Standing(st), Pending(st)));
    SigsConcat(Apply(Standing(st), Pending(st)), Queue(st));
  }

  lemma HeardNext(events: seq<Event>, e: Event, sig: string)
    ensures Heard(events + [e], sig) == HeardAfter(Heard(events, sig), After(EMPTY, events), e, sig)
  {
    assert (events + [e])[..|events|] == events;
  }

  // ---------------------------------------------------------------- a line is logged

  /** One more line for the row at `i`. */
  lemma BumpTells(rows: seq<Row>, i: nat, events: seq<Event>, raw: string, now: int)
    requires i < |rows| && Tells(rows, events) && forall k :: 0 <= k < |rows| && k != i ==> rows[k].sig != rows[i].sig
    requires var st := After(EMPTY, events); rows[i].sig in st.index && st.index[rows[i].sig] >= 0
    ensures Tells(Bump(rows, i, raw, now), events + [Log(rows[i].sig, raw, now)])
  {
    hide Heard, Sigs;
    var e, bumped := Log(rows[i].sig, raw, now), Bump(rows, i, raw, now);
    BumpKeepsSigs(rows, i, raw, now);
    HasSig(rows, i);
    forall sig { HeardNext(events, e, sig); }
    forall k | 0 <= k < |bumped| ensures TellsOne(bumped[k], events + [e]) {
      assert TellsOne(rows[k], events);
    }
  }

  lemma HasSig(rows: seq<Row>, i: nat)
    requires i < |rows|
    ensures rows[i].sig in Sigs(rows)
  {
  }

  lemma KnownFinal(st: Store, sig: string, raw: string, now: int)
    requires Inv(st) && sig in st.index && 0 <= st.index[sig] < |Standing(st)|
    ensures var after, i := Logged(st, sig, raw, now), st.index[sig];
      && Pending(after) == Pending(st) + [Update(i, raw, now)] && Standing(after) == Standing(st) && Queue(after) == Queue(st)
      && i < |Final(st)| && Final(after) == Bump(Final(st), i, raw, now)
  {
    hide Apply, Inv;
    var after, i := Logged(st, sig, raw, now), st.index[sig];
    var u := Update(i, raw, now);
    assert Pending(after) == Pending(st) + [u];
    ApplyMore(Standing(st), Pending(st), u);
    ApplyKeepsSigs(Standing(st), Pending(st));
    assert Final(after) == Bump(Apply(Standing(st), Pending(st)), i, raw, now) + Queue(st);
  }

  /** A line of a kind that has a place. */
  lemma KnownLine(st: Store, events: seq<Event>, sig: string, raw: string, now: int)
    requires Sound(st, events) && st == After(EMPTY, events) && sig in st.index && st.index[sig] >= 0
    ensures Sound(Logged(st, sig, raw, now), events + [Log(sig, raw, now)])
  {
    hide Final, Inv, Tidy, Tells;
    LogKeepsInv(st, sig, raw, now);
    LogKeepsTidy(st, sig, raw, now);
    PlaceHeld(st, sig);
    KnownFinal(st, sig, raw, now);
    OthersApart(st, st.index[sig]);
    BumpTells(Final(st), st.index[sig], events, raw, now);
  }

  /** The kind's place in the table while the index holds one. */
  lemma PlaceHeld(st: Store, sig: string)
    requires Inv(st) && sig in st.index && st.index[sig] >= 0
    ensures !st.phase.Clearing? && st.index[sig] < |Standing(st)| && Standing(st)[st.index[sig]].sig == sig
  {
  }

  /** No other row, waiting or not, has the signature of one that stands. */
  lemma OthersApart(st: Store, i: nat)
    requires Inv(st) && Tidy(st) && i < |Standing(st)|
    ensures |Final(st)| >= |Standing(st)| && Final(st)[i].sig == Standing(st)[i].sig
    ensures forall k :: 0 <= k < |Final(st)| && k != i ==> Final(st)[k].sig != Standing(st)[i].sig
  {
    var applied, n := Apply(Standing(st), Pending(st)), |Standing(st)|;
    ApplyKeepsSigs(Standing(st), Pending(st));
    forall k | 0 <= k < |Final(st)| && k != i ensures Final(st)[k].sig != Standing(st)[i].sig {
      if k < n {
        assert Final(st)[k].sig == Standing(st)[k].sig;
      } else {
        assert Final(st)[k] == Queue(st)[k - n];
        assert IsWaiting(st.index, Queue(st)[k - n].sig);
      }
    }
  }

  /** A line of a kind that waits for its row is dropped. */
  lemma WaitingLine(st: Store, events: seq<Event>, sig: string, raw: string, now: int)
    requires Sound(st, events) && st == After(EMPTY, events) && IsWaiting(st.index, sig)
    ensures Sound(Logged(st, sig, raw, now), events + [Log(sig, raw, now)])
  {
    hide Apply, Tidy, Sigs, Exact;
    var e, after := Log(sig, raw, now), Logged(st, sig, raw, now);
    LogKeepsInv(st, sig, raw, now);
    LogKeepsTidy(st, sig, raw, now);
    var u := Update(-1, raw, now);
    assert Pending(after) == Pending(st) + [u] && Queue(after) == Queue(st) && Standing(after) == Standing(st);
    ApplyMore(Standing(st), Pending(st), u);
    assert Final(after) == Final(st);
    WaitingIsQueued(st, sig);
    FinalSigs(st);
    forall s { HeardNext(events, e, s); }
  }

  lemma WaitingIsQueued(st: Store, sig: string)
    requires Inv(st) && IsWaiting(st.index, sig)
    ensures sig in Sigs(Queue(st))
  {
    SigsConcat(if st.phase.Draining? then st.phase.batch else [], st.news);
    assert sig in Waiting(st);
    NoSigs();
  }

  /** One more row, for a kind that has not been heard. */
  lemma AppendTells(rows: seq<Row>, events: seq<Event>, sig: string, raw: string, now: int)
    requires Tells(rows, events) && sig !in Sigs(rows)
    ensures Tells(rows + [Row(now, now, sig, raw, 1)], events + [Log(sig, raw, now)])
  {
    hide Heard, Sigs;
    var e, row := Log(sig, raw, now), Row(now, now, sig, raw, 1);
    SigsAppend(rows, row);
    assert Heard(events, sig) == [];
    forall s { HeardNext(events, e, s); }
    assert [] + [Line(raw, now)] == [Line(raw, now)];
    forall i | 0 <= i < |rows + [row]| ensures TellsOne((rows + [row])[i], events + [e]) {
      if i < |rows| {
        HasSig(rows, i);
        assert TellsOne(rows[i], events);
      }
    }
  }

  /** The first line of a kind. */
  lemma FirstLine(st: Store, events: seq<Event>, sig: string, raw: string, now: int)
    requires Sound(st, events) && st == After(EMPTY, events) && sig !in st.index
    ensures Sound(Logged(st, sig, raw, now), events + [Log(sig, raw, now)])
  {
    hide Apply, Sigs, Tells, Inv, Tidy, Exact;
    var after, row := Logged(st, sig, raw, now), Row(now, now, sig, raw, 1);
    LogKeepsInv(st, sig, raw, now);
    LogKeepsTidy(st, sig, raw, now);
    assert Pending(after) == Pending(st) && Standing(after) == Standing(st);
    assert Queue(after) == Queue(st) + [row];
    assert Final(after) == Final(st) + [row];
    FinalSigs(st);
    NotHeard(st, sig);
    AppendTells(Final(st), events, sig, raw, now);
  }

  lemma NotHeard(st: Store, sig: string)
    requires Inv(st) && Tidy(st) && sig !in st.index
    ensures sig !in Sigs(Standing(st)) && sig !in Sigs(Queue(st))
  {
    assert forall i :: 0 <= i < |Queue(st)| ==> IsWaiting(st.index, Queue(st)[i].sig);
  }

  // ---------------------------------------------------------------- the main thread

  lemma CommitFinal(st: Store)
    requires Inv(st) && Tidy(st) && Aimed(st) && st.phase.Draining? && !Evicts(st)
    ensures Final(Committed(st)) == Final(st) && Aimed(Committed(st))
  {
    hide Apply, Sigs, Inv, Tidy, Worked;
    var after := Committed(st);
    TidyBatchIsNew(st);
    var applied := Apply(st.rows, st.phase.updates);
    assert after.rows == applied + st.phase.batch && after.phase.Rest? && after.news == st.news && after.updates == st.updates;
    ApplyKeepsSigs(st.rows, st.phase.updates);
    assert forall u :: u in st.updates ==> u in Pending(st);
    ApplyBeside(applied, st.phase.batch, st.updates);
    ApplyConcat(st.rows, st.phase.updates, st.updates);
    assert Pending(after) == st.updates && Queue(after) == st.news;
    assert Apply(applied, st.updates) + st.phase.batch + st.news == Apply(applied, st.updates) + (st.phase.batch + st.news);
  }

  /** A commit without an eviction puts the rows where the queues had them. */
  lemma CommitSays(st: Store, events: seq<Event>)
    requires Sound(st, events) && st == After(EMPTY, events) && st.phase.Draining? && !Evicts(st)
    ensures Sound(Committed(st), events + [Commit])
  {
    hide Final, Aimed, Inv, Tidy, Evicts, Committed, Heard;
    CommitKeepsInv(st);
    CalmCommit(st);
    CommitKeepsTidy(st);
    CommitFinal(st);
    forall sig { HeardNext(events, Commit, sig); }
  }

  lemma CalmCommit(st: Store)
    requires st.phase.Draining? && !Evicts(st)
    ensures CalmStep(st, Commit)
  {
  }

  lemma DrainKeeps(st: Store)
    requires st.phase.Rest?
    ensures Queue(Drained(st)) == Queue(st) && Pending(Drained(st)) == Pending(st) && Standing(Drained(st)) == Standing(st)
    ensures Drained(st).index == st.index
  {
  }

  /** Only log lines and clears change what has been heard. */
  lemma SameTells(rows: seq<Row>, events: seq<Event>, e: Event)
    requires Tells(rows, events) && !e.Log? && !(e.ClearLock? && After(EMPTY, events).phase.Rest?)
    ensures Tells(rows, events + [e])
  {
    hide Heard, Sigs;
    forall sig { HeardNext(events, e, sig); }
    forall i | 0 <= i < |rows| ensures TellsOne(rows[i], events + [e]) { assert TellsOne(rows[i], events); }
  }

  lemma DrainSays(st: Store, events: seq<Event>)
    requires Sound(st, events) && st == After(EMPTY, events) && st.phase.Rest?
    ensures Sound(Drained(st), events + [Drain])
  {
    hide Apply, Sigs, Tells, Queue, Pending, Standing, Inv, Distinct, Drained;
    DrainKeepsInv(st);
    DrainKeeps(st);
    SameTells(Final(st), events, Drain);
  }

  /** A clear begins: nothing has been heard since. */
  lemma ClearLockSays(st: Store, events: seq<Event>)
    requires st == After(EMPTY, events) && Inv(st) && st.phase.Rest?
    ensures Sound(Next(st, ClearLock), events + [ClearLock])
  {
    var after := Next(st, ClearLock);
    InvKept(st, ClearLock);
    assert Queue(after) == [] && Pending(after) == [] && Standing(after) == [];
    assert Apply([], []) == [];
    assert Final(after) == [];
    forall sig { HeardNext(events, ClearLock, sig); }
  }

  lemma ClearKeeps(st: Store)
    requires st.phase.Clearing?
    ensures var after := Next(st, ClearRows);
      Queue(after) == Queue(st) && Pending(after) == Pending(st) && Standing(after) == Standing(st) && after.index == st.index
  {
  }

  lemma ClearRowsSays(st: Store, events: seq<Event>)
    requires Sound(st, events) && st == After(EMPTY, events) && st.phase.Clearing?
    ensures Sound(Next(st, ClearRows), events + [ClearRows])
  {
    hide Apply, Sigs, Tells, Queue, Pending, Standing, Inv, Distinct, Next;
    ClearKeepsInv(st);
    ClearKeeps(st);
    SameTells(Final(st), events, ClearRows);
  }

  lemma NothingDone(st: Store, events: seq<Event>, e: Event)
    requires Sound(st, events) && st == After(EMPTY, events) && !Enabled(st, e)
    ensures Sound(st, events + [e])
  {
    hide Heard, Final, Sigs;
    forall sig { HeardNext(events, e, sig); }
  }

  lemma StepSays(st: Store, events: seq<Event>, e: Event)
    requires Sound(st, events) && st == After(EMPTY, events) && Enabled(st, e)
    requires !(e.Commit? && st.phase.Draining? && Evicts(st))
    ensures Sound(Next(st, e), events + [e])
  {
    hide Says, Tidy, Aimed, Evicts, Exact;
    match e
    case Log(sig, raw, now) =>
      if sig !in st.index { FirstLine(st, events, sig, raw, now); }
      else if st.index[sig] >= 0 { KnownLine(st, events, sig, raw, now); }
      else { PlaceOrSentinel(st, sig); WaitingLine(st, events, sig, raw, now); }
    case Drain => DrainSays(st, events);
    case Commit => CommitSays(st, events);
    case ClearLock => ClearLockSays(st, events);
    case ClearRows => ClearRowsSays(st, events);
  }

  lemma PlaceOrSentinel(st: Store, sig: string)
    requires Inv(st) && sig in st.index && st.index[sig] < 0
    ensures IsWaiting(st.index, sig)
  {
  }

  /** In every undisturbed run, rows and queues together stand for exactly the lines heard. */
  lemma {:induction false} RunsSay(events: seq<Event>)
    requires Undisturbed(events)
    ensures Sound(After(EMPTY, events), events)
  {
    hide Sound, Next, Enabled, Evicts, Inv;
    if events == [] {
      NothingHeardYet();
    } else {
      var init, e := events[..|events| - 1], events[|events| - 1];
      var st := After(EMPTY, init);
      assert events == init + [e];
      TableStaysExact(init);
      if e.ClearLock? && st.phase.Rest? {
        ClearIsEnabled(st);
        ClearLockSays(st, init);
      } else {
        RunsSay(init);
        if Enabled(st, e) { StepSays(st, init, e); } else { NothingDone(st, init, e); }
      }
    }
  }

  lemma ClearIsEnabled(st: Store)
    requires st.phase.Rest?
    ensures Enabled(st, ClearLock)
  {
  }

  lemma NothingHeardYet()
    ensures Sound(EMPTY, [])
  {
    hide Inv;
    EmptyIsExact();
    EmptyIsTidy();
    assert Apply([], []) == [];
    assert Final(EMPTY) == [];
    NoSigs();
  }

  /** At rest with empty queues, without an eviction since the last clear: a row counts its first line
      and every line of its kind logged while the index held its place, and shows the text and time of
      the last of them; and every kind heard has its row. */
  lemma RowsTellTheirLines(events: seq<Event>)
    requires Undisturbed(events)
    requires var st := After(EMPTY, events); st.phase.Rest? && st.news == [] && st.updates == []
    ensures var st := After(EMPTY, events);
      && (forall i :: 0 <= i < |st.rows| ==> Heard(events, st.rows[i].sig) != [] && st.rows[i] == RowOf(st.rows[i].sig, Heard(events, st.rows[i].sig)))
      && (forall sig :: Heard(events, sig) != [] <==> sig in Sigs(st.rows))
  {
    hide Heard, Sigs;
    var st := After(EMPTY, events);
    RunsSay(events);
    assert Apply(st.rows, []) == st.rows;
    assert Pending(st) == [] && Queue(st) == [] && Final(st) == st.rows + [] == st.rows;
    assert forall i :: 0 <= i < |st.rows| ==> TellsOne(st.rows[i], events);
  }
}
