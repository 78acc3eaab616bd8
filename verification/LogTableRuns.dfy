/** Two properties of whole runs of the log table: no kind of line gets lost, and when a new line
    can meet a row of its own signature in a flush. */
module LogTableRuns {
  import opened LogTable
  import opened LogTableLaws

  // ---------------------------------------------------------------- nothing gets lost

  /** What a run has seen since the last clear: the signatures accepted and those evicted. */
  datatype History = History(seen: set<string>, evicted: set<string>)

  ghost function Noted(st: Store, h: History, e: Event): History {
    match e
    case Log(sig, _, _) => h.(seen := h.seen + {sig})
    case Commit =>
      if st.phase.Draining? && Evicts(st) then h.(evicted := h.evicted + Sigs(Dropped(Worked(st).rows + Worked(st).added))) else h
    case ClearLock => if st.phase.Rest? then History({}, {}) else h
    case _ => h
  }

  ghost function Story(events: seq<Event>): History {
    if events == [] then History({}, {})
    else
      var init := events[..|events| - 1];
      Noted(After(EMPTY, init), Story(init), events[|events| - 1])
  }

  /** Every accepted signature has a row, or waits for one, or was evicted. */
  ghost predicate Accounted(st: Store, h: History) {
    h.seen <= (if st.phase.Clearing? then {} else Sigs(st.rows)) + Waiting(st) + h.evicted
  }

  lemma LogAccounts(st: Store, h: History, sig: string, raw: string, now: int)
    requires Inv(st) && Accounted(st, h)
    ensures Accounted(Logged(st, sig, raw, now), h.(seen := h.seen + {sig}))
  {
    if sig in st.index {
      if st.index[sig] == -1 {
        assert IsWaiting(st.index, sig);
      } else {
        assert st.rows[st.index[sig]].sig == sig;
      }
    } else {
      SigsAppend(st.news, Row(now, now, sig, raw, 1));
    }
  }

  lemma CommitAccounts(st: Store, h: History)
    requires Inv(st) && st.phase.Draining? && Accounted(st, h)
    ensures Accounted(Committed(st), Noted(st, h, Commit))
  {
    hide Worked, Kept, Dropped, Numbered, Extended;
    WorkMerges(st);
    var c := Worked(st);
    var rows := c.rows + c.added;
    SameSigsSame(st.rows, c.rows);
    SigsConcat(c.rows, c.added);
    DistinctConcat(c.rows, c.added);
    if |rows| > MAX_ROWS { EvictionDropsOldest(rows); }
  }

  lemma StepAccounts(st: Store, h: History, e: Event)
    requires Inv(st) && Accounted(st, h) && Enabled(st, e)
    ensures Accounted(Next(st, e), Noted(st, h, e))
  {
    hide Inv, Committed, Sigs;
    match e
    case Log(sig, raw, now) => LogAccounts(st, h, sig, raw, now);
    case Commit => CommitAccounts(st, h);
    case _ => NoSigs();
  }

  lemma NoSigs()
    ensures Sigs([]) == {}
  {
  }

  /** In every interleaving every signature accepted since the last clear has a row, waits in a
      queue, or went in an eviction: updates get lost, kinds of lines do not. */
  lemma {:induction false} NoKindIsLost(events: seq<Event>)
    ensures Accounted(After(EMPTY, events), Story(events))
  {
    hide Inv, Next, Accounted;
    if events != [] {
      var init, e := events[..|events| - 1], events[|events| - 1];
      var st := After(EMPTY, init);
      NoKindIsLost(init);
      TableStaysExact(init);
      if Enabled(st, e) { StepAccounts(st, Story(init), e); } else { NotReady(st, Story(init), e); }
    } else {
      NothingSeen();
    }
  }

  lemma NotReady(st: Store, h: History, e: Event)
    requires !Enabled(st, e)
    ensures Noted(st, h, e) == h
  {
  }

  lemma NothingSeen()
    ensures Accounted(EMPTY, History({}, {}))
  {
  }

  // ---------------------------------------------------------------- meeting a row of one's own

  ghost function Queue(st: Store): seq<Row> { (if st.phase.Draining? then st.phase.batch else []) + st.news }

  /** The queued lines have distinct signatures, each held by the sentinel of the index. */
  ghost predicate Tidy(st: Store) {
    Distinct(Queue(st)) && forall i :: 0 <= i < |Queue(st)| ==> IsWaiting(st.index, Queue(st)[i].sig)
  }

  /** No eviction happens while lines wait: an eviction numbers the rows anew and forgets the
      sentinels of the lines that wait. */
  ghost predicate CalmStep(st: Store, e: Event) { e.Commit? && st.phase.Draining? && Evicts(st) ==> st.news == [] }

  ghost predicate Calm(events: seq<Event>) {
    events == [] || (Calm(events[..|events| - 1]) && CalmStep(After(EMPTY, events[..|events| - 1]), events[|events| - 1]))
  }

  lemma {:induction false} NewRowsStay(rows: seq<Row>, batch: seq<Row>)
    requires Distinct(batch) && Sigs(batch) !! Sigs(rows)
    ensures Collapse(rows, batch) == Collapsed(rows, batch, 0)
  {
    if batch != [] {
      var n := |batch| - 1;
      assert batch == batch[..n] + [batch[n]];
      SigsAppend(batch[..n], batch[n]);
      NewRowsStay(rows, batch[..n]);
      PlaceOfSig(batch[..n], batch[n].sig);
      PlaceOfSig(rows, batch[n].sig);
    }
  }

  /** In a tidy state a flush adds exactly its batch, and no entry meets a row. */
  lemma TidyBatchIsNew(st: Store)
    requires Inv(st) && Tidy(st) && st.phase.Draining?
    ensures Worked(st) == Collapsed(Apply(st.rows, st.phase.updates), st.phase.batch, 0)
  {
    hide Apply;
    var batch, applied := st.phase.batch, Apply(st.rows, st.phase.updates);
    ApplyKeepsSigs(st.rows, st.phase.updates);
    SameSigsSame(st.rows, applied);
    assert forall i :: 0 <= i < |batch| ==> Queue(st)[i] == batch[i];
    assert Sigs(batch) !! Sigs(st.rows);
    NewRowsStay(applied, batch);
  }

  lemma LogKeepsTidy(st: Store, sig: string, raw: string, now: int)
    requires Tidy(st)
    ensures Tidy(Logged(st, sig, raw, now))
  {
    var after := Logged(st, sig, raw, now);
    if sig !in st.index {
      assert Queue(after) == Queue(st) + [Row(now, now, sig, raw, 1)];
      assert forall i :: 0 <= i < |Queue(st)| ==> Queue(st)[i].sig != sig;
    } else {
      assert Queue(after) == Queue(st);
    }
  }

  lemma CommitKeepsTidy(st: Store)
    requires Inv(st) && Tidy(st) && st.phase.Draining? && CalmStep(st, Commit)
    ensures Tidy(Committed(st))
  {
    hide Kept, Numbered, Apply, Worked, Extended, Exact, Distinct, Sigs;
    TidyBatchIsNew(st);
    QueueParts(st);
    var c := Worked(st);
    var after := Committed(st);
    assert Queue(after) == st.news;
    if !Evicts(st) {
      WorkMerges(st);
      SameSigsSame(st.rows, c.rows);
      DistinctConcat(c.rows, c.added);
      ExactOfSame(st.rows, c.rows, st.index);
      ExtendedIsExact(c.rows, st.index, c.added);
    } else {
      NothingWaits();
    }
  }

  lemma NothingWaits()
    ensures Distinct([])
  {
  }

  /** The batch and the new lines of a tidy queue. */
  lemma QueueParts(st: Store)
    requires Tidy(st) && st.phase.Draining?
    ensures Distinct(st.phase.batch) && Distinct(st.news)
    ensures forall i :: 0 <= i < |st.news| ==> IsWaiting(st.index, st.news[i].sig) && st.news[i].sig !in Sigs(st.phase.batch)
  {
    var q, m := Queue(st), |st.phase.batch|;
    assert forall i :: 0 <= i < |st.news| ==> q[m + i] == st.news[i];
    assert forall i :: 0 <= i < m ==> q[i] == st.phase.batch[i];
  }

  lemma StepKeepsTidy(st: Store, e: Event)
    requires Inv(st) && Tidy(st) && Enabled(st, e) && CalmStep(st, e)
    ensures Tidy(Next(st, e))
  {
    hide Inv, Committed, CalmStep;
    match e
    case Log(sig, raw, now) => LogKeepsTidy(st, sig, raw, now);
    case Commit => CommitKeepsTidy(st);
    case Drain => assert Queue(Drained(st)) == Queue(st);
    case ClearLock => assert Queue(Next(st, e)) == [];
    case ClearRows => assert Queue(Next(st, e)) == Queue(st);
  }

  /** As long as no eviction happens while lines wait, no line ever meets a row of its own
      signature in a flush: the check against the live rows finds nothing, in every interleaving. */
  lemma {:induction false} CalmRunsNeverMeet(events: seq<Event>)
    requires Calm(events)
    ensures Inv(After(EMPTY, events)) && Tidy(After(EMPTY, events))
    ensures After(EMPTY, events).phase.Draining? ==> Worked(After(EMPTY, events)).met == 0
  {
    hide Inv, Next, Tidy, Worked, CalmStep;
    TableStaysExact(events);
    if events != [] {
      var init, e := events[..|events| - 1], events[|events| - 1];
      CalmRunsNeverMeet(init);
      if Enabled(After(EMPTY, init), e) { StepKeepsTidy(After(EMPTY, init), e); }
    } else {
      EmptyIsTidy();
    }
    if After(EMPTY, events).phase.Draining? { TidyBatchIsNew(After(EMPTY, events)); }
  }

  lemma EmptyIsTidy()
    ensures Tidy(EMPTY)
  {
  }

  // ---------------------------------------------------------------- and when it happens

  lemma InsertLatest(rows: seq<Row>, row: Row)
    requires forall i :: 0 <= i < |rows| ==> rows[i].last <= row.last
    ensures Insert(rows, row, true) == rows + [row]
  {
  }

  lemma LatestSurvives(rows: seq<Row>, row: Row)
    requires |rows| == MAX_ROWS && forall i :: 0 <= i < |rows| ==> rows[i].last <= row.last
    ensures row in Kept(rows + [row])
  {
    hide Sorted;
    SortedSorts(rows, true);
    var sorted := Sorted(rows, true);
    assert forall i :: 0 <= i < |sorted| ==> sorted[i] in multiset(rows);
    assert forall i :: 0 <= i < |sorted| ==> sorted[i] in rows;
    SortedAppend(rows, row);
    InsertLatest(sorted, row);
    SortedLength(rows, true);
    var kept := (sorted + [row])[1..];
    assert kept[|kept| - 1] == row;
    SortedSorts(kept, false);
    assert row in multiset(kept);
    assert row in multiset(Sorted(kept, false));
  }

  lemma SortedAppend(rows: seq<Row>, row: Row)
    ensures Sorted(rows + [row], true) == Insert(Sorted(rows, true), row, true)
  {
    assert (rows + [row])[..|rows|] == rows;
  }

  /** A flush whose batch is one new line. */
  lemma OneNewLine(st: Store, row: Row)
    requires st.phase == Draining([row], []) && row.sig !in Sigs(st.rows)
    ensures Worked(st) == Collapsed(st.rows, [row], 0)
  {
    SigsAppend([], row);
    assert [] + [row] == [row];
    NewRowsStay(st.rows, [row]);
  }

  lemma OneKnownLine(st: Store, row: Row)
    requires st.phase == Draining([row], []) && row.sig in Sigs(st.rows)
    ensures Worked(st).met == 1
  {
    PlaceOfSig(st.rows, row.sig);
    var batch := [row];
    assert batch[..0] == [];
    assert Collapse(st.rows, batch) == CollapseOne(Collapse(st.rows, []), row);
  }

  function LateEvents(row: Row): seq<Event> { [Commit, Drain, Log(row.sig, row.raw, row.last), Commit, Drain] }

  /** Where the condition of CalmRunsNeverMeet fails, a line does meet its own row: after an eviction
      while a line waits, the same line logged once more during the next flush is taken for new
      again, and the flush after that finds its row in the table. */
  lemma LateLineMeets(st: Store, row: Row) returns (end: Store)
    requires Inv(st) && Tidy(st) && st.phase.Draining? && Evicts(st)
    requires st.news == [row] && st.updates == [] && row.first == row.last && row.count == 1
    requires forall r :: r in Worked(st).rows + Worked(st).added ==> r.last <= row.last
    ensures end == After(st, LateEvents(row))
    ensures end.phase.Draining? && Worked(end).met == 1
  {
    hide Worked, Kept;
    var c, events := Worked(st), LateEvents(row);
    var rows := c.rows + c.added;
    WaitingIsNoRow(st, row);
    var first := Committed(st);
    CommitKeepsInv(st);
    NumberedIsExact(first.rows);
    var second := Drained(first);
    assert second == Store(first.rows, first.index, [], [], Draining([row], []));
    var third := Logged(second, row.sig, row.raw, row.last);
    assert third == Store(first.rows, first.index[row.sig := -1], [row], [], Draining([row], []));
    OneNewLine(third, row);
    LatestSurvives(first.rows, row);
    var fourth := Committed(third);
    RowHasSig(fourth.rows, row);
    end := Drained(fourth);
    OneKnownLine(end, row);
    AfterFive(st, row, first, second, third, fourth, end);
  }

  lemma RowHasSig(rows: seq<Row>, row: Row)
    requires row in rows
    ensures row.sig in Sigs(rows)
  {
  }

  lemma AfterFive(st: Store, row: Row, first: Store, second: Store, third: Store, fourth: Store, end: Store)
    requires st.phase.Draining? && first == Committed(st) && second == Drained(first) && third == Logged(second, row.sig, row.raw, row.last)
    requires third.phase.Draining? && fourth == Committed(third) && end == Drained(fourth)
    ensures end == After(st, LateEvents(row))
  {
    hide Committed, Drained, Logged;
    var e := LateEvents(row);
    assert e[..5] == e && e[..5][..4] == e[..4] && e[..4][..3] == e[..3] && e[..3][..2] == e[..2] && e[..2][..1] == e[..1] && e[..1][..0] == [];
    CommitRests(st);
    CommitRests(third);
    assert After(st, e[..1]) == first;
    assert After(st, e[..2]) == second;
    assert After(st, e[..3]) == third;
    assert After(st, e[..4]) == fourth;
  }

  lemma CommitRests(st: Store)
    requires st.phase.Draining?
    ensures Committed(st).phase.Rest?
  {
  }

  /** The waiting line is in no row before the eviction and has no entry in the index after it. */
  lemma WaitingIsNoRow(st: Store, row: Row)
    requires Inv(st) && Tidy(st) && st.phase.Draining? && Evicts(st) && st.news == [row]
    ensures var rows := Worked(st).rows + Worked(st).added;
      && Distinct(rows) && row.sig !in Sigs(rows) && row.sig !in Sigs(Kept(rows)) && |Kept(rows)| == MAX_ROWS
      && row.sig !in Committed(st).index && Committed(st) == Store(Kept(rows), Numbered(Kept(rows)), [row], st.updates, Rest)
      && forall r :: r in Kept(rows) ==> r in rows
  {
    hide Worked, Kept, Dropped;
    TidyBatchIsNew(st);
    WorkMerges(st);
    var c := Worked(st);
    var rows := c.rows + c.added;
    var m := |st.phase.batch|;
    assert Queue(st)[m] == row;
    assert forall i :: 0 <= i < m ==> Queue(st)[i] == st.phase.batch[i];
    SameSigsSame(st.rows, c.rows);
    SigsConcat(c.rows, c.added);
    DistinctConcat(c.rows, c.added);
    assert IsWaiting(st.index, row.sig);
    assert row.sig !in Sigs(rows);
    EvictionDropsOldest(rows);
    NumberedSigs(Kept(rows));
    assert forall r :: r in Kept(rows) ==> r in multiset(Kept(rows));
    assert forall r :: r in multiset(Kept(rows)) ==> r in multiset(rows);
  }

  lemma {:induction false} NumberedSigs(rows: seq<Row>)
    ensures forall sig :: sig in Numbered(rows) ==> sig in Sigs(rows)
  {
    if rows != [] {
      NumberedSigs(rows[..|rows| - 1]);
      assert rows == rows[..|rows| - 1] + [rows[|rows| - 1]];
      SigsAppend(rows[..|rows| - 1], rows[|rows| - 1]);
    }
  }

  // ---------------------------------------------------------------- a run where it happens

  function Name(i: nat): string { seq(i + 1, j => 'a') }

  function RowAt(i: nat): Row { Row(i, i, Name(i), "", 1) }

  function RowsTo(n: nat): seq<Row> { seq(n, i requires 0 <= i < n => RowAt(i)) }

  /** `n` lines of different kinds, one after the other. */
  function LogsTo(n: nat): seq<Event> { if n == 0 then [] else LogsTo(n - 1) + [Log(Name(n - 1), "", n - 1)] }

  /** The state after `n` lines. */
  ghost predicate Queued(st: Store, n: nat) {
    && st.rows == [] && st.news == RowsTo(n) && st.updates == [] && st.phase == Rest
    && forall sig :: sig in st.index ==> |sig| <= n && sig != "b"
  }

  lemma QueuesOneMore(st: Store, n: nat)
    requires Queued(st, n)
    ensures Queued(Logged(st, Name(n), "", n), n + 1)
  {
    assert |Name(n)| == n + 1 && Name(n)[0] == 'a';
    assert RowsTo(n + 1) == RowsTo(n) + [RowAt(n)];
  }

  lemma {:induction false} ManyLines(n: nat)
    ensures Queued(After(EMPTY, LogsTo(n)), n) && Calm(LogsTo(n))
  {
    hide Queued, Logged, Calm, CalmStep;
    if n > 0 {
      ManyLines(n - 1);
      var events, e := LogsTo(n), Log(Name(n - 1), "", n - 1);
      assert events[..|events| - 1] == LogsTo(n - 1) && events[|events| - 1] == e;
      QueuesOneMore(After(EMPTY, LogsTo(n - 1)), n - 1);
      NotACommit(After(EMPTY, LogsTo(n - 1)), e);
      CalmNext(LogsTo(n - 1), e);
    } else {
      NothingQueued();
      NoEventsAreCalm();
    }
  }

  lemma NoEventsAreCalm()
    ensures Calm([])
  {
  }

  lemma NotACommit(st: Store, e: Event)
    requires !e.Commit?
    ensures CalmStep(st, e)
  {
  }

  lemma NothingQueued()
    ensures Queued(EMPTY, 0)
  {
    assert RowsTo(0) == [];
  }

  lemma CalmNext(events: seq<Event>, e: Event)
    requires Calm(events) && CalmStep(After(EMPTY, events), e)
    ensures Calm(events + [e])
  {
    hide CalmStep;
    assert (events + [e])[..|events + [e]| - 1] == events;
  }

  lemma {:induction false} AfterConcat(st: Store, a: seq<Event>, b: seq<Event>)
    ensures After(st, a + b) == After(After(st, a), b)
  {
    hide Step;
    if b == [] {
      assert a + b == a;
    } else {
      AfterConcat(st, a, b[..|b| - 1]);
      assert (a + b)[..|a + b| - 1] == a + b[..|b| - 1];
    }
  }

  function LateRun(n: nat): seq<Event> { LogsTo(n) + [Drain, Log("b", "", n)] + LateEvents(Row(n, n, "b", "", 1)) }

  /** So the check against the live rows is not dead: after more kinds of lines than the table has
      rows, one line logged during each of two flushes in a row meets its own row. */
  lemma LateLineHappens(n: nat)
    requires n > MAX_ROWS
    ensures var end := After(EMPTY, LateRun(n)); end.phase.Draining? && Worked(end).met == 1
  {
    hide Worked, RowsTo, LogsTo;
    var row := Row(n, n, "b", "", 1);
    var pair := [Drain, Log("b", "", n)];
    var st := DrainedRun(n);
    TidyBatchIsNew(st);
    assert Worked(st).added == RowsTo(n);
    RowsToAre(n);
    assert Apply([], []) == [];
    var end := LateLineMeets(st, row);
    AfterConcat(EMPTY, LogsTo(n) + pair, LateEvents(row));
  }

  lemma RowsToAre(n: nat)
    ensures |RowsTo(n)| == n && forall r :: r in RowsTo(n) ==> r.last < n
  {
  }

  lemma DrainedRun(n: nat) returns (st: Store)
    requires n > MAX_ROWS
    ensures st == After(EMPTY, LogsTo(n) + [Drain, Log("b", "", n)]) && Inv(st) && Tidy(st)
    ensures st.rows == [] && st.phase == Draining(RowsTo(n), []) && st.news == [Row(n, n, "b", "", 1)] && st.updates == []
  {
    hide RowsTo, LogsTo, Inv, Tidy, Calm;
    var pair := [Drain, Log("b", "", n)];
    ManyLines(n);
    RowsToAre(n);
    AfterConcat(EMPTY, LogsTo(n), pair);
    var before := After(EMPTY, LogsTo(n));
    assert pair[..1][..0] == [] && pair[..1] == [Drain];
    assert After(before, pair[..1]) == Drained(before);
    assert After(before, pair) == Logged(Drained(before), "b", "", n);
    st := After(EMPTY, LogsTo(n) + pair);
    CalmNext(LogsTo(n), Drain);
    CalmNext(LogsTo(n) + [Drain], Log("b", "", n));
    assert LogsTo(n) + [Drain] + [Log("b", "", n)] == LogsTo(n) + pair;
    CalmRunsNeverMeet(LogsTo(n) + pair);
  }
}
