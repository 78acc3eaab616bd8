/** The log table (`LogStore`): logger threads queue lines under a lock, the main thread drains
    the queues, works them into the rows and commits the new rows, and clears the table in two
    halves. Each locked section is one step; any logger step can fall between two steps of the
    main thread. */
module LogTable {

  // ---------------------------------------------------------------- rows and queues

  /** One row; `first` and `last` are timestamps. */
  datatype Row = Row(first: int, last: int, sig: string, raw: string, count: nat)

  /** A line for the row at an index. */
  datatype Update = Update(index: int, raw: string, now: int)

  /** Where the main thread is: at rest, between the two locked sections of a flush with what it
      drained, or between the two halves of a clear. */
  datatype Phase = Rest | Draining(batch: seq<Row>, updates: seq<Update>) | Clearing

  datatype Store = Store(rows: seq<Row>, index: map<string, int>, news: seq<Row>, updates: seq<Update>, phase: Phase)

  const MAX_ROWS := 200

  function Bump(rows: seq<Row>, i: nat, raw: string, now: int): seq<Row>
    requires i < |rows|
  {
    rows[i := rows[i].(count := rows[i].count + 1, last := now, raw := raw)]
  }

  /** The first row with a signature; |rows| when there is none. */
  function Place(rows: seq<Row>, sig: string): (i: nat)
    ensures i <= |rows|
    ensures i < |rows| ==> rows[i].sig == sig
    ensures forall j :: 0 <= j < i ==> rows[j].sig != sig
  {
    if rows == [] || rows[0].sig == sig then 0
    else
      var rest := Place(rows[1..], sig);
      assert forall j :: 0 < j <= rest ==> rows[j] == rows[1..][j - 1];
      rest + 1
  }

  // ---------------------------------------------------------------- the work of a flush

  function ApplyOne(rows: seq<Row>, u: Update): seq<Row> {
    if u.index < 0 || u.index >= |rows| then rows else Bump(rows, u.index, u.raw, u.now)
  }

  function Apply(rows: seq<Row>, updates: seq<Update>): seq<Row> {
    if updates == [] then rows else ApplyOne(Apply(rows, updates[..|updates| - 1]), updates[|updates| - 1])
  }

  /** The rows, the new rows collapsed so far, and how often an entry met a row of the table. */
  datatype Collapsed = Collapsed(rows: seq<Row>, added: seq<Row>, met: nat)

  function CollapseOne(c: Collapsed, entry: Row): Collapsed {
    var i := Place(c.added, entry.sig);
    if i < |c.added| then c.(added := Bump(c.added, i, entry.raw, entry.last))
    else
      var j := Place(c.rows, entry.sig);
      if j < |c.rows| then c.(rows := Bump(c.rows, j, entry.raw, entry.last), met := c.met + 1)
      else c.(added := c.added + [entry])
  }

  function Collapse(rows: seq<Row>, batch: seq<Row>): Collapsed {
    if batch == [] then Collapsed(rows, [], 0) else CollapseOne(Collapse(rows, batch[..|batch| - 1]), batch[|batch| - 1])
  }

  function Key(row: Row, byLast: bool): int { if byLast then row.last else row.first }

  function Insert(rows: seq<Row>, row: Row, byLast: bool): seq<Row> {
    if rows == [] then [row]
    else
      var n := |rows| - 1;
      if Key(rows[n], byLast) <= Key(row, byLast) then rows + [row] else Insert(rows[..n], row, byLast) + [rows[n]]
  }

  function Sorted(rows: seq<Row>, byLast: bool): seq<Row> {
    if rows == [] then [] else Insert(Sorted(rows[..|rows| - 1], byLast), rows[|rows| - 1], byLast)
  }

  lemma {:induction false} InsertLength(rows: seq<Row>, row: Row, byLast: bool)
    ensures |Insert(rows, row, byLast)| == |rows| + 1
  {
    if rows != [] { InsertLength(rows[..|rows| - 1], row, byLast); }
  }

  lemma {:induction false} SortedLength(rows: seq<Row>, byLast: bool)
    ensures |Sorted(rows, byLast)| == |rows|
  {
    if rows != [] {
      SortedLength(rows[..|rows| - 1], byLast);
      InsertLength(Sorted(rows[..|rows| - 1], byLast), rows[|rows| - 1], byLast);
    }
  }

  /** The rows an eviction drops and those it keeps: the oldest by their last line go. */
  function Dropped(rows: seq<Row>): seq<Row>
    requires |rows| > MAX_ROWS
  {
    SortedLength(rows, true);
    Sorted(rows, true)[..|rows| - MAX_ROWS]
  }

  function Kept(rows: seq<Row>): seq<Row>
    requires |rows| > MAX_ROWS
  {
    SortedLength(rows, true);
    Sorted(Sorted(rows, true)[|rows| - MAX_ROWS..], false)
  }

  /** The index of the rows from scratch. */
  function Numbered(rows: seq<Row>): map<string, int> {
    if rows == [] then map[] else Numbered(rows[..|rows| - 1])[rows[|rows| - 1].sig := |rows| - 1]
  }

  /** The rows appended at the end, with their places. */
  function Extended(index: map<string, int>, size: nat, added: seq<Row>): map<string, int> {
    if added == [] then index
    else Extended(index, size, added[..|added| - 1])[added[|added| - 1].sig := size + |added| - 1]
  }

  // ---------------------------------------------------------------- the steps

  /** `handleRawLine` of a line with a signature. */
  function Logged(st: Store, sig: string, raw: string, now: int): Store {
    if sig in st.index then st.(updates := st.updates + [Update(st.index[sig], raw, now)])
    else st.(news := st.news + [Row(now, now, sig, raw, 1)], index := st.index[sig := -1])
  }

  /** The first locked section of `flushPending`. */
  function Drained(st: Store): Store
    requires st.phase.Rest?
  {
    if st.news == [] && st.updates == [] then st
    else st.(news := [], updates := [], phase := Draining(st.news, st.updates))
  }

  /** What the main thread makes of the batch before it takes the lock again. */
  function Worked(st: Store): Collapsed
    requires st.phase.Draining?
  {
    Collapse(Apply(st.rows, st.phase.updates), st.phase.batch)
  }

  /** The rest of `flushPending`. */
  function Committed(st: Store): Store
    requires st.phase.Draining?
  {
    var c := Worked(st);
    var rows := c.rows + c.added;
    if |rows| > MAX_ROWS then st.(rows := Kept(rows), index := Numbered(Kept(rows)), phase := Rest)
    else st.(rows := rows, index := Extended(st.index, |c.rows|, c.added), phase := Rest)
  }

  /** Whether a commit evicts. */
  predicate Evicts(st: Store)
    requires st.phase.Draining?
  {
    |Worked(st).rows| + |Worked(st).added| > MAX_ROWS
  }

  datatype Event = Log(sig: string, raw: string, now: int) | Drain | Commit | ClearLock | ClearRows

  predicate Enabled(st: Store, e: Event) {
    match e
    case Log(_, _, _) => true
    case Drain => st.phase.Rest?
    case Commit => st.phase.Draining?
    case ClearLock => st.phase.Rest?
    case ClearRows => st.phase.Clearing?
  }

  function Next(st: Store, e: Event): Store
    requires Enabled(st, e)
  {
    match e
    case Log(sig, raw, now) => Logged(st, sig, raw, now)
    case Drain => Drained(st)
    case Commit => Committed(st)
    case ClearLock => st.(index := map[], news := [], updates := [], phase := Clearing)
    case ClearRows => st.(rows := [], phase := Rest)
  }

  const EMPTY := Store([], map[], [], [], Rest)

  /** The object the threads share. `batch` and `drained` are the local variables of a flush that
      is between its locked sections. */
  class LogStore {
    var rows: seq<Row>
    var sigToIndex: map<string, int>
    var pendingNew: seq<Row>
    var pendingUpdates: seq<Update>
    var phase: Phase

    ghost function Current(): Store
      reads this
    {
      Store(rows, sigToIndex, pendingNew, pendingUpdates, phase)
    }

    constructor ()
      ensures Current() == EMPTY
    {
      rows, sigToIndex, pendingNew, pendingUpdates, phase := [], map[], [], [], Rest;
    }

    method HandleLine(sig: string, raw: string, now: int)
      modifies this
      ensures Current() == Logged(old(Current()), sig, raw, now)
    {
      if sig in sigToIndex {
        pendingUpdates := pendingUpdates + [Update(sigToIndex[sig], raw, now)];
      } else {
        pendingNew := pendingNew + [Row(now, now, sig, raw, 1)];
        sigToIndex := sigToIndex[sig := -1];
      }
    }

    method DrainPending()
      requires phase.Rest?
      modifies this
      ensures Current() == Drained(old(Current()))
    {
      if pendingNew != [] || pendingUpdates != [] {
        phase := Draining(pendingNew, pendingUpdates);
        pendingNew, pendingUpdates := [], [];
      }
    }

    static method ApplyUpdates(before: seq<Row>, updates: seq<Update>) returns (rows: seq<Row>)
      ensures rows == Apply(before, updates)
    {
      rows := before;
      for i := 0 to |updates|
        invariant rows == Apply(before, updates[..i])
      {
        assert updates[..i + 1][..i] == updates[..i];
        var u := updates[i];
        if u.index < 0 || u.index >= |rows| { continue; }
        rows := Bump(rows, u.index, u.raw, u.now);
      }
      assert updates[..|updates|] == updates;
    }

    /** The loop over the new lines; `places` finds a signature among the collapsed ones. */
    static method CollapseBatch(before: seq<Row>, batch: seq<Row>) returns (rows: seq<Row>, added: seq<Row>, ghost met: nat)
      ensures Collapsed(rows, added, met) == Collapse(before, batch)
    {
      hide Place, ArePlaces, Bump;
      rows, added, met := before, [], 0;
      var places: map<string, nat> := map[];
      NoPlaces();
      for k := 0 to |batch|
        invariant Collapsed(rows, added, met) == Collapse(before, batch[..k])
        invariant ArePlaces(places, added)
      {
        assert batch[..k + 1][..k] == batch[..k];
        var entry := batch[k];
        PlaceIs(places, added, entry.sig);
        if entry.sig in places {
          var i := places[entry.sig];
          BumpKeepsPlaces(places, added, i, entry.raw, entry.last);
          added := Bump(added, i, entry.raw, entry.last);
        } else {
          var existing := Place(rows, entry.sig);
          if existing < |rows| {
            rows := Bump(rows, existing, entry.raw, entry.last);
            met := met + 1;
            continue;
          }
          AppendKeepsPlaces(places, added, entry);
          places := places[entry.sig := |added|];
          added := added + [entry];
        }
      }
      assert batch[..|batch|] == batch;
    }

    method CommitBatch()
      requires phase.Draining?
      modifies this
      ensures Current() == Committed(old(Current()))
    {
      hide Place, Kept, Sorted;
      ghost var before := Current();
      var applied := ApplyUpdates(rows, phase.updates);
      var worked, added;
      ghost var met;
      worked, added, met := CollapseBatch(applied, phase.batch);
      ghost var c := Worked(before);
      assert c == Collapsed(worked, added, met);
      rows, sigToIndex := AppendRows(worked, sigToIndex, added);
      if |rows| > MAX_ROWS {
        rows := EvictOldest(rows);
        sigToIndex := NumberRows(rows);
      }
      phase := Rest;
    }

    static method AppendRows(before: seq<Row>, index: map<string, int>, added: seq<Row>) returns (rows: seq<Row>, numbered: map<string, int>)
      ensures rows == before + added && numbered == Extended(index, |before|, added)
    {
      rows, numbered := before, index;
      for i := 0 to |added|
        invariant rows == before + added[..i]
        invariant numbered == Extended(index, |before|, added[..i])
      {
        assert added[..i + 1][..i] == added[..i];
        rows := rows + [added[i]];
        numbered := numbered[added[i].sig := |rows| - 1];
      }
      assert added[..|added|] == added;
    }

    static method EvictOldest(before: seq<Row>) returns (rows: seq<Row>)
      requires |before| > MAX_ROWS
      ensures rows == Kept(before)
    {
      rows := Sorted(before, true);
      SortedLength(before, true);
      rows := rows[|rows| - MAX_ROWS..];
      rows := Sorted(rows, false);
    }

    static method NumberRows(rows: seq<Row>) returns (index: map<string, int>)
      ensures index == Numbered(rows)
    {
      index := map[];
      for i := 0 to |rows|
        invariant index == Numbered(rows[..i])
      {
        assert rows[..i + 1][..i] == rows[..i];
        index := index[rows[i].sig := i];
      }
      assert rows[..|rows|] == rows;
    }

    /** The locked half of `clear`. */
    method ClearQueues()
      requires phase.Rest?
      modifies this
      ensures Current() == Next(old(Current()), ClearLock)
    {
      sigToIndex, pendingNew, pendingUpdates, phase := map[], [], [], Clearing;
    }

    /** The other half of `clear`. */
    method ClearTable()
      requires phase.Clearing?
      modifies this
      ensures Current() == Next(old(Current()), ClearRows)
    {
      rows, phase := [], Rest;
    }
  }

  /** The batch's own map: where each signature stands among the collapsed rows. */
  ghost predicate ArePlaces(places: map<string, nat>, rows: seq<Row>) {
    && (forall sig :: Place(rows, sig) == if sig in places then places[sig] else |rows|)
    && forall sig :: sig in places ==> places[sig] < |rows|
  }

  lemma NoPlaces()
    ensures ArePlaces(map[], [])
  {
  }

  lemma PlaceIs(places: map<string, nat>, rows: seq<Row>, sig: string)
    requires ArePlaces(places, rows)
    ensures Place(rows, sig) == if sig in places then places[sig] else |rows|
    ensures sig in places ==> places[sig] < |rows|
  {
  }

  lemma BumpKeepsPlaces(places: map<string, nat>, rows: seq<Row>, i: nat, raw: string, now: int)
    requires i < |rows| && ArePlaces(places, rows)
    ensures ArePlaces(places, Bump(rows, i, raw, now))
  {
    forall sig ensures Place(Bump(rows, i, raw, now), sig) == Place(rows, sig) {
      var bumped := Bump(rows, i, raw, now);
      var a, b := Place(rows, sig), Place(bumped, sig);
      assert a < |rows| ==> bumped[a].sig == sig;
      assert b < |rows| ==> rows[b].sig == sig;
    }
  }

  lemma AppendKeepsPlaces(places: map<string, nat>, rows: seq<Row>, row: Row)
    requires ArePlaces(places, rows) && Place(rows, row.sig) == |rows|
    ensures ArePlaces(places[row.sig := |rows|], rows + [row])
  {
    hide Place;
    var longer, more := rows + [row], places[row.sig := |rows|];
    forall sig ensures Place(longer, sig) == if sig in more then more[sig] else |longer| {
      PlaceInLonger(rows, row, sig);
    }
  }

  lemma PlaceInLonger(rows: seq<Row>, row: Row, sig: string)
    ensures Place(rows + [row], sig) == if Place(rows, sig) < |rows| then Place(rows, sig) else if sig == row.sig then |rows| else |rows| + 1
  {
    var longer := rows + [row];
    var a, b := Place(rows, sig), Place(longer, sig);
    assert longer[|rows|].sig == row.sig;
    assert a < |rows| ==> longer[a].sig == sig;
    assert b < |rows| ==> rows[b].sig == sig;
  }
}
