/** What holds of the log table in every interleaving of logger steps with flushes and clears. */
module LogTableLaws {
  import opened LogTable

  // ---------------------------------------------------------------- the invariant

  ghost function Sigs(rows: seq<Row>): set<string> { set i | 0 <= i < |rows| :: rows[i].sig }

  ghost predicate Distinct(rows: seq<Row>) { forall i, j :: 0 <= i < j < |rows| ==> rows[i].sig != rows[j].sig }

  /** Every row's signature maps to its own place, and no other signature maps to a place. */
  ghost predicate Exact(rows: seq<Row>, index: map<string, int>) {
    && (forall i :: 0 <= i < |rows| ==> rows[i].sig in index && index[rows[i].sig] == i)
    && (forall sig :: sig in index ==> index[sig] == -1 || (0 <= index[sig] < |rows| && rows[index[sig]].sig == sig))
  }

  /** The signatures waiting in a queue or in the batch of a flush. */
  ghost function Waiting(st: Store): set<string> {
    Sigs(st.news) + if st.phase.Draining? then Sigs(st.phase.batch) else {}
  }

  ghost predicate Inv(st: Store) {
    && Distinct(st.rows)
    && (st.phase.Clearing? || Exact(st.rows, st.index))
    && (st.phase.Clearing? ==> forall sig :: sig in st.index ==> st.index[sig] == -1)
    && (forall sig :: IsWaiting(st.index, sig) ==> sig in Waiting(st))
  }

  // ---------------------------------------------------------------- the work of a flush

  ghost predicate SameSigs(a: seq<Row>, b: seq<Row>) { |a| == |b| && forall i :: 0 <= i < |a| ==> a[i].sig == b[i].sig }

  lemma {:induction false} ApplyKeepsSigs(rows: seq<Row>, updates: seq<Update>)
    ensures SameSigs(rows, Apply(rows, updates))
  {
    if updates != [] { ApplyKeepsSigs(rows, updates[..|updates| - 1]); }
  }

  /** The collapsed rows: the table keeps its signatures, the added rows are new ones, each once,
      and nothing of the batch is left out. */
  ghost predicate Merges(rows: seq<Row>, batch: seq<Row>, c: Collapsed) {
    && SameSigs(rows, c.rows)
    && Distinct(c.added)
    && Sigs(c.added) !! Sigs(rows)
    && Sigs(c.added) <= Sigs(batch) <= Sigs(rows) + Sigs(c.added)
  }

  lemma {:induction false} CollapseMerges(rows: seq<Row>, batch: seq<Row>)
    ensures Merges(rows, batch, Collapse(rows, batch))
  {
    if batch != [] {
      var init, entry := batch[..|batch| - 1], batch[|batch| - 1];
      CollapseMerges(rows, init);
      CollapseOneMerges(rows, init, Collapse(rows, init), entry);
      assert batch == init + [entry];
    }
  }

  lemma SigsAppend(rows: seq<Row>, row: Row)
    ensures Sigs(rows + [row]) == Sigs(rows) + {row.sig}
  {
    var longer := rows + [row];
    assert longer[|rows|] == row;
    forall i | 0 <= i < |rows| ensures rows[i].sig in Sigs(longer) { assert longer[i] == rows[i]; }
  }

  lemma PlaceOfSig(rows: seq<Row>, sig: string)
    ensures Place(rows, sig) < |rows| <==> sig in Sigs(rows)
  {
  }

  lemma BumpKeepsSigs(rows: seq<Row>, i: nat, raw: string, now: int)
    requires i < |rows|
    ensures SameSigs(rows, Bump(rows, i, raw, now)) && Sigs(Bump(rows, i, raw, now)) == Sigs(rows)
  {
    var after := Bump(rows, i, raw, now);
    SameSigsSame(rows, after);
  }

  lemma SameSigsSame(a: seq<Row>, b: seq<Row>)
    requires SameSigs(a, b)
    ensures Sigs(a) == Sigs(b) && (Distinct(a) <==> Distinct(b))
  {
    forall i | 0 <= i < |a| ensures a[i].sig in Sigs(b) && b[i].sig in Sigs(a) {
      assert a[i].sig == b[i].sig;
    }
  }

  lemma CollapseOneMerges(rows: seq<Row>, batch: seq<Row>, c: Collapsed, entry: Row)
    requires Merges(rows, batch, c)
    ensures Merges(rows, batch + [entry], CollapseOne(c, entry))
  {
    hide Place;
    SigsAppend(batch, entry);
    PlaceOfSig(c.added, entry.sig);
    PlaceOfSig(c.rows, entry.sig);
    SameSigsSame(rows, c.rows);
    var i, j := Place(c.added, entry.sig), Place(c.rows, entry.sig);
    if i < |c.added| {
      BumpKeepsSigs(c.added, i, entry.raw, entry.last);
      SameSigsSame(c.added, Bump(c.added, i, entry.raw, entry.last));
    } else if j < |c.rows| {
      BumpKeepsSigs(c.rows, j, entry.raw, entry.last);
    } else {
      SigsAppend(c.added, entry);
      assert forall k :: 0 <= k < |c.added| ==> c.added[k].sig in Sigs(c.added);
    }
  }

  lemma DistinctConcat(a: seq<Row>, b: seq<Row>)
    requires Distinct(a) && Distinct(b) && Sigs(a) !! Sigs(b)
    ensures Distinct(a + b)
  {
    assert forall i :: 0 <= i < |a| ==> a[i].sig in Sigs(a);
    assert forall j :: 0 <= j < |b| ==> b[j].sig in Sigs(b);
  }

  lemma SigsConcat(a: seq<Row>, b: seq<Row>)
    ensures Sigs(a + b) == Sigs(a) + Sigs(b)
  {
    var c := a + b;
    forall i | 0 <= i < |a| ensures a[i].sig in Sigs(c) { assert c[i] == a[i]; }
    forall j | 0 <= j < |b| ensures b[j].sig in Sigs(c) { assert c[|a| + j] == b[j]; }
  }

  // ---------------------------------------------------------------- sorting and eviction

  ghost predicate Ordered(rows: seq<Row>, byLast: bool) {
    forall i, j :: 0 <= i < j < |rows| ==> Key(rows[i], byLast) <= Key(rows[j], byLast)
  }

  lemma {:induction false} InsertPermutes(rows: seq<Row>, row: Row, byLast: bool)
    ensures multiset(Insert(rows, row, byLast)) == multiset(rows) + multiset{row}
  {
    if rows != [] {
      var n := |rows| - 1;
      assert rows == rows[..n] + [rows[n]];
      InsertPermutes(rows[..n], row, byLast);
    }
  }

  lemma {:induction false} InsertSorts(rows: seq<Row>, row: Row, byLast: bool)
    requires Ordered(rows, byLast)
    ensures Ordered(Insert(rows, row, byLast), byLast)
  {
    if rows != [] {
      var n := |rows| - 1;
      if Key(rows[n], byLast) > Key(row, byLast) {
        InsertSorts(rows[..n], row, byLast);
        InsertedKeys(rows[..n], row, byLast, Key(rows[n], byLast));
      }
    }
  }

  lemma {:induction false} InsertedKeys(rows: seq<Row>, row: Row, byLast: bool, bound: int)
    requires Key(row, byLast) <= bound && forall i :: 0 <= i < |rows| ==> Key(rows[i], byLast) <= bound
    ensures forall i :: 0 <= i < |Insert(rows, row, byLast)| ==> Key(Insert(rows, row, byLast)[i], byLast) <= bound
  {
    if rows != [] { InsertedKeys(rows[..|rows| - 1], row, byLast, bound); }
  }

  /** Sorting is a permutation in order. */
  lemma {:induction false} SortedSorts(rows: seq<Row>, byLast: bool)
    ensures Ordered(Sorted(rows, byLast), byLast) && multiset(Sorted(rows, byLast)) == multiset(rows)
  {
    if rows != [] {
      var n := |rows| - 1;
      SortedSorts(rows[..n], byLast);
      InsertSorts(Sorted(rows[..n], byLast), rows[n], byLast);
      InsertPermutes(Sorted(rows[..n], byLast), rows[n], byLast);
      assert rows == rows[..n] + [rows[n]];
    }
  }

  lemma {:induction false} DistinctCount(rows: seq<Row>, x: Row)
    requires Distinct(rows)
    ensures multiset(rows)[x] <= 1
  {
    if rows != [] {
      var n := |rows| - 1;
      assert rows == rows[..n] + [rows[n]];
      DistinctCount(rows[..n], x);
      if x == rows[n] { assert x !in rows[..n]; }
    }
  }

  lemma TwiceCounts(rows: seq<Row>, i: nat, j: nat)
    requires i < j < |rows| && rows[i] == rows[j]
    ensures multiset(rows)[rows[i]] >= 2
  {
    assert rows[i] in rows[..j];
    assert rows == rows[..j] + [rows[j]] + rows[j + 1..];
  }

  lemma SameSigSameRow(rows: seq<Row>, x: Row, y: Row)
    requires Distinct(rows) && x in rows && y in rows && x.sig == y.sig
    ensures x == y
  {
  }

  /** Signatures are distinct as a matter of the rows, not of their order. */
  lemma PermutedDistinct(a: seq<Row>, b: seq<Row>)
    requires multiset(a) == multiset(b)
    ensures Sigs(a) == Sigs(b) && (Distinct(a) ==> Distinct(b))
  {
    assert forall row :: row in a <==> row in multiset(a);
    assert forall row :: row in b <==> row in multiset(b);
    assert forall i :: 0 <= i < |a| ==> a[i] in b;
    assert forall i :: 0 <= i < |b| ==> b[i] in a;
    if Distinct(a) {
      forall i, j | 0 <= i < j < |b| ensures b[i].sig != b[j].sig {
        DistinctCount(a, b[i]);
        if b[i] == b[j] { TwiceCounts(b, i, j); }
        if b[i].sig == b[j].sig { SameSigSameRow(a, b[i], b[j]); }
      }
    }
  }

  lemma SameElements(a: seq<Row>, b: seq<Row>)
    requires multiset(a) == multiset(b)
    ensures forall row :: row in a <==> row in b
  {
    assert forall row :: row in a <==> row in multiset(a);
    assert forall row :: row in b <==> row in multiset(b);
  }

  lemma DistinctTail(rows: seq<Row>, n: nat)
    requires n <= |rows|
    ensures Distinct(rows) ==> Distinct(rows[n..])
  {
  }

  /** An eviction keeps 200 rows and drops the rest; no dropped row has a later last line than a
      kept one, and the kept rows stand in the order of their first lines. */
  lemma EvictionDropsOldest(rows: seq<Row>)
    requires |rows| > MAX_ROWS
    ensures |Kept(rows)| == MAX_ROWS && multiset(Dropped(rows)) + multiset(Kept(rows)) == multiset(rows)
    ensures forall d, k :: d in Dropped(rows) && k in Kept(rows) ==> d.last <= k.last
    ensures Ordered(Kept(rows), false)
    ensures Distinct(rows) ==> Distinct(Kept(rows)) && Sigs(rows) == Sigs(Dropped(rows)) + Sigs(Kept(rows))
  {
    hide Sorted, Distinct, Sigs;
    SortedLength(rows, true);
    SortedSorts(rows, true);
    var sorted, n := Sorted(rows, true), |rows| - MAX_ROWS;
    assert sorted == sorted[..n] + sorted[n..];
    SortedLength(sorted[n..], false);
    SortedSorts(sorted[n..], false);
    SameElements(Kept(rows), sorted[n..]);
    DistinctTail(sorted, n);
    PermutedDistinct(rows, sorted);
    PermutedDistinct(sorted[n..], Kept(rows));
    SigsConcat(sorted[..n], sorted[n..]);
  }

  lemma {:induction false} NumberedIsExact(rows: seq<Row>)
    requires Distinct(rows)
    ensures Exact(rows, Numbered(rows))
    ensures forall sig :: sig in Numbered(rows) ==> Numbered(rows)[sig] >= 0
  {
    if rows != [] { NumberedIsExact(rows[..|rows| - 1]); }
  }

  predicate IsWaiting(index: map<string, int>, sig: string) { sig in index && index[sig] == -1 }

  lemma {:induction false} ExtendedIsExact(rows: seq<Row>, index: map<string, int>, added: seq<Row>)
    requires Distinct(rows + added) && Exact(rows, index)
    ensures Exact(rows + added, Extended(index, |rows|, added))
    ensures forall sig :: IsWaiting(Extended(index, |rows|, added), sig) <==> IsWaiting(index, sig) && sig !in Sigs(added)
  {
    if added == [] {
      assert rows + added == rows;
    } else {
      hide Exact, Distinct, Sigs;
      var init, last := added[..|added| - 1], added[|added| - 1];
      assert added == init + [last];
      DistinctInit(rows + added);
      assert (rows + added)[..|rows + added| - 1] == rows + init;
      ExtendedIsExact(rows, index, init);
      SigsAppend(init, last);
      assert rows + added == (rows + init) + [last];
      AppendIsExact(rows + init, Extended(index, |rows|, init), last);
    }
  }

  lemma DistinctInit(rows: seq<Row>)
    requires Distinct(rows) && rows != []
    ensures Distinct(rows[..|rows| - 1])
  {
  }

  lemma AppendIsExact(rows: seq<Row>, index: map<string, int>, row: Row)
    requires Distinct(rows + [row]) && Exact(rows, index)
    ensures Exact(rows + [row], index[row.sig := |rows|])
  {
    var all := rows + [row];
    assert all[|rows|] == row;
    assert forall i :: 0 <= i < |rows| ==> all[i] == rows[i] && all[i].sig != row.sig;
  }

  // ---------------------------------------------------------------- every step keeps it

  lemma LogKeepsInv(st: Store, sig: string, raw: string, now: int)
    requires Inv(st)
    ensures Inv(Logged(st, sig, raw, now))
  {
    if sig !in st.index { SigsAppend(st.news, Row(now, now, sig, raw, 1)); }
    var after := Logged(st, sig, raw, now);
    forall other | IsWaiting(after.index, other) ensures other in Waiting(after) {
      assert other != sig ==> IsWaiting(st.index, other);
    }
  }

  lemma ExactOfSame(a: seq<Row>, b: seq<Row>, index: map<string, int>)
    requires SameSigs(a, b) && Exact(a, index)
    ensures Exact(b, index)
  {
  }

  /** What a flush works out of its batch. */
  lemma WorkMerges(st: Store)
    requires st.phase.Draining?
    ensures Merges(st.rows, st.phase.batch, Worked(st))
  {
    hide Collapse, Apply;
    ApplyKeepsSigs(st.rows, st.phase.updates);
    var applied := Apply(st.rows, st.phase.updates);
    CollapseMerges(applied, st.phase.batch);
    SameSigsSame(st.rows, applied);
  }

  lemma CommitKeepsInv(st: Store)
    requires Inv(st) && st.phase.Draining?
    ensures Inv(Committed(st))
    ensures |Committed(st).rows| <= MAX_ROWS
  {
    hide Worked, Kept, Numbered, Extended;
    WorkMerges(st);
    var c := Worked(st);
    var rows := c.rows + c.added;
    SameSigsSame(st.rows, c.rows);
    DistinctConcat(c.rows, c.added);
    if |rows| > MAX_ROWS {
      EvictionDropsOldest(rows);
      NumberedIsExact(Kept(rows));
    } else {
      ExactOfSame(st.rows, c.rows, st.index);
      ExtendedIsExact(c.rows, st.index, c.added);
      forall sig | IsWaiting(st.index, sig) && sig !in Sigs(c.added) ensures sig in Sigs(st.news) {
        assert sig in Waiting(st);
        assert sig !in Sigs(st.rows);
      }
    }
  }

  lemma InvKept(st: Store, e: Event)
    requires Inv(st) && Enabled(st, e)
    ensures Inv(Next(st, e))
    ensures |st.rows| <= MAX_ROWS || e.Commit? ==> |Next(st, e).rows| <= MAX_ROWS
  {
    hide Committed, Exact;
    match e
    case Log(sig, raw, now) => LogKeepsInv(st, sig, raw, now);
    case Commit => CommitKeepsInv(st);
    case Drain => DrainKeepsInv(st);
    case ClearLock =>
    case ClearRows => ClearKeepsInv(st);
  }

  lemma DrainKeepsInv(st: Store)
    requires Inv(st) && st.phase.Rest?
    ensures Inv(Drained(st))
  {
  }

  lemma ClearKeepsInv(st: Store)
    requires Inv(st) && st.phase.Clearing?
    ensures Inv(Next(st, ClearRows))
  {
  }

  // ---------------------------------------------------------------- runs

  /** One event of an interleaving; the main thread does what comes next for it, so an event it is
      not ready for does not happen. */
  function Step(st: Store, e: Event): Store { if Enabled(st, e) then Next(st, e) else st }

  function After(st: Store, events: seq<Event>): Store {
    if events == [] then st else Step(After(st, events[..|events| - 1]), events[|events| - 1])
  }

  /** In every interleaving, whenever the main thread is at rest or in a flush: the rows have
      pairwise distinct signatures, each row's signature maps to its place, no other signature maps
      to a place; and the table has at most 200 rows after every flush. */
  lemma {:induction false} TableStaysExact(events: seq<Event>)
    ensures Inv(After(EMPTY, events)) && (!After(EMPTY, events).phase.Clearing? ==> Exact(After(EMPTY, events).rows, After(EMPTY, events).index))
    ensures |After(EMPTY, events).rows| <= MAX_ROWS
  {
    hide Next, Enabled, Exact;
    if events != [] {
      var st := After(EMPTY, events[..|events| - 1]);
      TableStaysExact(events[..|events| - 1]);
      if Enabled(st, events[|events| - 1]) { InvKept(st, events[|events| - 1]); }
    } else {
      EmptyIsExact();
    }
  }

  lemma EmptyIsExact()
    ensures Inv(EMPTY)
  {
  }

  // ---------------------------------------------------------------- counts

  function Sum(rows: seq<Row>): nat { if rows == [] then 0 else Sum(rows[..|rows| - 1]) + rows[|rows| - 1].count }

  lemma {:induction false} SumConcat(a: seq<Row>, b: seq<Row>)
    ensures Sum(a + b) == Sum(a) + Sum(b)
  {
    if b == [] {
      assert a + b == a;
    } else {
      SumConcat(a, b[..|b| - 1]);
      assert (a + b)[..|a + b| - 1] == a + b[..|b| - 1];
    }
  }

  lemma {:induction false} SumBump(rows: seq<Row>, i: nat, raw: string, now: int)
    requires i < |rows|
    ensures Sum(Bump(rows, i, raw, now)) == Sum(rows) + 1
  {
    var n := |rows| - 1;
    var after := Bump(rows, i, raw, now);
    if i < n {
      SumBump(rows[..n], i, raw, now);
      assert after[..n] == Bump(rows[..n], i, raw, now);
    } else {
      assert after[..n] == rows[..n];
    }
  }

  lemma SumOne(row: Row)
    ensures Sum([row]) == row.count
  {
    assert [row][..0] == [];
  }

  lemma {:induction false} SumApply(rows: seq<Row>, updates: seq<Update>)
    ensures Sum(Apply(rows, updates)) <= Sum(rows) + |updates|
  {
    if updates != [] {
      var init, u := updates[..|updates| - 1], updates[|updates| - 1];
      SumApply(rows, init);
      var rest := Apply(rows, init);
      if 0 <= u.index < |rest| { SumBump(rest, u.index, u.raw, u.now); }
    }
  }

  ghost predicate Single(rows: seq<Row>) { forall i :: 0 <= i < |rows| ==> rows[i].count == 1 }

  lemma {:induction false} SumCollapse(rows: seq<Row>, batch: seq<Row>)
    requires Single(batch)
    ensures Sum(Collapse(rows, batch).rows) + Sum(Collapse(rows, batch).added) == Sum(rows) + |batch|
  {
    if batch == [] {
      assert Sum([]) == 0;
    } else {
      hide Place, Bump;
      var init, entry := batch[..|batch| - 1], batch[|batch| - 1];
      SumCollapse(rows, init);
      var c := Collapse(rows, init);
      var i, j := Place(c.added, entry.sig), Place(c.rows, entry.sig);
      if i < |c.added| {
        SumBump(c.added, i, entry.raw, entry.last);
      } else if j < |c.rows| {
        SumBump(c.rows, j, entry.raw, entry.last);
      } else {
        SumConcat(c.added, [entry]);
        SumOne(entry);
      }
    }
  }

  lemma {:induction false} SumInsert(rows: seq<Row>, row: Row, byLast: bool)
    ensures Sum(Insert(rows, row, byLast)) == Sum(rows) + row.count
  {
    if rows == [] {
      SumOne(row);
    } else {
      var n := |rows| - 1;
      if Key(rows[n], byLast) <= Key(row, byLast) {
        SumConcat(rows, [row]);
        SumOne(row);
      } else {
        SumInsert(rows[..n], row, byLast);
        SumConcat(Insert(rows[..n], row, byLast), [rows[n]]);
        SumOne(rows[n]);
      }
    }
  }

  lemma {:induction false} SumSorted(rows: seq<Row>, byLast: bool)
    ensures Sum(Sorted(rows, byLast)) == Sum(rows)
  {
    if rows != [] {
      SumSorted(rows[..|rows| - 1], byLast);
      SumInsert(Sorted(rows[..|rows| - 1], byLast), rows[|rows| - 1], byLast);
    }
  }

  lemma SumKept(rows: seq<Row>)
    requires |rows| > MAX_ROWS
    ensures Sum(Kept(rows)) <= Sum(rows)
  {
    SortedLength(rows, true);
    SumSorted(rows, true);
    var sorted, n := Sorted(rows, true), |rows| - MAX_ROWS;
    assert sorted == sorted[..n] + sorted[n..];
    SumConcat(sorted[..n], sorted[n..]);
    SumSorted(sorted[n..], false);
  }

  /** The lines counted in rows and still queued. */
  ghost function Load(st: Store): nat {
    Sum(st.rows) + |st.news| + |st.updates| + if st.phase.Draining? then |st.phase.batch| + |st.phase.updates| else 0
  }

  ghost predicate Counted(st: Store) { Single(st.news) && (st.phase.Draining? ==> Single(st.phase.batch)) }

  /** Only an accepted line adds to the load, and by one. */
  lemma LoadGrowsByLines(st: Store, e: Event)
    requires Counted(st) && Enabled(st, e)
    ensures Counted(Next(st, e))
    ensures Load(Next(st, e)) <= Load(st) + if e.Log? then 1 else 0
  {
    hide Sum, Kept, Collapse, Apply;
    if e.Commit? {
      var applied := Apply(st.rows, st.phase.updates);
      SumApply(st.rows, st.phase.updates);
      SumCollapse(applied, st.phase.batch);
      var c := Worked(st);
      SumConcat(c.rows, c.added);
      if |c.rows + c.added| > MAX_ROWS { SumKept(c.rows + c.added); }
    } else if e.ClearRows? {
      NoSum();
    }
  }

  lemma NoSum()
    ensures Sum([]) == 0
  {
  }

  function Lines(events: seq<Event>): nat {
    if events == [] then 0 else Lines(events[..|events| - 1]) + if events[|events| - 1].Log? then 1 else 0
  }

  /** In every interleaving the counts of all rows together never exceed the lines accepted. */
  lemma {:induction false} CountsNeverExceedLines(events: seq<Event>)
    ensures Counted(After(EMPTY, events)) && Sum(After(EMPTY, events).rows) <= Load(After(EMPTY, events)) <= Lines(events)
  {
    hide Next, Enabled, Counted;
    if events != [] {
      var st := After(EMPTY, events[..|events| - 1]);
      CountsNeverExceedLines(events[..|events| - 1]);
      if Enabled(st, events[|events| - 1]) { LoadGrowsByLines(st, events[|events| - 1]); }
    } else {
      NothingCounted();
    }
  }

  lemma NothingCounted()
    ensures Counted(EMPTY) && Load(EMPTY) == 0
  {
  }
}
