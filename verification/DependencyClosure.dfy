/** The worklist of `plan`: everything the seeds pull in through `requires` and recipes. Two
    queues feed each other, one of components and one of recipes. */
module DependencyClosure {
  import opened CompatModel
  import DependencyOrder

  datatype Problem = Problem(
    catalogue: Catalogue, recipes: RecipeTable, disabled: set<string>,
    seeds: seq<string>, recipeSeeds: seq<string>)
  {
    /** The guards of `addDependency` and `addRecipe`. */
    predicate Admits(into: bool, id: string) { id !in disabled && (into ==> id in recipes) }

    /** The components (or recipes, `into`) that a component (or recipe, `from`) names. */
    function Edges(from: bool, into: bool, id: string): seq<string> {
      if from then
        if id !in recipes then [] else if into then recipes[id].needs else recipes[id].dependencies
      else
        if id !in catalogue then [] else if into then catalogue[id].recipes else catalogue[id].needs
    }

    /** Those of them the plan may add. */
    ghost function Named(from: bool, into: bool, id: string): set<string> {
      set x | x in Edges(from, into, id) && Admits(into, x)
    }

    function Seeds(into: bool): seq<string> { if into then recipeSeeds else seeds }
  }

  /** One queue: what is listed in order, the same as a set, and the part not yet expanded. */
  datatype Queue = Queue(listed: seq<string>, seen: set<string>, pending: seq<string>)

  const EMPTY := Queue([], {}, [])

  ghost predicate ValidQueue(q: Queue) {
    && q.seen == Elements(q.listed)
    && NoDuplicates(q.listed)
    && |q.pending| <= |q.listed|
    && q.pending == q.listed[|q.listed| - |q.pending|..]
  }

  /** What the queue has already expanded. */
  ghost function Expanded(q: Queue): set<string>
    requires ValidQueue(q)
  {
    Elements(q.listed[..|q.listed| - |q.pending|])
  }

  /** Both sets hold their admitted seeds. */
  ghost predicate HoldsSeeds(p: Problem, components: set<string>, recipes: set<string>) {
    && (forall id :: id in p.seeds && p.Admits(false, id) ==> id in components)
    && (forall id :: id in p.recipeSeeds && p.Admits(true, id) ==> id in recipes)
  }

  /** Everything named by a member of the first pair is in the second pair. */
  ghost predicate Follows(p: Problem, components: set<string>, recipes: set<string>, intoComponents: set<string>, intoRecipes: set<string>) {
    && (forall x :: x in components ==> p.Named(false, false, x) <= intoComponents && p.Named(false, true, x) <= intoRecipes)
    && (forall x :: x in recipes ==> p.Named(true, false, x) <= intoComponents && p.Named(true, true, x) <= intoRecipes)
  }

  /** A pair of sets that holds the seeds and everything its members name. */
  ghost predicate ClosedPair(p: Problem, components: set<string>, recipes: set<string>) {
    HoldsSeeds(p, components, recipes) && Follows(p, components, recipes, components, recipes)
  }

  /** Nothing is listed that some closed pair can do without. */
  ghost predicate WithinEvery(p: Problem, components: set<string>, recipes: set<string>) {
    forall c, r :: ClosedPair(p, c, r) ==> components <= c && recipes <= r
  }

  /** All ids the worklist can meet: the bound of its termination. */
  ghost function Bound(p: Problem, into: bool): set<string> {
    Elements(p.Seeds(into))
    + (set x, id | x in p.catalogue && id in p.Named(false, into, x) :: id)
    + (set x, id | x in p.recipes && id in p.Named(true, into, x) :: id)
  }

  /** `addDependency` and `addRecipe`. */
  function Offer(p: Problem, into: bool, q: Queue, id: string): Queue {
    if !p.Admits(into, id) || id in q.seen then q
    else Queue(q.listed + [id], q.seen + {id}, q.pending + [id])
  }

  lemma OfferKeepsQueue(p: Problem, into: bool, q: Queue, id: string)
    requires ValidQueue(q)
    ensures var r := Offer(p, into, q, id);
      && ValidQueue(r) && Expanded(r) == Expanded(q) && q.listed <= r.listed
      && r.seen == q.seen + (if p.Admits(into, id) then {id} else {})
  {
    var r := Offer(p, into, q, id);
    var n := |q.listed| - |q.pending|;
    assert r.listed[..n] == q.listed[..n];
    assert q.listed == q.listed[..n] + q.pending;
  }

  /** `forEach(addDependency)` and `forEach(addRecipe)`: every admitted id becomes listed, new
      ones also become pending, and nothing else changes. */
  method OfferAll(p: Problem, into: bool, q: Queue, ids: seq<string>) returns (r: Queue)
    requires ValidQueue(q)
    ensures ValidQueue(r) && Expanded(r) == Expanded(q) && q.listed <= r.listed
    ensures r.seen == q.seen + set id | id in ids && p.Admits(into, id)
    ensures r.seen == q.seen ==> r == q
    ensures r.listed == Listed(p, into, q.listed, ids)
  {
    r := q;
    var i := 0;
    assert ids[..0] == [];
    while i < |ids|
      invariant 0 <= i <= |ids|
      invariant r.listed == Listed(p, into, q.listed, ids[..i])
      invariant ValidQueue(r) && Expanded(r) == Expanded(q) && q.listed <= r.listed
      invariant forall id :: id in r.seen <==> id in q.seen || OfferedBefore(p, into, ids, i, id)
      invariant r.seen == q.seen ==> r == q
    {
      OfferKeepsQueue(p, into, r, ids[i]);
      forall id { OfferedNext(p, into, ids, i, id); }
      assert ids[..i + 1][..i] == ids[..i];
      r := Offer(p, into, r, ids[i]);
      i := i + 1;
    }
    assert ids[..i] == ids;
  }

  /** What is listed after some ids were offered in order. */
  function Listed(p: Problem, into: bool, listed: seq<string>, ids: seq<string>): seq<string> {
    if ids == [] then listed
    else
      var before, last := Listed(p, into, listed, ids[..|ids| - 1]), ids[|ids| - 1];
      if !p.Admits(into, last) || last in before then before else before + [last]
  }

  /** The first of a list are exactly the admitted ids of another one, in the order of their first
      places. */
  ghost predicate LedBy(p: Problem, into: bool, listed: seq<string>, ids: seq<string>) {
    exists n :: LedByFirst(p, into, listed, ids, n)
  }

  ghost predicate LedByFirst(p: Problem, into: bool, listed: seq<string>, ids: seq<string>, n: int) {
    && 0 <= n <= |listed| && ByFirstPlace(listed[..n], ids)
    && forall id :: id in listed[..n] <==> id in ids && p.Admits(into, id)
  }

  lemma {:induction false} ListedIsLed(p: Problem, into: bool, ids: seq<string>)
    ensures var listed := Listed(p, into, [], ids); listed[..|listed|] == listed && LedByFirst(p, into, listed, ids, |listed|)
  {
    var listed := Listed(p, into, [], ids);
    assert listed[..|listed|] == listed;
    if ids != [] {
      var init, last := ids[..|ids| - 1], ids[|ids| - 1];
      var before := Listed(p, into, [], init);
      ListedIsLed(p, into, init);
      assert ids == init + [last];
      hide Listed, ByFirstPlace;
      assert before[..|before|] == before;
      assert forall id :: id in before <==> id in init && p.Admits(into, id);
      ByFirstPlaceNext(before, init, last);
    }
  }

  ghost predicate OfferedBefore(p: Problem, into: bool, ids: seq<string>, n: nat, id: string)
    requires n <= |ids|
  {
    id in ids[..n] && p.Admits(into, id)
  }

  lemma OfferedNext(p: Problem, into: bool, ids: seq<string>, n: nat, id: string)
    requires n < |ids|
    ensures OfferedBefore(p, into, ids, n + 1, id) <==>
      OfferedBefore(p, into, ids, n, id) || (id == ids[n] && p.Admits(into, id))
  {
    assert ids[..n + 1] == ids[..n] + [ids[n]];
  }

  /** Only admitted ids the worklist can meet are listed. */
  ghost predicate Listable(p: Problem, d: Queue, r: Queue) {
    && (forall id :: id in d.seen ==> id in Bound(p, false) && p.Admits(false, id))
    && (forall id :: id in r.seen ==> id in Bound(p, true) && p.Admits(true, id))
  }

  /** What the two queues satisfy between any two expansions. */
  ghost predicate Running(p: Problem, d: Queue, r: Queue) {
    && ValidQueue(d) && ValidQueue(r)
    && Listable(p, d, r)
    && HoldsSeeds(p, d.seen, r.seen)
    && Follows(p, Expanded(d), Expanded(r), d.seen, r.seen)
    && WithinEvery(p, d.seen, r.seen)
  }

  /** One pass of an inner loop: the first pending id is expanded. The source offers a
      component's requirements before its recipes and a recipe's recipes before its
      components; the queues are apart, so that order makes no difference. */
  method Expand(p: Problem, from: bool, d: Queue, r: Queue) returns (d': Queue, r': Queue)
    requires Running(p, d, r)
    requires (if from then r else d).pending != []
    ensures Running(p, d', r')
    ensures d.listed <= d'.listed && r.listed <= r'.listed
    ensures d'.seen == d.seen && r'.seen == r.seen ==>
      |d'.pending| == |d.pending| - (if from then 0 else 1) && |r'.pending| == |r.pending| - (if from then 1 else 0)
  {
    hide Listed, Running;
    RunningQueues(p, d, r);
    var source := if from then r else d;
    var id := source.pending[0];
    var popped := source.(pending := source.pending[1..]);
    PopExpands(source);
    d' := OfferAll(p, false, if from then d else popped, p.Edges(from, false, id));
    r' := OfferAll(p, true, if from then popped else r, p.Edges(from, true, id));
    ExpandKeeps(p, from, id, d, r, d', r');
  }

  lemma RunningQueues(p: Problem, d: Queue, r: Queue)
    requires Running(p, d, r)
    ensures ValidQueue(d) && ValidQueue(r)
  {
  }

  lemma ExpandKeeps(p: Problem, from: bool, id: string, d: Queue, r: Queue, d': Queue, r': Queue)
    requires Running(p, d, r) && ValidQueue(d') && ValidQueue(r')
    requires id in (if from then r else d).seen
    requires d'.seen == d.seen + p.Named(from, false, id)
    requires r'.seen == r.seen + p.Named(from, true, id)
    requires Expanded(d') == Expanded(d) + (if from then {} else {id})
    requires Expanded(r') == Expanded(r) + (if from then {id} else {})
    ensures Running(p, d', r')
  {
    assert Listable(p, d', r') by {
      assert id !in p.recipes && from ==> p.Named(from, false, id) == {} && p.Named(from, true, id) == {};
      assert id !in p.catalogue && !from ==> p.Named(from, false, id) == {} && p.Named(from, true, id) == {};
    }
    assert WithinEvery(p, d'.seen, r'.seen) by {
      forall c, w | ClosedPair(p, c, w) ensures d'.seen <= c && r'.seen <= w {
        assert d.seen <= c && r.seen <= w;
      }
    }
  }

  lemma PopExpands(q: Queue)
    requires ValidQueue(q) && q.pending != []
    ensures ValidQueue(q.(pending := q.pending[1..]))
    ensures Expanded(q.(pending := q.pending[1..])) == Expanded(q) + {q.pending[0]}
  {
    var n := |q.listed| - |q.pending|;
    assert q.listed[..n + 1] == q.listed[..n] + [q.pending[0]];
  }

  /** The two inner loops: each empties its own queue, and unless something new gets listed
      the other queue stays as it is. */
  method Drain(p: Problem, from: bool, d0: Queue, r0: Queue) returns (d: Queue, r: Queue)
    requires Running(p, d0, r0)
    ensures Running(p, d, r)
    ensures d0.seen <= d.seen && r0.seen <= r.seen
    ensures d0.listed <= d.listed && r0.listed <= r.listed
    ensures (if from then r else d).pending == []
    ensures d.seen == d0.seen && r.seen == r0.seen ==> |d.pending| <= |d0.pending| && |r.pending| <= |r0.pending|
  {
    d, r := d0, r0;
    while (if from then r else d).pending != []
      invariant Running(p, d, r) && d0.seen <= d.seen && r0.seen <= r.seen
      invariant d0.listed <= d.listed && r0.listed <= r.listed
      invariant d.seen == d0.seen && r.seen == r0.seen ==> |d.pending| <= |d0.pending| && |r.pending| <= |r0.pending|
      decreases Bound(p, false) - d.seen, Bound(p, true) - r.seen, |d.pending| + |r.pending|
    {
      ghost var d1, r1 := d, r;
      d, r := Expand(p, from, d, r);
      Grows(d1, d);
      Grows(r1, r);
    }
  }

  lemma Grows(a: Queue, b: Queue)
    requires ValidQueue(a) && ValidQueue(b) && a.listed <= b.listed
    ensures a.seen <= b.seen
  {
    forall x | x in a.seen ensures x in b.seen {
      var i :| 0 <= i < |a.listed| && a.listed[i] == x;
      assert b.listed[i] == x;
    }
  }

  /** One pass of the outer loop. A pass that lists nothing new leaves nothing pending. */
  method Round(p: Problem, d0: Queue, r0: Queue) returns (d: Queue, r: Queue)
    requires Running(p, d0, r0)
    ensures Running(p, d, r)
    ensures d0.seen <= d.seen && r0.seen <= r.seen
    ensures d0.listed <= d.listed && r0.listed <= r.listed
    ensures d.seen == d0.seen && r.seen == r0.seen ==> d.pending == [] && r.pending == []
  {
    var d1, r1 := Drain(p, false, d0, r0);
    d, r := Drain(p, true, d1, r1);
  }

  /** What a finished worklist has listed: the admitted seeds and everything they pull in,
      and nothing any closed pair could do without. */
  ghost predicate LeastClosedPair(p: Problem, requested: seq<string>, requestedRecipes: seq<string>) {
    && NoDuplicates(requested) && NoDuplicates(requestedRecipes)
    && (forall id :: id in requested ==> p.Admits(false, id))
    && (forall id :: id in requestedRecipes ==> p.Admits(true, id))
    && ClosedPair(p, Elements(requested), Elements(requestedRecipes))
    && WithinEvery(p, Elements(requested), Elements(requestedRecipes))
  }

  /** The closure: the least pair of sets that holds the admitted seeds and is closed under
      every kind of reference, each list without repetition and the seeds first in their order. */
  method Close(p: Problem) returns (requested: seq<string>, requestedRecipes: seq<string>)
    ensures LeastClosedPair(p, requested, requestedRecipes)
    ensures LedBy(p, false, requested, p.seeds) && LedBy(p, true, requestedRecipes, p.recipeSeeds)
  {
    var d := OfferAll(p, false, EMPTY, p.seeds);
    var r := OfferAll(p, true, EMPTY, p.recipeSeeds);
    StartRuns(p, d, r);
    hide Running, LedByFirst, Listed, Bound, LeastClosedPair, Expanded;
    ghost var first, firstRecipes := d.listed, r.listed;
    ListedIsLed(p, false, p.seeds);
    ListedIsLed(p, true, p.recipeSeeds);
    while d.pending != [] || r.pending != []
      invariant Running(p, d, r) && first <= d.listed && firstRecipes <= r.listed
      decreases Bound(p, false) - d.seen, Bound(p, true) - r.seen, |d.pending| + |r.pending|
    {
      ghost var d0, r0 := d, r;
      d, r := Round(p, d, r);
      StillBounded(p, d0, r0, d, r);
    }
    FinishedIsLeast(p, d, r);
    requested, requestedRecipes := d.listed, r.listed;
    LedLonger(p, false, first, requested, p.seeds);
    LedLonger(p, true, firstRecipes, requestedRecipes, p.recipeSeeds);
  }

  lemma LedLonger(p: Problem, into: bool, first: seq<string>, listed: seq<string>, ids: seq<string>)
    requires first <= listed && LedByFirst(p, into, first, ids, |first|)
    ensures LedBy(p, into, listed, ids)
  {
    assert listed[..|first|] == first == first[..|first|];
    assert LedByFirst(p, into, listed, ids, |first|);
  }

  lemma FinishedIsLeast(p: Problem, d: Queue, r: Queue)
    requires Running(p, d, r) && d.pending == [] && r.pending == []
    ensures LeastClosedPair(p, d.listed, r.listed)
  {
    AllExpanded(d);
    AllExpanded(r);
  }

  lemma StartRuns(p: Problem, d: Queue, r: Queue)
    requires ValidQueue(d) && ValidQueue(r) && Expanded(d) == {} && Expanded(r) == {}
    requires d.seen == {} + set id | id in p.seeds && p.Admits(false, id)
    requires r.seen == {} + set id | id in p.recipeSeeds && p.Admits(true, id)
    ensures Running(p, d, r)
  {
  }

  lemma StillBounded(p: Problem, d0: Queue, r0: Queue, d: Queue, r: Queue)
    requires Running(p, d, r) && d0.seen <= d.seen && r0.seen <= r.seen
    ensures Bound(p, false) - d.seen <= Bound(p, false) - d0.seen
    ensures d.seen != d0.seen ==> Bound(p, false) - d.seen < Bound(p, false) - d0.seen
    ensures Bound(p, true) - r.seen <= Bound(p, true) - r0.seen
    ensures r.seen != r0.seen ==> Bound(p, true) - r.seen < Bound(p, true) - r0.seen
  {
    Shrinks(Bound(p, false), d0.seen, d.seen);
    Shrinks(Bound(p, true), r0.seen, r.seen);
  }

  lemma Shrinks(bound: set<string>, a: set<string>, b: set<string>)
    requires a <= b <= bound
    ensures bound - b <= bound - a
    ensures a != b ==> bound - b < bound - a
  {
    if a != b {
      var x :| x in b && x !in a;
      assert x in bound - a && x !in bound - b;
    }
  }

  lemma AllExpanded(q: Queue)
    requires ValidQueue(q) && q.pending == []
    ensures Expanded(q) == q.seen == Elements(q.listed) && NoDuplicates(q.listed)
  {
    assert q.listed[..|q.listed|] == q.listed;
  }

  // ---------------------------------------------------------------- the closure against the order

  /** What the seeds pull in, disabled ids aside: the components that are in every closed pair. */
  ghost predicate PulledIn(p: Problem, id: string) {
    forall c, r :: ClosedPair(p, c, r) ==> id in c
  }

  /** No component that is pulled in requires a disabled one. */
  ghost predicate NoDisabledNeed(p: Problem) {
    forall x, need :: PulledIn(p, x) && need in DependencyOrder.Needs(p.catalogue, x) ==> need !in p.disabled
  }

  lemma RequestedIsPulledIn(p: Problem, requested: seq<string>, requestedRecipes: seq<string>)
    requires LeastClosedPair(p, requested, requestedRecipes)
    ensures forall id :: id in requested <==> PulledIn(p, id)
  {
    hide ClosedPair;
    forall id ensures id in requested <==> PulledIn(p, id) {
      assert id in requested <==> id in Elements(requested);
    }
  }

  /** The depth-first order of the requested components holds them all, and holds nothing else
      exactly when no component that is pulled in requires a disabled one: the order does not look
      at the disabled set, so such a component comes back. */
  lemma OrderAddsOnlyDisabledNeeds(p: Problem, requested: seq<string>, requestedRecipes: seq<string>)
    returns (ordered: seq<string>)
    requires LeastClosedPair(p, requested, requestedRecipes)
    ensures ordered == DependencyOrder.OrderOf(p.catalogue, requested)
    ensures Elements(requested) <= Elements(ordered)
    ensures Elements(ordered) == Elements(requested) <==> NoDisabledNeed(p)
    ensures p.disabled == {} ==> Elements(ordered) == Elements(requested)
  {
    hide DependencyOrder.OrderOf, DependencyOrder.NeedsFirst, NoDuplicates, LeastClosedPair, DependencyOrder.Reaches, PulledIn;
    ordered := DependencyOrder.OrderIsSound(p.catalogue, requested);
    forall x | x in requested ensures x in ordered {
      DependencyOrder.ReachesSelf(p.catalogue, x);
    }
    if NoDisabledNeed(p) {
      forall r, x | r in requested && DependencyOrder.Reaches(p.catalogue, r, x) ensures x in requested {
        ReachableStaysRequested(p, requested, requestedRecipes, r, x);
      }
    } else {
      var need := DisabledNeedComesBack(p, requested, requestedRecipes);
      assert need in ordered && need !in requested;
      assert need in Elements(ordered) && need !in Elements(requested);
    }
  }

  lemma DisabledNeedComesBack(p: Problem, requested: seq<string>, requestedRecipes: seq<string>)
    returns (need: string)
    requires LeastClosedPair(p, requested, requestedRecipes) && !NoDisabledNeed(p)
    ensures need in p.disabled && need !in requested
    ensures exists r :: r in requested && DependencyOrder.Reaches(p.catalogue, r, need)
  {
    RequestedIsPulledIn(p, requested, requestedRecipes);
    var x :| x in requested && exists n :: n in DependencyOrder.Needs(p.catalogue, x) && n in p.disabled;
    need :| need in DependencyOrder.Needs(p.catalogue, x) && need in p.disabled;
    DependencyOrder.ReachesSelf(p.catalogue, x);
    DependencyOrder.ReachesStep(p.catalogue, x, x, need);
  }

  lemma ReachableStaysRequested(p: Problem, requested: seq<string>, requestedRecipes: seq<string>, r: string, x: string)
    requires LeastClosedPair(p, requested, requestedRecipes) && NoDisabledNeed(p)
    requires r in requested && DependencyOrder.Reaches(p.catalogue, r, x)
    ensures x in requested
  {
    var path :| DependencyOrder.IsPath(p.catalogue, path) && path[0] == r && path[|path| - 1] == x;
    PathStaysRequested(p, requested, requestedRecipes, path, |path| - 1);
  }

  lemma {:induction false} PathStaysRequested(p: Problem, requested: seq<string>, requestedRecipes: seq<string>, path: seq<string>, n: nat)
    requires LeastClosedPair(p, requested, requestedRecipes) && NoDisabledNeed(p)
    requires DependencyOrder.IsPath(p.catalogue, path) && path[0] in requested && n < |path|
    ensures path[n] in requested
  {
    if n > 0 {
      PathStaysRequested(p, requested, requestedRecipes, path, n - 1);
      var x := path[n - 1];
      assert path[n] in DependencyOrder.Needs(p.catalogue, x);
      assert x in Elements(requested);
      RequestedIsPulledIn(p, requested, requestedRecipes);
      assert path[n] in p.Named(false, false, x);
    }
  }

  /** "a" is asked for, requires "b", and "b" is disabled. */
  function DisabledNeed(plain: Dependency): Problem {
    Problem(map["a" := plain.(needs := ["b"], recipes := [])], map[], {"b"}, ["a"], [])
  }

  lemma NoElements(s: seq<string>)
    ensures s != [] ==> Elements(s) != {}
  {
    if s != [] { assert s[0] in Elements(s); }
  }

  lemma TwoElements(s: seq<string>, x: string)
    requires NoDuplicates(s)
    ensures |s| > 1 ==> !(Elements(s) <= {x})
    ensures |s| == 1 ==> Elements(s) == {s[0]}
  {
    if |s| > 1 { assert s[0] in Elements(s) && s[1] in Elements(s) && s[0] != s[1]; }
  }

  /** Then "b" is ordered all the same. */
  lemma DisabledNeedIsOrdered(plain: Dependency, requested: seq<string>, requestedRecipes: seq<string>)
    requires LeastClosedPair(DisabledNeed(plain), requested, requestedRecipes)
    ensures requested == ["a"] && requestedRecipes == []
    ensures "b" in DisabledNeed(plain).disabled && "b" in DependencyOrder.OrderOf(DisabledNeed(plain).catalogue, requested)
  {
    var p := DisabledNeed(plain);
    assert "a" in p.seeds && p.Admits(false, "a");
    assert "a" in Elements(requested);
    assert p.Named(false, false, "a") == {} && p.Named(false, true, "a") == {};
    assert ClosedPair(p, {"a"}, {});
    assert Elements(requested) <= {"a"} && Elements(requestedRecipes) <= {};
    TwoElements(requested, "a");
    NoElements(requestedRecipes);
    assert "b" in DependencyOrder.Needs(p.catalogue, "a");
    DependencyOrder.ReachesSelf(p.catalogue, "a");
    DependencyOrder.ReachesStep(p.catalogue, "a", "a", "b");
    var ordered := DependencyOrder.OrderIsSound(p.catalogue, requested);
  }
}
