/** `resolve`: components ordered depth-first so that what a component requires comes before
    it, on catalogues that may contain cycles and ids the catalogue does not know. */
module DependencyOrder {
  import opened CompatModel

  function Needs(catalogue: Catalogue, id: string): seq<string> {
    if id in catalogue then catalogue[id].needs else []
  }

  ghost predicate IsPath(catalogue: Catalogue, path: seq<string>) {
    |path| > 0 && forall i :: 0 < i < |path| ==> path[i] in Needs(catalogue, path[i - 1])
  }

  /** `b` is `a` itself or is pulled in by `a` through any number of requires steps. */
  ghost predicate Reaches(catalogue: Catalogue, a: string, b: string) {
    exists path :: IsPath(catalogue, path) && path[0] == a && path[|path| - 1] == b
  }

  lemma ReachesSelf(catalogue: Catalogue, a: string)
    ensures Reaches(catalogue, a, a)
  {
    assert IsPath(catalogue, [a]) && [a][0] == a;
  }

  lemma ReachesStep(catalogue: Catalogue, a: string, b: string, c: string)
    requires Reaches(catalogue, a, b) && c in Needs(catalogue, b)
    ensures Reaches(catalogue, a, c)
  {
    var path :| IsPath(catalogue, path) && path[0] == a && path[|path| - 1] == b;
    var longer := path + [c];
    assert IsPath(catalogue, longer) && longer[0] == a && longer[|longer| - 1] == c;
  }

  lemma ReachesTransitive(catalogue: Catalogue, a: string, b: string, c: string)
    requires Reaches(catalogue, a, b) && Reaches(catalogue, b, c)
    ensures Reaches(catalogue, a, c)
  {
    var p :| IsPath(catalogue, p) && p[0] == a && p[|p| - 1] == b;
    var q :| IsPath(catalogue, q) && q[0] == b && q[|q| - 1] == c;
    var r := p + q[1..];
    assert r[|r| - 1] == c;
    forall i | 0 < i < |r| ensures r[i] in Needs(catalogue, r[i - 1]) {
      if i >= |p| { assert r[i] == q[i - |p| + 1] && r[i - 1] == q[i - |p|]; }
    }
    assert IsPath(catalogue, r) && r[0] == a;
  }

  /** Up to any place of the order, what a listed component requires stands before that place,
      unless it leads to the component there. */
  ghost predicate NeedsFirst(catalogue: Catalogue, ordered: seq<string>) {
    forall i, x, need :: 0 <= i < |ordered| && x in ordered[..i + 1] && need in Needs(catalogue, x) ==>
      need in ordered[..i] || Reaches(catalogue, need, ordered[i])
  }

  /** The requirements of every listed component are listed or still being visited. */
  ghost predicate ClosedUnder(catalogue: Catalogue, ordered: seq<string>, visiting: set<string>) {
    forall x, need :: x in ordered && need in Needs(catalogue, x) ==> need in ordered || need in visiting
  }

  /** What `ordered` and `visiting` satisfy between any two steps of the traversal. */
  ghost predicate Sound(catalogue: Catalogue, ordered: seq<string>, visiting: set<string>) {
    && NoDuplicates(ordered)
    && (forall x :: x in visiting ==> x !in ordered)
    && NeedsFirst(catalogue, ordered)
    && ClosedUnder(catalogue, ordered, visiting)
  }

  /** Every id the traversal can meet. */
  ghost predicate Universe(catalogue: Catalogue, all: set<string>) {
    forall x, need :: x in all && need in Needs(catalogue, x) ==> need in all
  }

  /** The components being visited are those whose requirements led to `id`. */
  ghost predicate LeadTo(catalogue: Catalogue, visiting: set<string>, id: string) {
    forall v :: v in visiting ==> Reaches(catalogue, v, id)
  }

  lemma LeadToStep(catalogue: Catalogue, visiting: set<string>, id: string, need: string)
    requires LeadTo(catalogue, visiting, id) && need in Needs(catalogue, id)
    ensures LeadTo(catalogue, visiting + {id}, need)
  {
    ReachesSelf(catalogue, id);
    forall v | v in visiting + {id} ensures Reaches(catalogue, v, need) {
      ReachesStep(catalogue, v, id, need);
    }
  }

  /** Listing a component once its requirements are listed or being visited keeps the order sound. */
  lemma AppendSound(catalogue: Catalogue, ordered: seq<string>, id: string, visiting: set<string>)
    requires Sound(catalogue, ordered, visiting + {id}) && id !in visiting
    requires LeadTo(catalogue, visiting, id)
    requires forall need :: need in Needs(catalogue, id) ==> need in ordered || need in visiting + {id}
    ensures Sound(catalogue, ordered + [id], visiting)
  {
    var longer := ordered + [id];
    ReachesSelf(catalogue, id);
    forall i, x, need | 0 <= i < |longer| && x in longer[..i + 1] && need in Needs(catalogue, x)
      ensures need in longer[..i] || Reaches(catalogue, need, longer[i])
    {
      if i < |ordered| {
        assert longer[..i] == ordered[..i] && longer[..i + 1] == ordered[..i + 1];
      } else {
        assert longer[..i] == ordered;
      }
    }
  }

  // ---------------------------------------------------------------- the traversal

  function AllIds(catalogue: Catalogue, requested: seq<string>): (all: set<string>)
    ensures Universe(catalogue, all)
    ensures forall x :: x in requested ==> x in all
  {
    Elements(requested) + set k, need | k in catalogue && need in catalogue[k].needs :: need
  }

  /** The post-order a depth-first visit of `ids` continues `ordered` with; `visiting` holds
      the components on the way from a root to here, `all` bounds them. */
  ghost function Visit(catalogue: Catalogue, all: set<string>, ids: seq<string>, ordered: seq<string>, visiting: set<string>): seq<string>
    requires Universe(catalogue, all) && forall x :: x in ids ==> x in all
    decreases all - visiting, |ids|
  {
    if ids == [] then ordered
    else if ids[0] in ordered || ids[0] in visiting then Visit(catalogue, all, ids[1..], ordered, visiting)
    else
      var inner := Visit(catalogue, all, Needs(catalogue, ids[0]), ordered, visiting + {ids[0]});
      Visit(catalogue, all, ids[1..], inner + [ids[0]], visiting)
  }

  /** The nested function `resolve`; `ordered` and `visiting` are the variables it captures. */
  method Resolve(catalogue: Catalogue, id: string, before: seq<string>, visiting: set<string>, ghost all: set<string>)
    returns (ordered: seq<string>)
    requires Universe(catalogue, all) && id in all
    requires forall v :: v in visiting ==> v !in before
    ensures ordered == Visit(catalogue, all, [id], before, visiting)
    decreases all - visiting
  {
    ordered := before;
    assert [id][1..] == [];
    if id in ordered || id in visiting { return; }
    var inside := visiting + {id};
    var needs := Needs(catalogue, id);
    assert all - inside < all - visiting;
    var i := 0;
    while i < |needs|
      invariant 0 <= i <= |needs|
      invariant forall v :: v in inside ==> v !in ordered
      invariant Visit(catalogue, all, needs[i..], ordered, inside) == Visit(catalogue, all, needs, before, inside)
    {
      VisitHead(catalogue, all, needs[i..], ordered, inside);
      VisitAvoids(catalogue, all, [needs[i]], ordered, inside);
      ordered := Resolve(catalogue, needs[i], ordered, inside, all);
      i := i + 1;
    }
    if id !in ordered { ordered := ordered + [id]; }
  }

  lemma VisitHead(catalogue: Catalogue, all: set<string>, ids: seq<string>, ordered: seq<string>, visiting: set<string>)
    requires Universe(catalogue, all) && ids != [] && forall x :: x in ids ==> x in all
    ensures Visit(catalogue, all, ids, ordered, visiting) ==
      Visit(catalogue, all, ids[1..], Visit(catalogue, all, [ids[0]], ordered, visiting), visiting)
  {
    assert [ids[0]][1..] == [];
  }

  /** What is being visited is not listed before its visit ends. */
  lemma {:induction false} VisitAvoids(catalogue: Catalogue, all: set<string>, ids: seq<string>, ordered: seq<string>, visiting: set<string>)
    requires Universe(catalogue, all) && forall x :: x in ids ==> x in all
    requires forall v :: v in visiting ==> v !in ordered
    ensures forall v :: v in visiting ==> v !in Visit(catalogue, all, ids, ordered, visiting)
    decreases all - visiting, |ids|
  {
    if ids != [] {
      if ids[0] in ordered || ids[0] in visiting {
        VisitAvoids(catalogue, all, ids[1..], ordered, visiting);
      } else {
        VisitAvoids(catalogue, all, Needs(catalogue, ids[0]), ordered, visiting + {ids[0]});
        var inner := Visit(catalogue, all, Needs(catalogue, ids[0]), ordered, visiting + {ids[0]});
        VisitAvoids(catalogue, all, ids[1..], inner + [ids[0]], visiting);
      }
    }
  }

  /** A visit keeps the order sound, lists every id it is given and adds only what they pull in. */
  lemma {:induction false} VisitSound(catalogue: Catalogue, all: set<string>, ids: seq<string>, before: seq<string>, visiting: set<string>)
    returns (ordered: seq<string>)
    requires Universe(catalogue, all) && forall x :: x in ids ==> x in all
    requires Sound(catalogue, before, visiting)
    requires forall id :: id in ids ==> LeadTo(catalogue, visiting, id)
    ensures ordered == Visit(catalogue, all, ids, before, visiting)
    ensures Sound(catalogue, ordered, visiting)
    ensures before <= ordered
    ensures forall id :: id in ids ==> id in ordered || id in visiting
    ensures forall x :: x in ordered && x !in before ==> exists id :: id in ids && Reaches(catalogue, id, x)
    decreases all - visiting, |ids|
  {
    if ids == [] { return before; }
    var id, rest := ids[0], ids[1..];
    if id in before || id in visiting {
      ordered := VisitSound(catalogue, all, rest, before, visiting);
    } else {
      var middle := VisitOne(catalogue, all, id, before, visiting);
      ordered := VisitSound(catalogue, all, rest, middle, visiting);
      assert forall k :: 0 <= k < |middle| ==> ordered[k] == middle[k];
    }
  }

  lemma {:induction false} VisitOne(catalogue: Catalogue, all: set<string>, id: string, before: seq<string>, visiting: set<string>)
    returns (ordered: seq<string>)
    requires Universe(catalogue, all) && id in all && id !in before && id !in visiting
    requires Sound(catalogue, before, visiting) && LeadTo(catalogue, visiting, id)
    ensures ordered == Visit(catalogue, all, Needs(catalogue, id), before, visiting + {id}) + [id]
    ensures Sound(catalogue, ordered, visiting)
    ensures before <= ordered
    ensures forall x :: x in ordered && x !in before ==> Reaches(catalogue, id, x)
    decreases all - visiting, 0
  {
    var needs := Needs(catalogue, id);
    forall need | need in needs ensures LeadTo(catalogue, visiting + {id}, need) {
      LeadToStep(catalogue, visiting, id, need);
    }
    ordered := VisitSound(catalogue, all, needs, before, visiting + {id});
    ReachesSelf(catalogue, id);
    forall x | x in ordered && x !in before ensures Reaches(catalogue, id, x) {
      var need :| need in needs && Reaches(catalogue, need, x);
      ReachesStep(catalogue, id, id, need);
      ReachesTransitive(catalogue, id, need, x);
    }
    AppendSound(catalogue, ordered, id, visiting);
    ordered := ordered + [id];
  }

  /** The order of a request. */
  ghost function OrderOf(catalogue: Catalogue, requested: seq<string>): seq<string> {
    Visit(catalogue, AllIds(catalogue, requested), requested, [], {})
  }

  /** `requested.forEach(resolve)`. */
  method Order(catalogue: Catalogue, requested: seq<string>) returns (ordered: seq<string>)
    ensures ordered == OrderOf(catalogue, requested)
  {
    ordered := [];
    ghost var all := AllIds(catalogue, requested);
    var i := 0;
    while i < |requested|
      invariant 0 <= i <= |requested|
      invariant Visit(catalogue, all, requested[i..], ordered, {}) == Visit(catalogue, all, requested, [], {})
    {
      VisitHead(catalogue, all, requested[i..], ordered, {});
      ordered := Resolve(catalogue, requested[i], ordered, {}, all);
      i := i + 1;
    }
  }

  // ---------------------------------------------------------------- what the order promises

  /** The order of a request: exactly the ids reachable from the requested ones, each once,
      and every direct requirement first unless a cycle leads back from it. */
  lemma OrderIsSound(catalogue: Catalogue, requested: seq<string>) returns (ordered: seq<string>)
    ensures ordered == OrderOf(catalogue, requested)
    ensures NoDuplicates(ordered)
    ensures forall x :: x in ordered <==> exists r :: r in requested && Reaches(catalogue, r, x)
    ensures NeedsFirst(catalogue, ordered)
    ensures forall i, need :: 0 <= i < |ordered| && need in Needs(catalogue, ordered[i]) ==>
      need in ordered[..i] || Reaches(catalogue, need, ordered[i])
  {
    ordered := VisitSound(catalogue, AllIds(catalogue, requested), requested, [], {});
    forall r, x | r in requested && Reaches(catalogue, r, x) ensures x in ordered {
      ClosedHoldsReachable(catalogue, ordered, r, x);
    }
    forall i, need | 0 <= i < |ordered| && need in Needs(catalogue, ordered[i])
      ensures need in ordered[..i] || Reaches(catalogue, need, ordered[i])
    {
      assert ordered[i] == ordered[..i + 1][i];
    }
  }

  lemma {:induction false} ClosedHoldsPath(catalogue: Catalogue, ordered: seq<string>, path: seq<string>, n: nat)
    requires ClosedUnder(catalogue, ordered, {})
    requires IsPath(catalogue, path) && path[0] in ordered && n < |path|
    ensures path[n] in ordered
  {
    if n > 0 {
      ClosedHoldsPath(catalogue, ordered, path, n - 1);
      assert path[n] in Needs(catalogue, path[n - 1]);
    }
  }

  lemma ClosedHoldsReachable(catalogue: Catalogue, ordered: seq<string>, a: string, b: string)
    requires ClosedUnder(catalogue, ordered, {}) && a in ordered && Reaches(catalogue, a, b)
    ensures b in ordered
  {
    var path :| IsPath(catalogue, path) && path[0] == a && path[|path| - 1] == b;
    ClosedHoldsPath(catalogue, ordered, path, |path| - 1);
  }

  /** In the order of every request that lists `a`, everything `need` pulls in stands before it. */
  ghost predicate AlwaysBefore(catalogue: Catalogue, a: string, need: string) {
    forall requested, i, b :: 0 <= i < |OrderOf(catalogue, requested)| && OrderOf(catalogue, requested)[i] == a && Reaches(catalogue, need, b)
      ==> b in OrderOf(catalogue, requested)[..i]
  }

  /** A path that never leads back to the component at `i` stays before it. */
  lemma {:induction false} PathStaysBefore(catalogue: Catalogue, ordered: seq<string>, i: nat, path: seq<string>, n: nat)
    requires NeedsFirst(catalogue, ordered) && i < |ordered|
    requires IsPath(catalogue, path) && path[0] in Needs(catalogue, ordered[i]) && !Reaches(catalogue, path[0], ordered[i])
    requires n < |path|
    ensures path[n] in ordered[..i]
  {
    hide Reaches, Needs;
    var from := if n == 0 then ordered[i] else path[n - 1];
    if n > 0 { PathStaysBefore(catalogue, ordered, i, path, n - 1); }
    assert from in ordered[..i + 1] by { assert ordered[..i + 1] == ordered[..i] + [ordered[i]]; }
    assert path[n] in Needs(catalogue, from);
    PathReaches(catalogue, path, n);
    if Reaches(catalogue, path[n], ordered[i]) { ReachesTransitive(catalogue, path[0], path[n], ordered[i]); }
  }

  lemma PathReaches(catalogue: Catalogue, path: seq<string>, n: nat)
    requires IsPath(catalogue, path) && n < |path|
    ensures Reaches(catalogue, path[0], path[n])
  {
    var part := path[..n + 1];
    assert IsPath(catalogue, part) && part[0] == path[0] && part[|part| - 1] == path[n];
  }

  /** A request for one component ends with it. */
  lemma RequestedComesLast(catalogue: Catalogue, id: string)
    ensures var ordered := OrderOf(catalogue, [id]); ordered != [] && ordered[|ordered| - 1] == id && id !in ordered[..|ordered| - 1]
  {
    var all := AllIds(catalogue, [id]);
    assert [id][0] in all && [id][1..] == [] && {} + {id} == {id};
    VisitAvoids(catalogue, all, Needs(catalogue, id), [], {id});
    var inner := Visit(catalogue, all, Needs(catalogue, id), [], {id});
    assert Visit(catalogue, all, [], inner + [id], {}) == inner + [id];
    assert Visit(catalogue, all, [id], [], {}) == inner + [id];
  }

  /** A requirement and everything it pulls in, however indirectly, come before the component that
      requires it in the order of every request, exactly when the requirement does not lead back to
      that component. Cycles elsewhere make no difference. */
  lemma NeedComesFirst(catalogue: Catalogue, a: string, need: string)
    requires need in Needs(catalogue, a)
    ensures AlwaysBefore(catalogue, a, need) <==> !Reaches(catalogue, need, a)
  {
    hide Visit, NoDuplicates, AllIds;
    if Reaches(catalogue, need, a) {
      var ordered := OrderIsSound(catalogue, [need]);
      RequestedComesLast(catalogue, need);
      ReachesSelf(catalogue, need);
      assert need in [need];
      assert a in ordered;
      var i :| 0 <= i < |ordered| && ordered[i] == a;
      var n := |ordered| - 1;
      assert need !in ordered[..i] by { assert ordered[..i] == ordered[..n][..i]; }
    } else {
      forall requested, i, b | 0 <= i < |OrderOf(catalogue, requested)| && OrderOf(catalogue, requested)[i] == a && Reaches(catalogue, need, b)
        ensures b in OrderOf(catalogue, requested)[..i]
      {
        var ordered := OrderIsSound(catalogue, requested);
        var path :| IsPath(catalogue, path) && path[0] == need && path[|path| - 1] == b;
        PathStaysBefore(catalogue, ordered, i, path, |path| - 1);
      }
    }
  }

  /** So the order is topological at a component, whatever is requested, exactly when the component
      is on no cycle. */
  lemma EverythingComesFirst(catalogue: Catalogue, a: string)
    ensures (forall need :: need in Needs(catalogue, a) ==> AlwaysBefore(catalogue, a, need))
      <==> forall need :: need in Needs(catalogue, a) ==> !Reaches(catalogue, need, a)
  {
    hide AlwaysBefore, Reaches;
    forall need | need in Needs(catalogue, a) { NeedComesFirst(catalogue, a, need); }
  }

  /** "a" pulls in "b" only through "c", and "a" and "c" form a cycle. */
  function Knot(plain: Dependency): Catalogue {
    map["a" := plain.(needs := ["c"]), "b" := plain.(needs := []), "c" := plain.(needs := ["a", "b"])]
  }

  lemma KnotVisit(plain: Dependency)
    ensures OrderOf(Knot(plain), ["c"]) == ["a", "b", "c"]
  {
    var catalogue, all := Knot(plain), AllIds(Knot(plain), ["c"]);
    assert Needs(catalogue, "a") == ["c"] && Needs(catalogue, "b") == [] && Needs(catalogue, "c") == ["a", "b"];
    assert ["c"][1..] == [] && ["a", "b"][1..] == ["b"] && ["b"][1..] == [];
    var atA := Visit(catalogue, all, ["c"], [], {"c"} + {"a"});
    assert atA == Visit(catalogue, all, [], [], {"c"} + {"a"}) == [];
    assert Visit(catalogue, all, ["b"], ["a"], {"c"}) == ["a", "b"];
    assert {} + {"c"} == {"c"};
    assert Visit(catalogue, all, ["b"], ["a"], {"c"}) + ["c"] == ["a", "b", "c"];
    var atC := Visit(catalogue, all, ["a", "b"], [], {} + {"c"});
    assert atC == Visit(catalogue, all, ["b"], atA + ["a"], {"c"});
    assert Visit(catalogue, all, ["c"], [], {}) == Visit(catalogue, all, [], atC + ["c"], {}) == ["a", "b", "c"];
  }

  /** With a cycle only direct requirements come first: here "a" pulls in "b", "b" does not
      pull in "a", and "a" is listed before "b". */
  lemma IndirectNeedMayComeLater(plain: Dependency)
    ensures OrderOf(Knot(plain), ["c"]) == ["a", "b", "c"]
    ensures Reaches(Knot(plain), "a", "b") && !Reaches(Knot(plain), "b", "a")
  {
    var catalogue := Knot(plain);
    KnotVisit(plain);
    ReachesSelf(catalogue, "a");
    ReachesStep(catalogue, "a", "a", "c");
    ReachesStep(catalogue, "a", "c", "b");
    forall path | IsPath(catalogue, path) && path[0] == "b" ensures path[|path| - 1] == "b" {
      var first, second := path[0], if |path| > 1 then path[1] else path[0];
      assert |path| == 1 || second in Needs(catalogue, first);
    }
  }
}
