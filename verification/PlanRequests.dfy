/** What a launch asks for and what its layers are, told by the fields of the launch, the catalogue
    and the recipes alone. */
module PlanRequests {
  import opened Text
  import opened CompatModel
  import DependencyClosure
  import DependencyOrder
  import opened PlanLayers
  import opened GamePlan

  // ---------------------------------------------------------------- the attempt in force

  /** The fallback that is in force: that of the first profile whose list is long enough. */
  ghost predicate FallbackInForce(launch: Launch, alternative: int, a: Attempt) {
    alternative > 0 && exists i :: 0 <= i < |launch.matched| && IsFallback(launch.matched, i, alternative, a)
  }

  predicate IsFallback(games: seq<Profile>, i: nat, alternative: int, a: Attempt)
    requires i < |games| && alternative > 0
  {
    && |games[i].fallbacks| >= alternative && a == games[i].fallbacks[alternative - 1]
    && forall j :: 0 <= j < i ==> |games[j].fallbacks| < alternative
  }

  /** The remedy that is in force: counted from behind the longest list of fallbacks. */
  ghost predicate RemedyInForce(launch: Launch, alternative: int, a: Attempt) {
    exists longest: nat :: IsLongest(launch.matched, longest) && 0 < alternative - longest <= |launch.remedies|
      && a == launch.remedies[alternative - longest - 1]
  }

  ghost predicate IsLongest(games: seq<Profile>, longest: nat) {
    && (forall i :: 0 <= i < |games| ==> |games[i].fallbacks| <= longest)
    && (longest == 0 || exists i :: 0 <= i < |games| && |games[i].fallbacks| == longest)
  }

  lemma {:induction false} FallbackIs(games: seq<Profile>, alternative: int, a: Attempt)
    requires alternative > 0
    ensures FallbackAt(games, alternative) == Some(a) <==> exists i :: 0 <= i < |games| && IsFallback(games, i, alternative, a)
  {
    if games != [] {
      var rest := games[1..];
      FallbackIs(rest, alternative, a);
      if |games[0].fallbacks| >= alternative {
        if FallbackAt(games, alternative) == Some(a) { assert IsFallback(games, 0, alternative, a); }
      } else {
        forall i | 0 <= i < |rest| ensures IsFallback(rest, i, alternative, a) <==> IsFallback(games, i + 1, alternative, a) {
          if IsFallback(rest, i, alternative, a) {
            forall j | 0 <= j < i + 1 ensures |games[j].fallbacks| < alternative { if j > 0 { assert games[j] == rest[j - 1]; } }
          }
          if IsFallback(games, i + 1, alternative, a) {
            forall j | 0 <= j < i ensures |rest[j].fallbacks| < alternative { assert rest[j] == games[j + 1]; }
          }
        }
        if exists i :: 0 <= i < |games| && IsFallback(games, i, alternative, a) {
          var i :| 0 <= i < |games| && IsFallback(games, i, alternative, a);
          assert IsFallback(rest, i - 1, alternative, a);
        }
      }
    }
  }

  lemma {:induction false} MostIsLongest(games: seq<Profile>, longest: nat)
    ensures IsLongest(games, longest) <==> longest == MostFallbacks(games)
  {
    if games != [] {
      var rest, most := games[1..], MostFallbacks(games[1..]);
      MostIsLongest(rest, most);
      assert IsLongest(games, MostFallbacks(games)) by {
        assert forall i :: 0 < i < |games| ==> games[i] == rest[i - 1];
        if |games[0].fallbacks| > most {
          assert |games[0].fallbacks| == MostFallbacks(games);
        } else if most > 0 {
          var i :| 0 <= i < |rest| && |rest[i].fallbacks| == most;
          assert |games[i + 1].fallbacks| == most;
        }
      }
      OneLongest(games, longest, MostFallbacks(games));
    }
  }

  lemma OneLongest(games: seq<Profile>, a: nat, b: nat)
    requires IsLongest(games, b)
    ensures IsLongest(games, a) ==> a == b
  {
  }

  lemma AttemptsAre(launch: Launch, alternative: int, a: Attempt)
    ensures Fallback(launch, alternative) == Some(a) <==> FallbackInForce(launch, alternative, a)
    ensures Remedy(launch, alternative) == Some(a) <==> RemedyInForce(launch, alternative, a)
  {
    hide IsFallback, IsLongest;
    if alternative > 0 { FallbackIs(launch.matched, alternative, a); }
    forall longest: nat { MostIsLongest(launch.matched, longest); }
    assert IsLongest(launch.matched, MostFallbacks(launch.matched));
  }

  // ---------------------------------------------------------------- what is named

  /** Some part of the launch names the component. */
  ghost predicate NamesComponent(launch: Launch, alternative: int, id: string) {
    || (exists i :: 0 <= i < |launch.matched| && id in launch.matched[i].dependencies)
    || (launch.baseline.Some? && id in launch.baseline.value.dependencies)
    || (exists i :: 0 <= i < |launch.rules| && id in launch.rules[i].dependencies)
    || (exists a :: RemedyInForce(launch, alternative, a) && id in a.dependencies)
    || (exists a :: FallbackInForce(launch, alternative, a) && id in a.dependencies)
    || (launch.overrides.Some? && id in launch.overrides.value.extra)
    || id in launch.imported
  }

  ghost predicate NamesRecipe(launch: Launch, alternative: int, id: string) {
    || (exists i :: 0 <= i < |launch.matched| && id in launch.matched[i].recipes)
    || (launch.baseline.Some? && id in launch.baseline.value.recipes)
    || (exists i :: 0 <= i < |launch.rules| && id in launch.rules[i].recipes)
    || (exists a :: RemedyInForce(launch, alternative, a) && id in a.recipes)
    || (exists a :: FallbackInForce(launch, alternative, a) && id in a.recipes)
  }

  /** Some list in force names it as disabled. */
  ghost predicate IsDisabled(launch: Launch, alternative: int, id: string) {
    || (launch.overrides.Some? && id in launch.overrides.value.disabled)
    || (exists a :: FallbackInForce(launch, alternative, a) && id in a.disable)
    || (exists a :: RemedyInForce(launch, alternative, a) && id in a.disable)
  }

  /** A component, or a recipe. */
  datatype Node = Component(id: string) | Fix(id: string)

  /** May take part: not disabled, and a recipe has to be in the table. */
  ghost predicate Allowed(table: RecipeTable, launch: Launch, alternative: int, n: Node) {
    !IsDisabled(launch, alternative, n.id) && (n.Fix? ==> n.id in table)
  }

  ghost predicate Named(launch: Launch, alternative: int, n: Node) {
    if n.Fix? then NamesRecipe(launch, alternative, n.id) else NamesComponent(launch, alternative, n.id)
  }

  /** The entry of the first names the second. */
  predicate Pulls(catalogue: Catalogue, table: RecipeTable, a: Node, b: Node) {
    match (a, b)
    case (Component(x), Component(y)) => x in catalogue && y in catalogue[x].needs
    case (Component(x), Fix(y)) => x in catalogue && y in catalogue[x].recipes
    case (Fix(x), Fix(y)) => x in table && y in table[x].needs
    case (Fix(x), Component(y)) => x in table && y in table[x].dependencies
  }

  /** A chain from something the launch names, over what may take part. */
  ghost predicate IsChain(catalogue: Catalogue, table: RecipeTable, launch: Launch, alternative: int, chain: seq<Node>) {
    && chain != [] && Named(launch, alternative, chain[0])
    && (forall i :: 0 <= i < |chain| ==> Allowed(table, launch, alternative, chain[i]))
    && (forall i :: 0 < i < |chain| ==> Pulls(catalogue, table, chain[i - 1], chain[i]))
  }

  ghost predicate AskedFor(catalogue: Catalogue, table: RecipeTable, launch: Launch, alternative: int, n: Node) {
    exists chain :: IsChain(catalogue, table, launch, alternative, chain) && chain[|chain| - 1] == n
  }

  // ---------------------------------------------------------------- the seeds are what is named

  lemma {:induction false} ProfileSeedsAre(games: seq<Profile>, recipes: bool, id: string)
    ensures id in ProfileSeeds(games, recipes) <==> exists i :: 0 <= i < |games| && id in (if recipes then games[i].recipes else games[i].dependencies)
  {
    if games != [] {
      ProfileSeedsAre(games[1..], recipes, id);
      assert games == [games[0]] + games[1..];
      forall i | 0 <= i < |games[1..]| ensures games[1..][i] == games[i + 1] {}
      if exists i :: 0 <= i < |games[1..]| && id in (if recipes then games[1..][i].recipes else games[1..][i].dependencies) {
        var i :| 0 <= i < |games[1..]| && id in (if recipes then games[1..][i].recipes else games[1..][i].dependencies);
        assert id in (if recipes then games[i + 1].recipes else games[i + 1].dependencies);
      }
      if i: nat :| i < |games| && id in (if recipes then games[i].recipes else games[i].dependencies) {
        if i > 0 { assert games[1..][i - 1] == games[i]; }
      }
    }
  }

  lemma {:induction false} RuleSeedsAre(rules: seq<Rule>, recipes: bool, id: string)
    ensures id in RuleSeeds(rules, recipes) <==> exists i :: 0 <= i < |rules| && id in (if recipes then rules[i].recipes else rules[i].dependencies)
  {
    if rules != [] {
      RuleSeedsAre(rules[1..], recipes, id);
      assert rules == [rules[0]] + rules[1..];
      if exists i :: 0 <= i < |rules[1..]| && id in (if recipes then rules[1..][i].recipes else rules[1..][i].dependencies) {
        var i :| 0 <= i < |rules[1..]| && id in (if recipes then rules[1..][i].recipes else rules[1..][i].dependencies);
        assert id in (if recipes then rules[i + 1].recipes else rules[i + 1].dependencies);
      }
      if i: nat :| i < |rules| && id in (if recipes then rules[i].recipes else rules[i].dependencies) {
        if i > 0 { assert rules[1..][i - 1] == rules[i]; }
      }
    }
  }

  lemma AttemptSeedsAre(launch: Launch, alternative: int, recipes: bool, id: string)
    ensures id in AttemptSeeds(Fallback(launch, alternative), recipes)
      <==> exists a :: FallbackInForce(launch, alternative, a) && id in (if recipes then a.recipes else a.dependencies)
    ensures id in AttemptSeeds(Remedy(launch, alternative), recipes)
      <==> exists a :: RemedyInForce(launch, alternative, a) && id in (if recipes then a.recipes else a.dependencies)
  {
    hide FallbackInForce, RemedyInForce, Fallback, Remedy;
    forall a { AttemptsAre(launch, alternative, a); }
  }

  lemma BaselineSeedsAre(baseline: Option<Profile>, recipes: bool, id: string)
    ensures id in ProfileSeeds(if baseline.Some? then [baseline.value] else [], recipes)
      <==> baseline.Some? && id in (if recipes then baseline.value.recipes else baseline.value.dependencies)
  {
    ProfileSeedsAre(if baseline.Some? then [baseline.value] else [], recipes, id);
  }

  lemma SeedsAreNamed(launch: Launch, alternative: int, id: string)
    ensures id in Seeds(launch, alternative, false) <==> NamesComponent(launch, alternative, id)
    ensures id in Seeds(launch, alternative, true) <==> NamesRecipe(launch, alternative, id)
  {
    hide ProfileSeeds, RuleSeeds, AttemptSeeds, FallbackInForce, RemedyInForce, Fallback, Remedy;
    ProfileSeedsAre(launch.matched, false, id);
    ProfileSeedsAre(launch.matched, true, id);
    BaselineSeedsAre(launch.baseline, false, id);
    BaselineSeedsAre(launch.baseline, true, id);
    RuleSeedsAre(launch.rules, false, id);
    RuleSeedsAre(launch.rules, true, id);
    AttemptSeedsAre(launch, alternative, false, id);
    AttemptSeedsAre(launch, alternative, true, id);
  }

  lemma DisabledAre(launch: Launch, alternative: int, id: string)
    ensures id in Disabled(launch, alternative) <==> IsDisabled(launch, alternative, id)
  {
    hide FallbackInForce, RemedyInForce, Fallback, Remedy;
    forall a { AttemptsAre(launch, alternative, a); }
  }

  // ---------------------------------------------------------------- the closure is what the chains reach

  ghost predicate Admitted(p: DependencyClosure.Problem, n: Node) { p.Admits(n.Fix?, n.id) }

  lemma AdmittedAre(catalogue: Catalogue, table: RecipeTable, launch: Launch, alternative: int, n: Node)
    ensures Admitted(ProblemOf(catalogue, table, launch, alternative), n) <==> Allowed(table, launch, alternative, n)
  {
    hide Disabled, IsDisabled;
    DisabledAre(launch, alternative, n.id);
  }

  lemma EdgesAre(p: DependencyClosure.Problem, a: Node, b: Node)
    ensures b.id in p.Edges(a.Fix?, b.Fix?, a.id) <==> Pulls(p.catalogue, p.recipes, a, b)
  {
  }

  lemma {:induction false} ChainIsRequested(catalogue: Catalogue, table: RecipeTable, launch: Launch, alternative: int,
      requested: seq<string>, recipes: seq<string>, chain: seq<Node>, i: nat)
    requires DependencyClosure.LeastClosedPair(ProblemOf(catalogue, table, launch, alternative), requested, recipes)
    requires IsChain(catalogue, table, launch, alternative, chain) && i < |chain|
    ensures chain[i].id in (if chain[i].Fix? then recipes else requested)
  {
    hide Seeds, Disabled, IsDisabled, NamesComponent, NamesRecipe, NoDuplicates, DependencyClosure.WithinEvery, Pulls, Allowed;
    var p := ProblemOf(catalogue, table, launch, alternative);
    AdmittedAre(catalogue, table, launch, alternative, chain[i]);
    if i == 0 {
      SeedsAreNamed(launch, alternative, chain[0].id);
      assert Allowed(table, launch, alternative, chain[0]);
    } else {
      ChainIsRequested(catalogue, table, launch, alternative, requested, recipes, chain, i - 1);
      var a, b := chain[i - 1], chain[i];
      EdgesAre(p, a, b);
      assert Pulls(catalogue, table, a, b) && Allowed(table, launch, alternative, b);
      assert a.id in Elements(if a.Fix? then recipes else requested);
      assert b.id in p.Named(a.Fix?, b.Fix?, a.id);
    }
    assert chain[i].id in Elements(if chain[i].Fix? then recipes else requested);
  }

  ghost function AskedIds(p: DependencyClosure.Problem, catalogue: Catalogue, table: RecipeTable, launch: Launch, alternative: int, fix: bool): set<string> {
    set id | id in DependencyClosure.Bound(p, fix) && AskedFor(catalogue, table, launch, alternative, if fix then Fix(id) else Component(id))
  }

  lemma ChainStart(catalogue: Catalogue, table: RecipeTable, launch: Launch, alternative: int, n: Node)
    requires Named(launch, alternative, n) && Allowed(table, launch, alternative, n)
    ensures AskedFor(catalogue, table, launch, alternative, n)
  {
    hide Named, Allowed;
    assert IsChain(catalogue, table, launch, alternative, [n]);
  }

  lemma ChainStep(catalogue: Catalogue, table: RecipeTable, launch: Launch, alternative: int, a: Node, b: Node)
    requires AskedFor(catalogue, table, launch, alternative, a) && Pulls(catalogue, table, a, b) && Allowed(table, launch, alternative, b)
    ensures AskedFor(catalogue, table, launch, alternative, b)
  {
    hide Named, Allowed, Pulls;
    var chain :| IsChain(catalogue, table, launch, alternative, chain) && chain[|chain| - 1] == a;
    var longer := chain + [b];
    assert longer[0] == chain[0] && longer[|chain| - 1] == a && longer[|chain|] == b;
    assert forall i :: 0 <= i < |chain| ==> longer[i] == chain[i];
    assert IsChain(catalogue, table, launch, alternative, longer);
  }

  /** What the chains reach is a closed pair. */
  lemma AskedIsClosed(catalogue: Catalogue, table: RecipeTable, launch: Launch, alternative: int)
    ensures var p := ProblemOf(catalogue, table, launch, alternative);
      DependencyClosure.ClosedPair(p, AskedIds(p, catalogue, table, launch, alternative, false), AskedIds(p, catalogue, table, launch, alternative, true))
  {
    hide Seeds, Disabled, AskedFor, Pulls, Allowed, NamesComponent, NamesRecipe;
    var p := ProblemOf(catalogue, table, launch, alternative);
    forall id, fix: bool | id in p.Seeds(fix) && p.Admits(fix, id) ensures id in AskedIds(p, catalogue, table, launch, alternative, fix) {
      var n := if fix then Fix(id) else Component(id);
      SeedsAreNamed(launch, alternative, id);
      AdmittedAre(catalogue, table, launch, alternative, n);
      ChainStart(catalogue, table, launch, alternative, n);
    }
    forall x, from: bool, into: bool, id | x in AskedIds(p, catalogue, table, launch, alternative, from) && id in p.Named(from, into, x)
      ensures id in AskedIds(p, catalogue, table, launch, alternative, into)
    {
      var a, b := if from then Fix(x) else Component(x), if into then Fix(id) else Component(id);
      EdgesAre(p, a, b);
      AdmittedAre(catalogue, table, launch, alternative, b);
      ChainStep(catalogue, table, launch, alternative, a, b);
      InBound(p, from, into, x, id);
    }
  }

  lemma InBound(p: DependencyClosure.Problem, from: bool, into: bool, x: string, id: string)
    requires id in p.Named(from, into, x)
    ensures id in DependencyClosure.Bound(p, into)
  {
    assert if from then x in p.recipes else x in p.catalogue;
  }

  /** A plan asks for exactly what the launch names and what that leads to: every component and recipe
      that a matched profile, the baseline, a rule, the remedy or fallback in force, the user or the
      imports name and no list in force disables, and what their entries name in turn. */
  lemma PlanAsksForWhatIsNamed(catalogue: Catalogue, table: RecipeTable, launch: Launch, alternative: int, plan: Plan, t: Trace)
    requires Explains(catalogue, table, launch, alternative, plan, t)
    ensures forall id :: id in t.requested <==> AskedFor(catalogue, table, launch, alternative, Component(id))
    ensures forall id :: id in plan.recipes <==> AskedFor(catalogue, table, launch, alternative, Fix(id))
    ensures forall id :: NamesComponent(launch, alternative, id) && !IsDisabled(launch, alternative, id) ==> id in t.requested
    ensures forall id :: NamesRecipe(launch, alternative, id) && !IsDisabled(launch, alternative, id) && id in table ==> id in plan.recipes
  {
    hide FromLayers, Seeds, Disabled, Named, Allowed, IsDisabled, NamesComponent, NamesRecipe, DependencyClosure.ClosedPair;
    var p := ProblemOf(catalogue, table, launch, alternative);
    assert DependencyClosure.LeastClosedPair(p, t.requested, plan.recipes);
    AskedIsClosed(catalogue, table, launch, alternative);
    forall n: Node ensures n.id in (if n.Fix? then plan.recipes else t.requested) <==> AskedFor(catalogue, table, launch, alternative, n) {
      if AskedFor(catalogue, table, launch, alternative, n) {
        var chain :| IsChain(catalogue, table, launch, alternative, chain) && chain[|chain| - 1] == n;
        ChainIsRequested(catalogue, table, launch, alternative, t.requested, plan.recipes, chain, |chain| - 1);
      }
      if n.id in (if n.Fix? then plan.recipes else t.requested) {
        assert n.id in Elements(if n.Fix? then plan.recipes else t.requested);
        assert n.id in AskedIds(p, catalogue, table, launch, alternative, n.Fix?);
      }
    }
    forall id { NamedIsAskedFor(catalogue, table, launch, alternative, id); }
    assert forall id :: id in t.requested <==> AskedFor(catalogue, table, launch, alternative, Component(id));
    assert forall id :: id in plan.recipes <==> AskedFor(catalogue, table, launch, alternative, Fix(id));
  }

  lemma NamedIsAskedFor(catalogue: Catalogue, table: RecipeTable, launch: Launch, alternative: int, id: string)
    ensures NamesComponent(launch, alternative, id) && !IsDisabled(launch, alternative, id) ==> AskedFor(catalogue, table, launch, alternative, Component(id))
    ensures NamesRecipe(launch, alternative, id) && !IsDisabled(launch, alternative, id) && id in table ==> AskedFor(catalogue, table, launch, alternative, Fix(id))
  {
    hide NamesComponent, NamesRecipe, IsDisabled, AskedFor;
    if NamesComponent(launch, alternative, id) && !IsDisabled(launch, alternative, id) { ChainStart(catalogue, table, launch, alternative, Component(id)); }
    if NamesRecipe(launch, alternative, id) && !IsDisabled(launch, alternative, id) && id in table { ChainStart(catalogue, table, launch, alternative, Fix(id)); }
  }

  // ---------------------------------------------------------------- in which order

  function Flat(lists: seq<seq<string>>): seq<string> { if lists == [] then [] else lists[0] + Flat(lists[1..]) }

  function ProfileLists(games: seq<Profile>, recipes: bool): (r: seq<seq<string>>)
    ensures |r| == |games| && forall i :: 0 <= i < |r| ==> r[i] == if recipes then games[i].recipes else games[i].dependencies
  {
    seq(|games|, i requires 0 <= i < |games| => if recipes then games[i].recipes else games[i].dependencies)
  }

  function RuleLists(rules: seq<Rule>, recipes: bool): (r: seq<seq<string>>)
    ensures |r| == |rules| && forall i :: 0 <= i < |r| ==> r[i] == if recipes then rules[i].recipes else rules[i].dependencies
  {
    seq(|rules|, i requires 0 <= i < |rules| => if recipes then rules[i].recipes else rules[i].dependencies)
  }

  function AttemptLists(a: Option<Attempt>, recipes: bool): seq<seq<string>> {
    if a.None? then [] else if recipes then [a.value.recipes] else [a.value.dependencies]
  }

  /** The lists that name components, or recipes, in the order in which they are gone through. */
  function NamedLists(launch: Launch, alternative: int, recipes: bool): seq<seq<string>> {
    ProfileLists(launch.matched, recipes) + ProfileLists(if launch.baseline.Some? then [launch.baseline.value] else [], recipes)
    + RuleLists(launch.rules, recipes) + AttemptLists(Remedy(launch, alternative), recipes) + AttemptLists(Fallback(launch, alternative), recipes)
    + if recipes then [] else (if launch.overrides.Some? then [launch.overrides.value.extra] else []) + [launch.imported]
  }

  lemma {:induction false} FlatConcat(a: seq<seq<string>>, b: seq<seq<string>>)
    ensures Flat(a + b) == Flat(a) + Flat(b)
  {
    if a == [] {
      assert a + b == b;
    } else {
      FlatConcat(a[1..], b);
      assert (a + b)[1..] == a[1..] + b && (a + b)[0] == a[0];
    }
  }

  lemma FlatOne(list: seq<string>)
    ensures Flat([list]) == list && Flat([]) == []
  {
    assert [list][1..] == [];
  }

  lemma {:induction false} FlatProfiles(games: seq<Profile>, recipes: bool)
    ensures ProfileSeeds(games, recipes) == Flat(ProfileLists(games, recipes))
  {
    if games != [] {
      FlatProfiles(games[1..], recipes);
      assert ProfileLists(games, recipes)[1..] == ProfileLists(games[1..], recipes);
    }
  }

  lemma {:induction false} FlatRules(rules: seq<Rule>, recipes: bool)
    ensures RuleSeeds(rules, recipes) == Flat(RuleLists(rules, recipes))
  {
    if rules != [] {
      FlatRules(rules[1..], recipes);
      assert RuleLists(rules, recipes)[1..] == RuleLists(rules[1..], recipes);
    }
  }

  lemma FlatSix(a: seq<seq<string>>, b: seq<seq<string>>, c: seq<seq<string>>, d: seq<seq<string>>, e: seq<seq<string>>, f: seq<seq<string>>)
    ensures Flat(a + b + c + d + e + f) == Flat(a) + Flat(b) + Flat(c) + Flat(d) + Flat(e) + Flat(f)
  {
    FlatConcat(a, b);
    FlatConcat(a + b, c);
    FlatConcat(a + b + c, d);
    FlatConcat(a + b + c + d, e);
    FlatConcat(a + b + c + d + e, f);
  }

  lemma SeedsAreFlat(launch: Launch, alternative: int, recipes: bool)
    ensures Seeds(launch, alternative, recipes) == Flat(NamedLists(launch, alternative, recipes))
  {
    hide Flat, ProfileSeeds, RuleSeeds, Fallback, Remedy, ProfileLists, RuleLists, AttemptLists, AttemptSeeds;
    var baseline := if launch.baseline.Some? then [launch.baseline.value] else [];
    FlatProfiles(launch.matched, recipes);
    FlatRules(launch.rules, recipes);
    FlatProfiles(baseline, recipes);
    AttemptFlat(Remedy(launch, alternative), recipes);
    AttemptFlat(Fallback(launch, alternative), recipes);
    OwnFlat(launch);
    FlatOne([]);
    FlatSix(ProfileLists(launch.matched, recipes), ProfileLists(baseline, recipes), RuleLists(launch.rules, recipes),
      AttemptLists(Remedy(launch, alternative), recipes), AttemptLists(Fallback(launch, alternative), recipes),
      if recipes then [] else (if launch.overrides.Some? then [launch.overrides.value.extra] else []) + [launch.imported]);
  }

  lemma AttemptFlat(a: Option<Attempt>, recipes: bool)
    ensures AttemptSeeds(a, recipes) == Flat(AttemptLists(a, recipes))
  {
    if a.Some? { FlatOne(if recipes then a.value.recipes else a.value.dependencies); }
  }

  lemma OwnFlat(launch: Launch)
    ensures Flat((if launch.overrides.Some? then [launch.overrides.value.extra] else []) + [launch.imported])
      == (if launch.overrides.Some? then launch.overrides.value.extra else []) + launch.imported
  {
    FlatConcat(if launch.overrides.Some? then [launch.overrides.value.extra] else [], [launch.imported]);
    FlatOne(launch.imported);
    if launch.overrides.Some? { FlatOne(launch.overrides.value.extra); }
  }

  /** What the launch names comes first, in the order of naming: profiles, baseline, rules, remedy,
      fallback, the user's extras, imports. What it leads to comes behind. */
  lemma NamedComeFirst(catalogue: Catalogue, table: RecipeTable, launch: Launch, alternative: int, plan: Plan, t: Trace) returns (n: nat, m: nat)
    requires Explains(catalogue, table, launch, alternative, plan, t)
    ensures n <= |t.requested| && m <= |plan.recipes|
    ensures forall id :: id in t.requested[..n] <==> NamesComponent(launch, alternative, id) && !IsDisabled(launch, alternative, id)
    ensures forall id :: id in plan.recipes[..m] <==> NamesRecipe(launch, alternative, id) && !IsDisabled(launch, alternative, id) && id in table
    ensures ByFirstPlace(t.requested[..n], Flat(NamedLists(launch, alternative, false)))
    ensures ByFirstPlace(plan.recipes[..m], Flat(NamedLists(launch, alternative, true)))
  {
    hide FromLayers, Seeds, Disabled, IsDisabled, NamesComponent, NamesRecipe, DependencyClosure.LeastClosedPair, ByFirstPlace, NamedLists, Flat;
    var p := ProblemOf(catalogue, table, launch, alternative);
    var k: int :| DependencyClosure.LedByFirst(p, false, t.requested, p.seeds, k);
    var l: int :| DependencyClosure.LedByFirst(p, true, plan.recipes, p.recipeSeeds, l);
    n, m := k, l;
    SeedsAreFlat(launch, alternative, false);
    SeedsAreFlat(launch, alternative, true);
    forall id
      ensures id in t.requested[..n] <==> NamesComponent(launch, alternative, id) && !IsDisabled(launch, alternative, id)
      ensures id in plan.recipes[..m] <==> NamesRecipe(launch, alternative, id) && !IsDisabled(launch, alternative, id) && id in table
    {
      SeedsAreNamed(launch, alternative, id);
      DisabledAre(launch, alternative, id);
    }
  }

  // ---------------------------------------------------------------- the layers

  /** The component reaches the program: it is provided, or its files are all there. */
  predicate IsThere(catalogue: Catalogue, id: string, present: set<string>) {
    id in catalogue && (catalogue[id].support == Provided ||
      (catalogue[id].support == Payload && forall dll :: dll in catalogue[id].dlls ==> Lower(dll) in present))
  }

  /** The settings of a launch's layers, each list highest first. */
  datatype Layers = Layers(user: seq<Settings>, remedy: seq<Settings>, fallback: seq<Settings>, games: seq<Settings>, rules: seq<Settings>,
    recipes: seq<Settings>, components: seq<Settings>, baseline: seq<Settings>)

  ghost predicate AttemptLayersAre(launch: Launch, alternative: int, l: Layers) {
    && (if exists a :: RemedyInForce(launch, alternative, a) then exists a :: RemedyInForce(launch, alternative, a) && l.remedy == [a.settings] else l.remedy == [])
    && (if exists a :: FallbackInForce(launch, alternative, a) then exists a :: FallbackInForce(launch, alternative, a) && l.fallback == [a.settings] else l.fallback == [])
  }

  /** The layers of a launch, told by its fields: later rules, recipes and components are higher than
      earlier ones, and of the components those take part that are there. */
  ghost predicate LayersAre(catalogue: Catalogue, table: RecipeTable, launch: Launch, alternative: int, ordered: seq<string>, recipes: seq<string>,
      l: Layers, used: seq<nat>)
  {
    && l.user == (if launch.overrides.Some? then [launch.overrides.value.settings.(registry := [])] else [])
    && AttemptLayersAre(launch, alternative, l)
    && |l.games| == |launch.matched| && (forall i :: 0 <= i < |l.games| ==> l.games[i] == launch.matched[i].settings)
    && |l.rules| == |launch.rules| && (forall i :: 0 <= i < |l.rules| ==> l.rules[i] == launch.rules[|l.rules| - 1 - i].settings)
    && |l.recipes| == |recipes|
    && (forall i :: 0 <= i < |recipes| ==> recipes[|recipes| - 1 - i] in table && l.recipes[i] == table[recipes[|recipes| - 1 - i]].settings)
    && ComponentsAre(catalogue, launch.present, ordered, l.components, used)
    && l.baseline == (if launch.baseline.Some? then [launch.baseline.value.settings] else [])
  }

  ghost predicate ComponentsAre(catalogue: Catalogue, present: set<string>, ordered: seq<string>, layers: seq<Settings>, used: seq<nat>) {
    Falls(used) && UsedLayers(catalogue, ordered, layers, used) && UsesAll(catalogue, present, ordered, used)
  }

  ghost predicate Falls(used: seq<nat>) { forall i, j :: 0 <= i < j < |used| ==> used[i] > used[j] }

  ghost predicate UsedLayers(catalogue: Catalogue, ordered: seq<string>, layers: seq<Settings>, used: seq<nat>) {
    && |used| == |layers|
    && forall i :: 0 <= i < |used| ==> used[i] < |ordered| && ordered[used[i]] in catalogue && layers[i] == catalogue[ordered[used[i]]].settings
  }

  ghost predicate UsesAll(catalogue: Catalogue, present: set<string>, ordered: seq<string>, used: seq<nat>) {
    forall k :: 0 <= k < |ordered| ==> (IsThere(catalogue, ordered[k], present) <==> k in used)
  }

  lemma SatisfiedIsThere(catalogue: Catalogue, id: string, present: set<string>)
    ensures ComponentLayer(catalogue, id, present) == if IsThere(catalogue, id, present) then Some(catalogue[id].settings) else None
  {
  }

  lemma {:induction false} ReversedAt<T>(s: seq<T>)
    ensures |Reversed(s)| == |s| && forall i :: 0 <= i < |s| ==> Reversed(s)[i] == s[|s| - 1 - i]
  {
    if s != [] { ReversedAt(s[1..]); }
  }

  lemma {:induction false} ComponentsReversed(catalogue: Catalogue, present: set<string>, ordered: seq<string>) returns (used: seq<nat>)
    ensures ComponentsAre(catalogue, present, ordered, Reversed(ComponentLayers(catalogue, ordered, present)), used)
  {
    if ordered == [] {
      used := [];
    } else {
      hide ComponentsAre, IsThere, Reversed, ComponentLayers, Shifted;
      var later := ComponentsReversed(catalogue, present, ordered[1..]);
      var layers := Reversed(ComponentLayers(catalogue, ordered[1..], present));
      FirstComponent(catalogue, ordered, present);
      ThereIsKnown(catalogue, ordered[0], present);
      if IsThere(catalogue, ordered[0], present) {
        used := Shifted(later) + [0];
        UsedNext(catalogue, present, ordered, layers, later);
      } else {
        used := Shifted(later);
        UsedSkips(catalogue, present, ordered, layers, later);
      }
    }
  }

  /** The first component is the lowest layer, if it is there. */
  lemma FirstComponent(catalogue: Catalogue, ordered: seq<string>, present: set<string>)
    requires ordered != []
    ensures var rest := Reversed(ComponentLayers(catalogue, ordered[1..], present));
      Reversed(ComponentLayers(catalogue, ordered, present)) == if IsThere(catalogue, ordered[0], present) then rest + [catalogue[ordered[0]].settings] else rest
  {
    SatisfiedIsThere(catalogue, ordered[0], present);
    hide IsThere, ComponentLayer;
    var rest := ComponentLayers(catalogue, ordered[1..], present);
    if IsThere(catalogue, ordered[0], present) {
      assert ([catalogue[ordered[0]].settings] + rest)[1..] == rest;
    } else {
      assert ComponentLayers(catalogue, ordered, present) == [] + rest == rest;
    }
  }

  lemma ShiftedLayers(catalogue: Catalogue, ordered: seq<string>, layers: seq<Settings>, later: seq<nat>)
    requires ordered != [] && UsedLayers(catalogue, ordered[1..], layers, later)
    ensures UsedLayers(catalogue, ordered, layers, Shifted(later))
  {
    var used := Shifted(later);
    forall i | 0 <= i < |later| ensures ordered[used[i]] == ordered[1..][later[i]] {}
  }

  lemma ShiftedAll(catalogue: Catalogue, present: set<string>, ordered: seq<string>, later: seq<nat>)
    requires ordered != [] && UsesAll(catalogue, present, ordered[1..], later)
    ensures forall k :: 0 < k < |ordered| ==> (IsThere(catalogue, ordered[k], present) <==> k in Shifted(later))
    ensures 0 !in Shifted(later)
  {
    hide IsThere;
    ShiftedHolds(later);
    forall k | 0 < k < |ordered| ensures IsThere(catalogue, ordered[k], present) <==> k in Shifted(later) {
      assert ordered[k] == ordered[1..][k - 1];
    }
  }

  lemma FallsShifted(later: seq<nat>)
    requires Falls(later)
    ensures Falls(Shifted(later)) && Falls(Shifted(later) + [0])
  {
  }

  /** A component in front of the others that is not there. */
  lemma UsedSkips(catalogue: Catalogue, present: set<string>, ordered: seq<string>, layers: seq<Settings>, later: seq<nat>)
    requires ordered != [] && ComponentsAre(catalogue, present, ordered[1..], layers, later) && !IsThere(catalogue, ordered[0], present)
    ensures ComponentsAre(catalogue, present, ordered, layers, Shifted(later))
  {
    hide IsThere, Falls, UsedLayers, Shifted;
    FallsShifted(later);
    ShiftedLayers(catalogue, ordered, layers, later);
    ShiftedAll(catalogue, present, ordered, later);
  }

  /** And one that is: it is the lowest layer. */
  lemma UsedNext(catalogue: Catalogue, present: set<string>, ordered: seq<string>, layers: seq<Settings>, later: seq<nat>)
    requires ordered != [] && ComponentsAre(catalogue, present, ordered[1..], layers, later)
    requires IsThere(catalogue, ordered[0], present) && ordered[0] in catalogue
    ensures ComponentsAre(catalogue, present, ordered, layers + [catalogue[ordered[0]].settings], Shifted(later) + [0])
  {
    hide IsThere, Falls, Shifted;
    FallsShifted(later);
    ShiftedLayers(catalogue, ordered, layers, later);
    ShiftedAll(catalogue, present, ordered, later);
    LayersNext(catalogue, ordered, layers, Shifted(later));
    hide UsedLayers;
    assert forall k :: k in Shifted(later) + [0] <==> k in Shifted(later) || k == 0;
  }

  lemma LayersNext(catalogue: Catalogue, ordered: seq<string>, layers: seq<Settings>, used: seq<nat>)
    requires ordered != [] && ordered[0] in catalogue && UsedLayers(catalogue, ordered, layers, used)
    ensures UsedLayers(catalogue, ordered, layers + [catalogue[ordered[0]].settings], used + [0])
  {
  }

  lemma ThereIsKnown(catalogue: Catalogue, id: string, present: set<string>)
    ensures IsThere(catalogue, id, present) ==> id in catalogue
  {
  }

  function Shifted(used: seq<nat>): (r: seq<nat>)
    ensures |r| == |used| && forall i :: 0 <= i < |r| ==> r[i] == used[i] + 1
  {
    seq(|used|, i requires 0 <= i < |used| => used[i] + 1)
  }

  lemma ShiftedHolds(used: seq<nat>)
    ensures forall k: nat :: k + 1 in Shifted(used) <==> k in used
    ensures 0 !in Shifted(used)
  {
    forall k: nat ensures k + 1 in Shifted(used) <==> k in used {
      if k in used {
        var i :| 0 <= i < |used| && used[i] == k;
        assert Shifted(used)[i] == k + 1;
      }
    }
  }

  lemma {:induction false} ProfileLayersAre(games: seq<Profile>)
    ensures |ProfileLayers(games)| == |games| && forall i :: 0 <= i < |games| ==> ProfileLayers(games)[i] == games[i].settings
  {
    if games != [] { ProfileLayersAre(games[1..]); }
  }

  lemma {:induction false} RuleLayersAre(rules: seq<Rule>)
    ensures |RuleLayers(rules)| == |rules| && forall i :: 0 <= i < |rules| ==> RuleLayers(rules)[i] == rules[i].settings
  {
    if rules != [] { RuleLayersAre(rules[1..]); }
  }

  lemma {:induction false} RecipeLayersAre(table: RecipeTable, ids: seq<string>)
    requires forall id :: id in ids ==> id in table
    ensures |RecipeLayers(table, ids)| == |ids| && forall i :: 0 <= i < |ids| ==> ids[i] in table && RecipeLayers(table, ids)[i] == table[ids[i]].settings
  {
    if ids != [] { RecipeLayersAre(table, ids[1..]); }
  }

  lemma AttemptLayersFrom(launch: Launch, alternative: int, l: Layers)
    requires l.remedy == Only(AttemptLayer(Remedy(launch, alternative))) && l.fallback == Only(AttemptLayer(Fallback(launch, alternative)))
    ensures AttemptLayersAre(launch, alternative, l)
  {
    hide Fallback, Remedy, FallbackInForce, RemedyInForce;
    forall a { AttemptsAre(launch, alternative, a); }
  }

  function LayersFrom(s: Sources): Layers {
    Layers(Only(s.user), Only(s.remedy), Only(s.fallback), s.games, Reversed(s.rules), Reversed(s.recipes), Reversed(s.components), Only(s.baseline))
  }

  lemma SourcesLayers(catalogue: Catalogue, table: RecipeTable, launch: Launch, alternative: int, ordered: seq<string>, recipes: seq<string>)
    returns (used: seq<nat>)
    requires forall id :: id in recipes ==> id in table
    ensures LayersAre(catalogue, table, launch, alternative, ordered, recipes, LayersFrom(SourcesOf(catalogue, table, launch, alternative, ordered, recipes)), used)
  {
    hide Fallback, Remedy, ComponentLayers, ProfileLayers, RuleLayers, RecipeLayers, Reversed, ComponentsAre, AttemptLayersAre, AttemptLayer;
    var s := SourcesOf(catalogue, table, launch, alternative, ordered, recipes);
    RecipeLayersAre(table, recipes);
    ProfileLayersAre(launch.matched);
    RuleLayersAre(launch.rules);
    ReversedAt(s.rules);
    ReversedAt(s.recipes);
    used := ComponentsReversed(catalogue, launch.present, ordered);
    AttemptLayersFrom(launch, alternative, LayersFrom(s));
  }

  lemma StacksOfLayers(s: Sources)
    ensures var l := LayersFrom(s);
      && Stack(s) == l.user + l.remedy + l.fallback + l.games + l.rules + l.recipes + l.components + l.baseline
      && VersionStack(s) == l.user + l.remedy + l.fallback + l.games + l.rules + l.recipes + Reversed(l.components) + l.baseline
  {
    hide Only, Reversed;
    var l := LayersFrom(s);
    ReversedTwice(s.components);
    EightParts(l.user, l.remedy, l.fallback, l.games, l.rules, l.recipes, l.components, l.baseline);
    EightParts(l.user, l.remedy, l.fallback, l.games, l.rules, l.recipes, s.components, l.baseline);
  }

  /** What a launch's variables, DLL orders, registry values and version are looked up in: the user's
      settings, the remedy and the fallback in force, the matched profiles, the rules, the recipes, the
      components that are there, the baseline, in this order from the highest down. */
  lemma LayersOfALaunch(catalogue: Catalogue, table: RecipeTable, launch: Launch, alternative: int, plan: Plan, t: Trace)
    returns (l: Layers, used: seq<nat>)
    requires Explains(catalogue, table, launch, alternative, plan, t)
    ensures LayersAre(catalogue, table, launch, alternative, t.ordered, plan.recipes, l, used)
    ensures Stack(SourcesOf(catalogue, table, launch, alternative, t.ordered, plan.recipes))
      == l.user + l.remedy + l.fallback + l.games + l.rules + l.recipes + l.components + l.baseline
    ensures VersionStack(SourcesOf(catalogue, table, launch, alternative, t.ordered, plan.recipes))
      == l.user + l.remedy + l.fallback + l.games + l.rules + l.recipes + Reversed(l.components) + l.baseline
  {
    hide Explains, SourcesOf, LayersFrom, LayersAre, Stack, VersionStack;
    var s := SourcesOf(catalogue, table, launch, alternative, t.ordered, plan.recipes);
    RecipesAreKnown(catalogue, table, launch, alternative, plan, t);
    used := SourcesLayers(catalogue, table, launch, alternative, t.ordered, plan.recipes);
    l := LayersFrom(s);
    StacksOfLayers(s);
  }

  lemma RecipesAreKnown(catalogue: Catalogue, table: RecipeTable, launch: Launch, alternative: int, plan: Plan, t: Trace)
    requires Explains(catalogue, table, launch, alternative, plan, t)
    ensures forall id :: id in plan.recipes ==> id in table
  {
    hide FromLayers, Seeds, Disabled;
    var p := ProblemOf(catalogue, table, launch, alternative);
    assert forall id :: id in plan.recipes ==> p.Admits(true, id);
  }

  lemma EightParts<T>(a: seq<T>, b: seq<T>, c: seq<T>, d: seq<T>, e: seq<T>, f: seq<T>, g: seq<T>, h: seq<T>)
    ensures a + (b + (c + (d + (e + (f + (g + h)))))) == a + b + c + d + e + f + g + h
  {
  }
}
