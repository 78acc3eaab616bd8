/** `GameCompatibility.plan`: which attempt a launch is on, which components and recipes it
    pulls in, what their layers merge to, and the environment and registry it ends with. */
module GamePlan {
  import opened Text
  import opened CompatModel
  import DependencyClosure
  import DependencyOrder
  import opened PlanLayers
  import PlanFold
  import PlanRegistry
  import CompatRegistryText
  import RegistryData
  import RegistryLines

  // ---------------------------------------------------------------- a launch

  /** A fallback of a profile, or a remedy. */
  datatype Attempt = Attempt(dependencies: seq<string>, recipes: seq<string>, disable: seq<string>, settings: Settings)

  /** A game profile, or the baseline. */
  datatype Profile = Profile(dependencies: seq<string>, recipes: seq<string>, fallbacks: seq<Attempt>, settings: Settings)

  datatype Rule = Rule(dependencies: seq<string>, recipes: seq<string>, settings: Settings)

  datatype Overrides = Overrides(enabled: bool, extra: seq<string>, disabled: seq<string>, settings: Settings)

  /** One launch: the profiles that match it (most specific first), the rules that apply, the
      remedies for the last failure, the components its imports name, and what the device has. */
  datatype Launch = Launch(
    matched: seq<Profile>, baseline: Option<Profile>, rules: seq<Rule>, remedies: seq<Attempt>, imported: seq<string>,
    overrides: Option<Overrides>, environment: map<string, string>, present: set<string>, app: string)

  datatype Plan = Plan(
    dependencies: seq<string>, unsatisfied: seq<string>, recipes: seq<string>,
    environment: PlanFold.Folded, dlls: map<string, string>, registry: seq<RegistryValue>, version: Option<string>)

  const NOTHING := Plan([], [], [], PlanFold.Folded(map[], []), map[], [], None)

  predicate Enabled(launch: Launch) { launch.overrides.None? || launch.overrides.value.enabled }

  // ---------------------------------------------------------------- the attempt

  /** The fallback of the first profile that has this many. */
  function FallbackAt(games: seq<Profile>, alternative: int): Option<Attempt>
    requires alternative > 0
  {
    if games == [] then None
    else if |games[0].fallbacks| >= alternative then Some(games[0].fallbacks[alternative - 1])
    else FallbackAt(games[1..], alternative)
  }

  function MostFallbacks(games: seq<Profile>): nat {
    if games == [] then 0
    else
      var rest := MostFallbacks(games[1..]);
      if |games[0].fallbacks| > rest then |games[0].fallbacks| else rest
  }

  function Fallback(launch: Launch, alternative: int): Option<Attempt> {
    if alternative > 0 then FallbackAt(launch.matched, alternative) else None
  }

  function Remedy(launch: Launch, alternative: int): Option<Attempt> {
    var index := alternative - MostFallbacks(launch.matched) - 1;
    if 0 <= index < |launch.remedies| then Some(launch.remedies[index]) else None
  }

  /** `for game in plan.matched where ... { fallback = ...; break }` */
  method SelectFallback(games: seq<Profile>, alternative: int) returns (fallback: Option<Attempt>)
    ensures fallback == if alternative > 0 then FallbackAt(games, alternative) else None
  {
    fallback := None;
    if alternative > 0 {
      var i := 0;
      while i < |games|
        invariant 0 <= i <= |games|
        invariant FallbackAt(games[i..], alternative) == FallbackAt(games, alternative)
      {
        if |games[i].fallbacks| >= alternative {
          return Some(games[i].fallbacks[alternative - 1]);
        }
        assert games[i..][1..] == games[i + 1..];
        i := i + 1;
      }
    }
  }

  /** The ladder of attempts has no gap and no overlap: attempt 0 is the profile itself, each
      number up to the longest fallback list selects a fallback and no remedy, the numbers after
      it select the remedies one by one and no fallback, and every other number selects nothing. */
  lemma AttemptsFormALadder(launch: Launch, alternative: int)
    ensures Fallback(launch, alternative).Some? <==> 1 <= alternative <= MostFallbacks(launch.matched)
    ensures Remedy(launch, alternative).Some? <==> 0 < alternative - MostFallbacks(launch.matched) <= |launch.remedies|
    ensures Remedy(launch, alternative).Some? ==> Remedy(launch, alternative).value == launch.remedies[alternative - MostFallbacks(launch.matched) - 1]
    ensures !(Fallback(launch, alternative).Some? && Remedy(launch, alternative).Some?)
  {
    if alternative > 0 { FallbackExists(launch.matched, alternative); }
  }

  lemma {:induction false} FallbackExists(games: seq<Profile>, alternative: int)
    requires alternative > 0
    ensures FallbackAt(games, alternative).Some? <==> alternative <= MostFallbacks(games)
  {
    if games != [] { FallbackExists(games[1..], alternative); }
  }

  // ---------------------------------------------------------------- what is asked for

  function AttemptSeeds(attempt: Option<Attempt>, recipes: bool): seq<string> {
    if attempt.None? then [] else if recipes then attempt.value.recipes else attempt.value.dependencies
  }

  function ProfileSeeds(games: seq<Profile>, recipes: bool): seq<string> {
    if games == [] then [] else (if recipes then games[0].recipes else games[0].dependencies) + ProfileSeeds(games[1..], recipes)
  }

  function RuleSeeds(rules: seq<Rule>, recipes: bool): seq<string> {
    if rules == [] then [] else (if recipes then rules[0].recipes else rules[0].dependencies) + RuleSeeds(rules[1..], recipes)
  }

  /** The seeds in the order they are offered. */
  function Seeds(launch: Launch, alternative: int, recipes: bool): seq<string> {
    ProfileSeeds(launch.matched, recipes) + ProfileSeeds(if launch.baseline.Some? then [launch.baseline.value] else [], recipes)
    + RuleSeeds(launch.rules, recipes) + AttemptSeeds(Remedy(launch, alternative), recipes)
    + AttemptSeeds(Fallback(launch, alternative), recipes)
    + if recipes then [] else (if launch.overrides.Some? then launch.overrides.value.extra else []) + launch.imported
  }

  function Disabled(launch: Launch, alternative: int): set<string> {
    var fallback, remedy := Fallback(launch, alternative), Remedy(launch, alternative);
    Elements((if launch.overrides.Some? then launch.overrides.value.disabled else [])
      + (if fallback.Some? then fallback.value.disable else []) + (if remedy.Some? then remedy.value.disable else []))
  }

  function ProblemOf(catalogue: Catalogue, recipes: RecipeTable, launch: Launch, alternative: int): DependencyClosure.Problem {
    DependencyClosure.Problem(catalogue, recipes, Disabled(launch, alternative), Seeds(launch, alternative, false), Seeds(launch, alternative, true))
  }

  // ---------------------------------------------------------------- what is merged

  /** The component is there for the program: it needs no files, or the device has them all. */
  predicate Satisfied(dependency: Dependency, present: set<string>) {
    match dependency.support
    case Unsupported => false
    case Manual => false
    case Payload => forall i :: 0 <= i < |dependency.dlls| ==> Lower(dependency.dlls[i]) in present
    case Provided => true
  }

  /** The components the catalogue knows, in order. */
  function Known(catalogue: Catalogue, ordered: seq<string>): seq<string> {
    if ordered == [] then [] else (if ordered[0] in catalogue then [ordered[0]] else []) + Known(catalogue, ordered[1..])
  }

  /** A component's layer: none when the catalogue does not know it or it is not satisfied. */
  function ComponentLayer(catalogue: Catalogue, id: string, present: set<string>): Option<Settings> {
    if id in catalogue && Satisfied(catalogue[id], present) then Some(catalogue[id].settings) else None
  }

  function ComponentLayers(catalogue: Catalogue, ordered: seq<string>, present: set<string>): seq<Settings> {
    if ordered == [] then [] else Only(ComponentLayer(catalogue, ordered[0], present)) + ComponentLayers(catalogue, ordered[1..], present)
  }

  function RecipeLayers(table: RecipeTable, ids: seq<string>): seq<Settings> {
    if ids == [] then [] else (if ids[0] in table then [table[ids[0]].settings] else []) + RecipeLayers(table, ids[1..])
  }

  function ProfileLayers(games: seq<Profile>): seq<Settings> {
    if games == [] then [] else [games[0].settings] + ProfileLayers(games[1..])
  }

  function RuleLayers(rules: seq<Rule>): seq<Settings> {
    if rules == [] then [] else [rules[0].settings] + RuleLayers(rules[1..])
  }

  function AttemptLayer(attempt: Option<Attempt>): Option<Settings> {
    if attempt.Some? then Some(attempt.value.settings) else None
  }

  /** The user's settings; they carry no registry values. */
  function UserLayer(overrides: Option<Overrides>): Option<Settings> {
    if overrides.Some? then Some(overrides.value.settings.(registry := [])) else None
  }

  function SourcesOf(catalogue: Catalogue, table: RecipeTable, launch: Launch, alternative: int, ordered: seq<string>, recipes: seq<string>): Sources {
    Sources(
      ComponentLayers(catalogue, ordered, launch.present), RecipeLayers(table, recipes),
      if launch.baseline.Some? then Some(launch.baseline.value.settings) else None,
      RuleLayers(launch.rules), ProfileLayers(launch.matched),
      AttemptLayer(Fallback(launch, alternative)), AttemptLayer(Remedy(launch, alternative)), UserLayer(launch.overrides))
  }

  // ---------------------------------------------------------------- the plan

  /** What a plan went through on the way. */
  datatype Trace = Trace(requested: seq<string>, ordered: seq<string>, names: seq<string>, merged: Merged)

  ghost predicate Resolved(p: DependencyClosure.Problem, plan: Plan, t: Trace) {
    && DependencyClosure.LeastClosedPair(p, t.requested, plan.recipes)
    && DependencyClosure.LedBy(p, false, t.requested, p.seeds) && DependencyClosure.LedBy(p, true, plan.recipes, p.recipeSeeds)
    && t.ordered == DependencyOrder.OrderOf(p.catalogue, t.requested)
    && plan.dependencies == Known(p.catalogue, t.ordered)
  }

  /** The plan holds what the layers give, looked up from the highest down, then folded. */
  ghost predicate FromLayers(sources: Sources, launch: Launch, plan: Plan, t: Trace) {
    && Refines(Stack(sources), t.merged)
    && plan.version == FirstVersion(VersionStack(sources))
    && plan.dlls == t.merged.dlls
    && Elements(t.names) == plan.dlls.Keys && PlanFold.InOrder(t.names) && (forall n :: n in t.names ==> n in plan.dlls)
    && PlanFold.IsFolded(t.merged.env, plan.dlls, Overridden(launch, t.names, plan.dlls), launch.environment, plan.environment)
    && plan.registry == PlanRegistry.PlanValues(t.merged.registry, launch.app, plan.version, t.names, plan.dlls)
  }

  function Overridden(launch: Launch, names: seq<string>, dlls: map<string, string>): string
    requires forall n :: n in names ==> n in dlls
  {
    PlanFold.MergeOrders(PlanFold.Own(launch.environment, PlanFold.OVERRIDES), names, dlls)
  }

  ghost predicate Explains(catalogue: Catalogue, table: RecipeTable, launch: Launch, alternative: int, plan: Plan, t: Trace) {
    && Resolved(ProblemOf(catalogue, table, launch, alternative), plan, t)
    && FromLayers(SourcesOf(catalogue, table, launch, alternative, t.ordered, plan.recipes), launch, plan, t)
  }

  /** The ids resolved without an entry in the catalogue are reported. */
  method Lookups(catalogue: Catalogue, ordered: seq<string>) returns (known: seq<string>, unknown: seq<string>)
    ensures known == Known(catalogue, ordered)
    ensures forall id :: id in unknown <==> id in ordered && id !in catalogue
  {
    known, unknown := [], [];
    for i := 0 to |ordered|
      invariant known + Known(catalogue, ordered[i..]) == Known(catalogue, ordered)
      invariant forall id :: id in unknown <==> id in ordered[..i] && id !in catalogue
    {
      assert ordered[i..][1..] == ordered[i + 1..];
      assert ordered[..i + 1] == ordered[..i] + [ordered[i]];
      if ordered[i] in catalogue { known := known + [ordered[i]]; } else { unknown := unknown + [ordered[i]]; }
    }
    assert ordered[|ordered|..] == [] && ordered[..|ordered|] == ordered;
  }

  lemma LayersFrom(catalogue: Catalogue, known: seq<string>, i: nat, present: set<string>)
    requires i <= |known|
    ensures i == 0 ==> known[i..] == known
    ensures i == |known| ==> ComponentLayers(catalogue, known[i..], present) == []
    ensures i < |known| ==>
      ComponentLayers(catalogue, known[i..], present) == Only(ComponentLayer(catalogue, known[i], present)) + ComponentLayers(catalogue, known[i + 1..], present)
    ensures i < |known| && known[i] in catalogue ==>
      ComponentLayer(catalogue, known[i], present) == if Satisfied(catalogue[known[i]], present) then Some(catalogue[known[i]].settings) else None
  {
    hide Satisfied;
    if i < |known| { assert known[i..][1..] == known[i + 1..] && known[i..][0] == known[i]; }
  }

  /** What has been reported of the components so far. */
  ghost predicate ReportedOf(catalogue: Catalogue, done: seq<string>, present: set<string>, missing: seq<string>) {
    forall id :: id in missing <==> id in done && ComponentLayer(catalogue, id, present) == None
  }

  lemma ReportedNext(catalogue: Catalogue, done: seq<string>, id: string, present: set<string>, missing: seq<string>)
    requires ReportedOf(catalogue, done, present, missing)
    ensures ComponentLayer(catalogue, id, present).Some? ==> ReportedOf(catalogue, done + [id], present, missing)
    ensures ComponentLayer(catalogue, id, present).None? ==> ReportedOf(catalogue, done + [id], present, missing + [id])
  {
    hide ComponentLayer;
  }

  /** The loop over the known components: what is merged and what is reported. */
  method Survey(catalogue: Catalogue, known: seq<string>, present: set<string>) returns (layers: seq<Settings>, missing: seq<string>)
    requires forall i :: 0 <= i < |known| ==> known[i] in catalogue
    ensures layers == ComponentLayers(catalogue, known, present)
    ensures forall id :: id in missing <==> id in known && ComponentLayer(catalogue, id, present) == None
  {
    hide ComponentLayer, ComponentLayers, Satisfied;
    layers, missing := [], [];
    LayersFrom(catalogue, known, 0, present);
    for i := 0 to |known|
      invariant layers + ComponentLayers(catalogue, known[i..], present) == ComponentLayers(catalogue, known, present)
      invariant ReportedOf(catalogue, known[..i], present, missing)
    {
      LayersFrom(catalogue, known, i, present);
      ReportedNext(catalogue, known[..i], known[i], present, missing);
      hide ReportedOf;
      assert known[..i + 1] == known[..i] + [known[i]];
      var dependency := catalogue[known[i]];
      if Satisfied(dependency, present) { layers := layers + [dependency.settings]; } else { missing := missing + [known[i]]; }
    }
    LayersFrom(catalogue, known, |known|, present);
    assert known[..|known|] == known;
  }

  /** Unknown ids have no layer. */
  lemma {:induction false} UnknownHasNoLayer(catalogue: Catalogue, ordered: seq<string>, present: set<string>)
    ensures ComponentLayers(catalogue, Known(catalogue, ordered), present) == ComponentLayers(catalogue, ordered, present)
    ensures forall id :: id in Known(catalogue, ordered) <==> id in ordered && id in catalogue
    ensures forall i :: 0 <= i < |Known(catalogue, ordered)| ==> Known(catalogue, ordered)[i] in catalogue
  {
    hide Satisfied;
    if ordered != [] {
      UnknownHasNoLayer(catalogue, ordered[1..], present);
      assert ordered == [ordered[0]] + ordered[1..];
      var rest := Known(catalogue, ordered[1..]);
      if ordered[0] in catalogue {
        assert ([ordered[0]] + rest)[1..] == rest && ([ordered[0]] + rest)[0] == ordered[0];
        assert Known(catalogue, ordered) == [ordered[0]] + rest;
      } else {
        assert Known(catalogue, ordered) == [] + rest == rest;
        assert Only(ComponentLayer(catalogue, ordered[0], present)) == [];
        assert ComponentLayers(catalogue, ordered, present) == [] + ComponentLayers(catalogue, ordered[1..], present);
      }
    }
  }

  /** The first half: what the launch pulls in, in the order of the requirements. */
  method ResolveNeeds(p: DependencyClosure.Problem) returns (requested: seq<string>, recipes: seq<string>, ordered: seq<string>)
    ensures DependencyClosure.LeastClosedPair(p, requested, recipes)
    ensures DependencyClosure.LedBy(p, false, requested, p.seeds) && DependencyClosure.LedBy(p, true, recipes, p.recipeSeeds)
    ensures ordered == DependencyOrder.OrderOf(p.catalogue, requested)
  {
    requested, recipes := DependencyClosure.Close(p);
    ordered := DependencyOrder.Order(p.catalogue, requested);
  }

  /** The second half: the merges, the fold and the program's own registry values. */
  method MergeAndFold(sources: Sources, launch: Launch, plan0: Plan) returns (plan: Plan, ghost names: seq<string>, ghost merged: Merged)
    ensures plan.dependencies == plan0.dependencies && plan.unsatisfied == plan0.unsatisfied && plan.recipes == plan0.recipes
    ensures forall requested, ordered :: FromLayers(sources, launch, plan, Trace(requested, ordered, names, merged))
  {
    hide Stack, VersionStack, Refines, PlanRegistry.PlanValues, PlanFold.MergeOrders, PlanFold.InOrder, PlanFold.IsFolded, FirstVersion;
    var m := MergeSources(sources);
    var folded, sorted, text := PlanFold.Fold(m.env, m.dlls, launch.environment);
    var registry, again := PlanRegistry.AddAppValues(m.registry, launch.app, m.version, m.dlls);
    PlanFold.OrderIsUnique(sorted, again);
    plan := plan0.(environment := folded, dlls := m.dlls, registry := registry, version := m.version);
    names, merged := sorted, m;
  }

  /** Between the two: the layers of what was resolved, and what is reported as not satisfied. */
  method CollectSources(catalogue: Catalogue, table: RecipeTable, launch: Launch, alternative: int, ordered: seq<string>, recipes: seq<string>)
    returns (sources: Sources, known: seq<string>, unsatisfied: seq<string>)
    ensures sources == SourcesOf(catalogue, table, launch, alternative, ordered, recipes)
    ensures known == Known(catalogue, ordered)
    ensures forall id :: id in unsatisfied <==> id in ordered && ComponentLayer(catalogue, id, launch.present) == None
  {
    hide Known, ComponentLayers, RecipeLayers, RuleLayers, ProfileLayers, FallbackAt, MostFallbacks, Satisfied;
    var fallback := SelectFallback(launch.matched, alternative);
    var unknown, missing;
    known, unknown := Lookups(catalogue, ordered);
    UnknownHasNoLayer(catalogue, ordered, launch.present);
    var layers;
    layers, missing := Survey(catalogue, known, launch.present);
    unsatisfied := unknown + missing;
    sources := Sources(layers, RecipeLayers(table, recipes),
      if launch.baseline.Some? then Some(launch.baseline.value.settings) else None,
      RuleLayers(launch.rules), ProfileLayers(launch.matched), AttemptLayer(fallback), AttemptLayer(Remedy(launch, alternative)), UserLayer(launch.overrides));
  }

  /** `GameCompatibility.plan`. */
  method MakePlan(catalogue: Catalogue, table: RecipeTable, launch: Launch, alternative: int) returns (plan: Plan, ghost t: Trace)
    ensures launch.overrides.Some? && !launch.overrides.value.enabled ==> plan == Plan([], [], [], PlanFold.Folded(map[], []), map[], [], None)
    ensures launch.overrides.None? || launch.overrides.value.enabled ==> Explains(catalogue, table, launch, alternative, plan, t)
    ensures launch.overrides.None? || launch.overrides.value.enabled ==> forall id :: id in plan.unsatisfied <==> id in t.ordered && ComponentLayer(catalogue, id, launch.present) == None
  {
    t := Trace([], [], [], Merged(map[], map[], [], None));
    if !Enabled(launch) { return NOTHING, t; }
    hide DependencyClosure.LeastClosedPair, DependencyClosure.LedBy, DependencyOrder.OrderOf, FromLayers, Seeds, Disabled, Known, SourcesOf, ComponentLayer;
    var requested, recipes, ordered := ResolveNeeds(ProblemOf(catalogue, table, launch, alternative));
    var sources, known, unsatisfied := CollectSources(catalogue, table, launch, alternative, ordered, recipes);
    ghost var names, merged;
    plan, names, merged := MergeAndFold(sources, launch, NOTHING.(dependencies := known, unsatisfied := unsatisfied, recipes := recipes));
    t := Trace(requested, ordered, names, merged);
  }

  // ---------------------------------------------------------------- what a plan promises

  /** Every variable of the process after the plan is applied: the value of the highest layer
      that defines it (the user, the remedy, the fallback, the profiles, the rules, the recipes,
      the components, the baseline), unset where that value is empty, untouched where no layer
      defines it. Two variables are merged with the launch's own: WINEDLLOVERRIDES when the plan
      has DLL orders (LaunchOverridesAreKept), and DXMT_CONFIG when a layer gives it a value
      (LaunchOptionsAreKept). */
  lemma VariableComesFromHighestLayer(catalogue: Catalogue, table: RecipeTable, launch: Launch, alternative: int, plan: Plan, t: Trace,
      process: map<string, string>, key: string)
    requires Explains(catalogue, table, launch, alternative, plan, t)
    ensures var stack := Stack(SourcesOf(catalogue, table, launch, alternative, t.ordered, plan.recipes));
      Lookup(process - Elements(plan.environment.unset) + plan.environment.kept, key) ==
        if key == PlanFold.OVERRIDES && plan.dlls != map[] then Some(Overridden(launch, t.names, plan.dlls))
        else if FirstEnv(stack, key) == None then Lookup(process, key)
        else if FirstEnv(stack, key).value == "" then None
        else if key == PlanFold.OPTIONS && PlanFold.OPTIONS in launch.environment then
          Some(PlanFold.MergedOptions(launch.environment[PlanFold.OPTIONS], FirstEnv(stack, key).value))
        else FirstEnv(stack, key)
  {
    hide SourcesOf, Stack, Refines, FirstEnv, Overridden, PlanRegistry.PlanValues, PlanFold.IsFolded, ProblemOf, Resolved, PlanFold.InOrder;
    hide PlanFold.MergedOptions;
    var stack := Stack(SourcesOf(catalogue, table, launch, alternative, t.ordered, plan.recipes));
    PlanFold.HighestLayerDecides(stack, t.merged, Overridden(launch, t.names, plan.dlls), launch.environment, plan.environment, process, key);
  }

  /** WINEDLLOVERRIDES keeps the launch's entries for other DLLs in their order and ends with
      one entry for each DLL the layers give an order. */
  lemma LaunchOverridesAreKept(catalogue: Catalogue, table: RecipeTable, launch: Launch, alternative: int, plan: Plan, t: Trace)
    requires Explains(catalogue, table, launch, alternative, plan, t)
    requires forall n :: n in plan.dlls ==> PlanFold.PlainEntry(n, plan.dlls[n])
    ensures Pieces(Overridden(launch, t.names, plan.dlls), ';') ==
      PlanFold.Others(Pieces(PlanFold.Own(launch.environment, PlanFold.OVERRIDES), ';'), plan.dlls.Keys) + PlanFold.EntriesFor(t.names, plan.dlls)
  {
    hide SourcesOf, Stack, PlanRegistry.PlanValues, PlanFold.MergeOrders, ProblemOf, Resolved, PlanFold.PlainEntry, Pieces, PlanFold.Others, PlanFold.IsFolded;
    var stack := Stack(SourcesOf(catalogue, table, launch, alternative, t.ordered, plan.recipes));
    PlanNamesAreFolded(stack, t, plan);
    assert forall i :: 0 <= i < |t.names| ==> t.names[i] in t.names;
    PlanFold.InOrderDistinct(t.names);
    PlanFold.OneEntryPerDll(PlanFold.Own(launch.environment, PlanFold.OVERRIDES), t.names, plan.dlls);
  }

  /** DXMT_CONFIG lists the launch's own options first, then those of the highest layer that names
      some which the launch does not have; each option stands once, at its first place, and all of
      both are there. */
  lemma LaunchOptionsAreKept(catalogue: Catalogue, table: RecipeTable, launch: Launch, alternative: int, plan: Plan, t: Trace,
      process: map<string, string>, ours: string)
    requires Explains(catalogue, table, launch, alternative, plan, t) && PlanFold.OPTIONS in launch.environment && ours != ""
    requires FirstEnv(Stack(SourcesOf(catalogue, table, launch, alternative, t.ordered, plan.recipes)), PlanFold.OPTIONS) == Some(ours)
    ensures var value := Lookup(process - Elements(plan.environment.unset) + plan.environment.kept, PlanFold.OPTIONS);
      && value.Some?
      && var own, plans, options := Pieces(launch.environment[PlanFold.OPTIONS], ';'), Pieces(ours, ';'), Pieces(value.value, ';');
      && options == PlanFold.Once(own) + PlanFold.Missing(PlanFold.Once(plans), PlanFold.Once(own))
      && NoDuplicates(options) && Elements(options) == Elements(own) + Elements(plans)
      && ByFirstPlace(options, own + plans)
  {
    hide SourcesOf, Stack, FirstEnv, ProblemOf, Resolved, FromLayers, PlanFold.MergedOptions, PlanFold.Once, PlanFold.Missing, NoDuplicates;
    hide Pieces, ByFirstPlace;
    VariableComesFromHighestLayer(catalogue, table, launch, alternative, plan, t, process, PlanFold.OPTIONS);
    PlanFold.OptionsAreMerged(launch.environment[PlanFold.OPTIONS], ours);
  }

  lemma {:induction false} DecidedNamesAreFolded(stack: seq<Settings>, dll: string, order: string)
    requires DllDecided(stack, dll, Some(order))
    ensures Lower(dll) == dll
  {
    if DllOrders(stack[0].dlls, dll) != {} {
      var found :| found in DllOrders(stack[0].dlls, dll);
      var name :| name in stack[0].dlls && Lower(name) == dll && stack[0].dlls[name] == found;
      LowerIdempotent(name);
    } else {
      DecidedNamesAreFolded(stack[1..], dll, order);
    }
  }

  /** A disabled component takes part in a plan exactly when some component the launch pulls in
      requires it: nothing else is requested that is disabled, but the depth-first order brings
      such a requirement back. */
  lemma DisabledStaysOut(catalogue: Catalogue, table: RecipeTable, launch: Launch, alternative: int, plan: Plan, t: Trace)
    requires Explains(catalogue, table, launch, alternative, plan, t)
    ensures (forall id :: id in t.ordered ==> id !in Disabled(launch, alternative))
      <==> DependencyClosure.NoDisabledNeed(ProblemOf(catalogue, table, launch, alternative))
  {
    hide FromLayers, Known, Seeds, Disabled, DependencyOrder.OrderOf, DependencyClosure.ClosedPair, DependencyClosure.WithinEvery, NoDuplicates;
    var p := ProblemOf(catalogue, table, launch, alternative);
    var ordered := DependencyClosure.OrderAddsOnlyDisabledNeeds(p, t.requested, plan.recipes);
    if DependencyClosure.NoDisabledNeed(p) {
      forall id | id in t.ordered ensures id !in p.disabled {
        assert id in Elements(ordered) && id in Elements(t.requested);
        assert p.Admits(false, id);
      }
    } else {
      var need := DependencyClosure.DisabledNeedComesBack(p, t.requested, plan.recipes);
      var again := DependencyOrder.OrderIsSound(catalogue, t.requested);
      assert need in t.ordered;
    }
  }

  /** After the plan's values are written, the program's Windows version reads back as the
      plan's: user, remedy, fallback, profiles, rules and recipes in that order, then the first
      component that names one, then the baseline. */
  lemma VersionIsRead(catalogue: Catalogue, table: RecipeTable, launch: Launch, alternative: int, plan: Plan, t: Trace, text: string, now: nat)
    requires Explains(catalogue, table, launch, alternative, plan, t) && plan.version.Some?
    requires forall v :: v in plan.registry ==> CompatRegistryText.OneLine(v)
    ensures plan.version == FirstVersion(VersionStack(SourcesOf(catalogue, table, launch, alternative, t.ordered, plan.recipes)))
    ensures var own := PlanRegistry.VersionValue(launch.app, plan.version.value);
      CompatRegistryText.ReadText(CompatRegistryText.Merged(PlanRegistry.OfHive(plan.registry, CurrentUser), text, now), own.key, CompatRegistryText.NameOf(own))
        == Some(CompatRegistryText.Line(own))
    ensures RegistryData.Find(CompatRegistryText.Merged(PlanRegistry.OfHive(plan.registry, CurrentUser), text, now),
        "Software\\Wine\\AppDefaults\\" + launch.app, RegistryLines.Named("Version")) == Some(RegistryData.Words(plan.version.value))
  {
    hide SourcesOf, Stack, VersionStack, PlanFold.IsFolded, ProblemOf, Resolved, CompatRegistryText.Merged, CompatRegistryText.ReadText;
    hide CompatRegistryText.OneLine, PlanRegistry.ForApp, PlanRegistry.AppValues, CompatRegistryText.Line, PlanRegistry.OfHive;
    hide RegistryData.ReadLine, RegistryData.ReadData, CompatRegistryText.Data;
    RegistryData.LineIsRead(PlanRegistry.VersionValue(launch.app, plan.version.value));
    RegistryData.StringData(plan.version.value);
    var stack := Stack(SourcesOf(catalogue, table, launch, alternative, t.ordered, plan.recipes));
    PlanRegistry.VersionIsLast(launch.app, plan.version.value, t.names, plan.dlls);
    PlanRegistry.VersionUnclashed(PlanRegistry.ForApp(RegistryOrder(stack), launch.app), launch.app, plan.version.value, t.names, plan.dlls);
    PlanRegistry.HighestLayerIsRead(stack, launch.app, PlanRegistry.AppValues(launch.app, plan.version, t.names, plan.dlls), CurrentUser,
      PlanRegistry.AppKey(launch.app), RegistryLines.Named("Version"), text, now);
  }

  /** And each DLL order of the plan reads back under the program's DllOverrides, in the words of
      the registry (PlanRegistry.OrderSpelled). */
  lemma DllOrderIsRead(catalogue: Catalogue, table: RecipeTable, launch: Launch, alternative: int, plan: Plan, t: Trace, dll: string, text: string, now: nat)
    requires Explains(catalogue, table, launch, alternative, plan, t) && dll in plan.dlls && plan.dlls[dll] != ""
    requires forall v :: v in plan.registry ==> CompatRegistryText.OneLine(v)
    ensures var own := PlanRegistry.DllValue(launch.app, dll, plan.dlls[dll]);
      CompatRegistryText.ReadText(CompatRegistryText.Merged(PlanRegistry.OfHive(plan.registry, CurrentUser), text, now), own.key, CompatRegistryText.NameOf(own))
        == Some(CompatRegistryText.Line(own))
    ensures RegistryData.Find(CompatRegistryText.Merged(PlanRegistry.OfHive(plan.registry, CurrentUser), text, now),
        "Software\\Wine\\AppDefaults\\" + launch.app + "\\DllOverrides", if dll == "" then RegistryLines.Default else RegistryLines.Named(dll))
      == Some(RegistryData.Words(PlanRegistry.RegistryWord(plan.dlls[dll])))
  {
    hide SourcesOf, Stack, VersionStack, PlanFold.IsFolded, ProblemOf, Resolved, CompatRegistryText.Merged, CompatRegistryText.ReadText;
    hide CompatRegistryText.OneLine, PlanRegistry.PlanValues, CompatRegistryText.Line, PlanRegistry.OfHive, PlanRegistry.RegistryWord;
    hide RegistryData.ReadLine, RegistryData.ReadData, CompatRegistryText.Data;
    var stack := Stack(SourcesOf(catalogue, table, launch, alternative, t.ordered, plan.recipes));
    PlanNamesAreFolded(stack, t, plan);
    assert dll in Elements(t.names);
    PlanRegistry.DllIsRead(stack, launch.app, plan.version, t.names, plan.dlls, dll, text, now);
    RegistryData.LineIsRead(PlanRegistry.DllValue(launch.app, dll, plan.dlls[dll]));
    RegistryData.StringData(PlanRegistry.RegistryWord(plan.dlls[dll]));
  }

  /** The plan's DLL names are folded and in order, so no two are equal up to letter case. */
  lemma PlanNamesAreFolded(stack: seq<Settings>, t: Trace, plan: Plan)
    requires Refines(stack, t.merged) && plan.dlls == t.merged.dlls
    requires PlanFold.InOrder(t.names) && forall n :: n in t.names ==> n in plan.dlls
    ensures forall i :: 0 <= i < |t.names| ==> Lower(t.names[i]) == t.names[i]
    ensures forall i, j :: 0 <= i < j < |t.names| ==> Lower(t.names[i]) != Lower(t.names[j])
  {
    hide DllDecided, PlanFold.InOrder, Lower;
    forall i | 0 <= i < |t.names| ensures Lower(t.names[i]) == t.names[i] {
      assert DllDecided(stack, t.names[i], Lookup(plan.dlls, t.names[i]));
      DecidedNamesAreFolded(stack, t.names[i], plan.dlls[t.names[i]]);
    }
    PlanFold.InOrderDistinct(t.names);
  }
}
