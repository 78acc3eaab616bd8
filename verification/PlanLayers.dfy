/** The merges of `plan`: components, recipes, the baseline, rules, profiles, a fallback, a
    remedy and the user's overrides written over one another, proved against a lookup that
    asks the layers from the highest down. */
module PlanLayers {
  import opened Text
  import opened CompatModel

  /** What the merges build up. */
  datatype Merged = Merged(env: map<string, string>, dlls: map<string, string>, registry: seq<RegistryValue>, version: Option<string>)

  /** The entries a plan merges, in the order of their lists: components in resolution order,
      recipes and rules as found, profiles most specific first. */
  datatype Sources = Sources(
    components: seq<Settings>, recipes: seq<Settings>, baseline: Option<Settings>, rules: seq<Settings>,
    games: seq<Settings>, fallback: Option<Settings>, remedy: Option<Settings>, user: Option<Settings>)

  // ---------------------------------------------------------------- the layered lookup

  function Lookup(m: map<string, string>, key: string): Option<string> {
    if key in m then Some(m[key]) else None
  }

  function Only(layer: Option<Settings>): seq<Settings> {
    if layer.Some? then [layer.value] else []
  }

  function Reversed<T>(s: seq<T>): seq<T> {
    if s == [] then [] else Reversed(s[1..]) + [s[0]]
  }

  /** The layers, highest priority first. */
  function Stack(s: Sources): seq<Settings> {
    Only(s.user) + (Only(s.remedy) + (Only(s.fallback) + (s.games + (Reversed(s.rules) +
      (Reversed(s.recipes) + (Reversed(s.components) + Only(s.baseline)))))))
  }

  /** The same for the Windows version: there the first component that names one wins. */
  function VersionStack(s: Sources): seq<Settings> {
    Only(s.user) + (Only(s.remedy) + (Only(s.fallback) + (s.games + (Reversed(s.rules) +
      (Reversed(s.recipes) + (s.components + Only(s.baseline)))))))
  }

  /** The value of the first layer that defines a variable. */
  function FirstEnv(stack: seq<Settings>, key: string): Option<string> {
    if stack == [] then None
    else if key in stack[0].env then Some(stack[0].env[key])
    else FirstEnv(stack[1..], key)
  }

  function FirstVersion(stack: seq<Settings>): Option<string> {
    if stack == [] then None
    else if stack[0].version.Some? then stack[0].version
    else FirstVersion(stack[1..])
  }

  /** The orders a layer gives a DLL. Its names are folded one by one, so a table that spells
      one DLL in two ways gives it two orders and its iteration order picks one. */
  function DllOrders(table: map<string, string>, dll: string): set<string> {
    set name | name in table && Lower(name) == dll :: table[name]
  }

  /** `order` is one that the first layer naming the DLL gives it; none when no layer does. */
  ghost predicate DllDecided(stack: seq<Settings>, dll: string, order: Option<string>) {
    if stack == [] then order == None
    else if DllOrders(stack[0].dlls, dll) != {} then order.Some? && order.value in DllOrders(stack[0].dlls, dll)
    else DllDecided(stack[1..], dll, order)
  }

  /** The registry values in writing order, lowest priority first: a later value for the same
      key and name is the one that wins. */
  function RegistryOrder(stack: seq<Settings>): seq<RegistryValue> {
    if stack == [] then [] else RegistryOrder(stack[1..]) + stack[0].registry
  }

  /** `m` holds exactly what the lookup finds in the layers. */
  ghost predicate Refines(stack: seq<Settings>, m: Merged) {
    && (forall key :: Lookup(m.env, key) == FirstEnv(stack, key))
    && (forall dll :: DllDecided(stack, dll, Lookup(m.dlls, dll)))
    && m.registry == RegistryOrder(stack)
  }

  // ---------------------------------------------------------------- the merges

  /** `for (key, value) in env { plan.environment[key] = value }` */
  method WriteEnv(table: map<string, string>, into: map<string, string>) returns (out: map<string, string>)
    ensures out == into + table
  {
    out := into;
    var left := table.Keys;
    while left != {}
      invariant left <= table.Keys
      invariant forall key :: Lookup(out, key) == if key in table && key !in left then Some(table[key]) else Lookup(into, key)
    {
      var key :| key in left;
      out := out[key := table[key]];
      left := left - {key};
    }
    assert forall key :: Lookup(out, key) == Lookup(into + table, key);
    SameLookups(out, into + table);
  }

  lemma SameLookups(a: map<string, string>, b: map<string, string>)
    requires forall key :: Lookup(a, key) == Lookup(b, key)
    ensures a == b
  {
    forall key ensures key in a <==> key in b {
      assert Lookup(a, key) == Lookup(b, key);
    }
    forall key | key in a ensures a[key] == b[key] {
      assert Lookup(a, key) == Lookup(b, key);
    }
  }

  /** `for (dll, order) in dllOverrides { plan.dllOverrides[dll.lowercased()] = order }` */
  method WriteDlls(table: map<string, string>, into: map<string, string>) returns (out: map<string, string>)
    ensures forall dll :: if DllOrders(table, dll) != {}
      then Lookup(out, dll).Some? && Lookup(out, dll).value in DllOrders(table, dll)
      else Lookup(out, dll) == Lookup(into, dll)
  {
    out := into;
    var left := table.Keys;
    while left != {}
      invariant left <= table.Keys
      invariant forall dll :: Lookup(out, dll) == Lookup(into, dll) || (dll in out && out[dll] in DllOrders(table, dll))
      invariant forall name :: name in table && name !in left ==> Lower(name) in out && out[Lower(name)] in DllOrders(table, Lower(name))
    {
      var name :| name in left;
      assert table[name] in DllOrders(table, Lower(name));
      out := out[Lower(name) := table[name]];
      left := left - {name};
    }
    forall dll | DllOrders(table, dll) != {} ensures dll in out && out[dll] in DllOrders(table, dll) {
      var order :| order in DllOrders(table, dll);
      var name :| name in table && Lower(name) == dll && table[name] == order;
    }
  }

  /** `mergeBaseline` for variables: only what nothing has said yet. */
  method FillEnv(table: map<string, string>, into: map<string, string>) returns (out: map<string, string>)
    ensures out == table + into
  {
    out := into;
    var left := table.Keys;
    while left != {}
      invariant left <= table.Keys
      invariant forall key :: Lookup(out, key) == if key in into then Some(into[key]) else if key in left then None else Lookup(table, key)
    {
      var key :| key in left;
      if key !in out { out := out[key := table[key]]; }
      left := left - {key};
    }
    assert forall key :: Lookup(out, key) == Lookup(table + into, key);
    SameLookups(out, table + into);
  }

  /** `mergeBaseline` for DLL overrides. */
  method FillDlls(table: map<string, string>, into: map<string, string>) returns (out: map<string, string>)
    ensures forall dll ::
      if dll in into then Lookup(out, dll) == Some(into[dll])
      else if DllOrders(table, dll) != {} then dll in out && out[dll] in DllOrders(table, dll)
      else dll !in out
  {
    out := into;
    var left := table.Keys;
    while left != {}
      invariant left <= table.Keys
      invariant forall dll :: dll in into ==> Lookup(out, dll) == Some(into[dll])
      invariant forall dll :: dll in out && dll !in into ==> out[dll] in DllOrders(table, dll)
      invariant forall name :: name in table && name !in left ==> Lower(name) in out
    {
      var name :| name in left;
      assert table[name] in DllOrders(table, Lower(name));
      if Lower(name) !in out { out := out[Lower(name) := table[name]]; }
      left := left - {name};
    }
    forall dll | DllOrders(table, dll) != {} ensures dll in out {
      var order :| order in DllOrders(table, dll);
      var name :| name in table && Lower(name) == dll && table[name] == order;
    }
  }

  /** `merge` of a recipe, rule, fallback or remedy, and the merges of a profile and of the
      user's overrides: everything over what is there. */
  method Merge(layer: Settings, into: Merged) returns (out: Merged)
    ensures Overwrites(layer, into, out)
    ensures out.version == if layer.version.Some? then layer.version else into.version
  {
    var env := WriteEnv(layer.env, into.env);
    var dlls := WriteDlls(layer.dlls, into.dlls);
    out := Merged(env, dlls, into.registry + layer.registry, if layer.version.Some? then layer.version else into.version);
    forall stack, dll | DllDecided(stack, dll, Lookup(into.dlls, dll)) ensures DllDecided([layer] + stack, dll, Lookup(out.dlls, dll)) {
      assert ([layer] + stack)[1..] == stack;
    }
  }

  /** `merge` of a component: like the others, but an earlier component keeps the version. */
  method MergeComponent(layer: Settings, into: Merged) returns (out: Merged)
    ensures Overwrites(layer, into, out)
    ensures out.version == if into.version.Some? then into.version else layer.version
  {
    out := Merge(layer, into);
    out := out.(version := if into.version.Some? then into.version else layer.version);
  }

  /** `out` is `into` with a layer written over it. */
  ghost predicate Overwrites(layer: Settings, into: Merged, out: Merged) {
    && out.env == into.env + layer.env
    && (forall stack, dll :: DllDecided(stack, dll, Lookup(into.dlls, dll)) ==> DllDecided([layer] + stack, dll, Lookup(out.dlls, dll)))
    && out.registry == into.registry + layer.registry
  }

  lemma OverwriteRefines(stack: seq<Settings>, layer: Settings, into: Merged, out: Merged)
    requires Refines(stack, into) && Overwrites(layer, into, out)
    ensures Refines([layer] + stack, out)
  {
    assert ([layer] + stack)[1..] == stack;
    forall key ensures Lookup(out.env, key) == FirstEnv([layer] + stack, key) {
      assert Lookup(into.env, key) == FirstEnv(stack, key);
    }
  }

  /** Merges a list one entry after the other, the last one highest. */
  method MergeAll(layers: seq<Settings>, into: Merged, ghost below: seq<Settings>, ghost versionsBelow: seq<Settings>) returns (out: Merged)
    requires Refines(below, into) && into.version == FirstVersion(versionsBelow)
    ensures Refines(Reversed(layers) + below, out)
    ensures out.version == FirstVersion(Reversed(layers) + versionsBelow)
  {
    out := into;
    var i := 0;
    AboveNone(layers, below);
    AboveNone(layers, versionsBelow);
    while i < |layers|
      invariant 0 <= i <= |layers|
      invariant Refines(Above(layers, i, below), out)
      invariant out.version == FirstVersion(Above(layers, i, versionsBelow))
    {
      ghost var earlier := out;
      out := Merge(layers[i], out);
      OverwriteRefines(Above(layers, i, below), layers[i], earlier, out);
      AboveNext(layers, i, below);
      AboveNext(layers, i, versionsBelow);
      i := i + 1;
    }
    assert layers[..i] == layers;
  }

  /** The component loop: like MergeAll, but the first version wins. */
  method MergeComponents(layers: seq<Settings>) returns (out: Merged)
    ensures Refines(Reversed(layers), out)
    ensures out.version == FirstVersion(layers)
  {
    out := Merged(map[], map[], [], None);
    var i := 0;
    AboveNone(layers, []);
    while i < |layers|
      invariant 0 <= i <= |layers|
      invariant Refines(Above(layers, i, []), out)
      invariant out.version == FirstVersion(layers[..i])
    {
      ghost var earlier := out;
      out := MergeComponent(layers[i], out);
      OverwriteRefines(Above(layers, i, []), layers[i], earlier, out);
      AboveNext(layers, i, []);
      assert layers[..i + 1] == layers[..i] + [layers[i]];
      FirstVersionBelow(layers[..i], [layers[i]]);
      i := i + 1;
    }
    assert layers[..i] == layers;
    assert Above(layers, i, []) == Reversed(layers);
  }

  /** The baseline goes below everything merged so far; its registry values go to the front. */
  method MergeBaseline(layer: Settings, into: Merged, ghost above: seq<Settings>) returns (out: Merged)
    requires Refines(above, into)
    ensures Refines(above + [layer], out)
    ensures out.version == if into.version.Some? then into.version else layer.version
  {
    var env := FillEnv(layer.env, into.env);
    var dlls := FillDlls(layer.dlls, into.dlls);
    out := Merged(env, dlls, layer.registry + into.registry, if into.version.Some? then into.version else layer.version);
    forall key ensures Lookup(out.env, key) == FirstEnv(above + [layer], key) {
      assert Lookup(into.env, key) == FirstEnv(above, key);
      FirstEnvBelow(above, [layer], key);
    }
    forall dll ensures DllDecided(above + [layer], dll, Lookup(out.dlls, dll)) {
      assert DllDecided(above, dll, Lookup(into.dlls, dll));
      assert [layer][1..] == [];
      DllDecidedBelow(above, [layer], dll, Lookup(into.dlls, dll), Lookup(out.dlls, dll));
    }
    RegistryBelow(above, layer);
  }

  method MergeOne(layer: Option<Settings>, into: Merged, ghost below: seq<Settings>, ghost versionsBelow: seq<Settings>) returns (out: Merged)
    requires Refines(below, into) && into.version == FirstVersion(versionsBelow)
    ensures Refines(Only(layer) + below, out)
    ensures out.version == FirstVersion(Only(layer) + versionsBelow)
  {
    out := MergeAll(Only(layer), into, below, versionsBelow);
    assert Reversed(Only(layer)) == Only(layer);
  }

  /** All merges of `plan` in the source's order: every variable, DLL order, registry value and
      the Windows version come out as the lookup from the highest layer down gives them. */
  method MergeSources(s: Sources) returns (out: Merged)
    ensures Refines(Stack(s), out)
    ensures out.version == FirstVersion(VersionStack(s))
  {
    ghost var stack, versions := Reversed(s.components), s.components;
    out := MergeComponents(s.components);
    out := MergeAll(s.recipes, out, stack, versions);
    stack, versions := Reversed(s.recipes) + stack, Reversed(s.recipes) + versions;
    if s.baseline.Some? {
      FirstVersionBelow(versions, [s.baseline.value]);
      out := MergeBaseline(s.baseline.value, out, stack);
    } else {
      assert stack + [] == stack && versions + [] == versions;
    }
    assert stack + Only(s.baseline) == Reversed(s.recipes) + (Reversed(s.components) + Only(s.baseline));
    assert versions + Only(s.baseline) == Reversed(s.recipes) + (s.components + Only(s.baseline));
    stack, versions := stack + Only(s.baseline), versions + Only(s.baseline);
    out := MergeAll(s.rules, out, stack, versions);
    stack, versions := Reversed(s.rules) + stack, Reversed(s.rules) + versions;
    ReversedTwice(s.games);
    out := MergeAll(Reversed(s.games), out, stack, versions);
    stack, versions := s.games + stack, s.games + versions;
    out := MergeOne(s.fallback, out, stack, versions);
    stack, versions := Only(s.fallback) + stack, Only(s.fallback) + versions;
    out := MergeOne(s.remedy, out, stack, versions);
    stack, versions := Only(s.remedy) + stack, Only(s.remedy) + versions;
    out := MergeOne(s.user, out, stack, versions);
  }

  // ---------------------------------------------------------------- stacks of layers

  /** The first `n` layers of a list, the last of them highest, over those below. */
  function Above(layers: seq<Settings>, n: nat, below: seq<Settings>): seq<Settings>
    requires n <= |layers|
  {
    Reversed(layers[..n]) + below
  }

  lemma AboveNone(layers: seq<Settings>, below: seq<Settings>)
    ensures Above(layers, 0, below) == below
  {
    assert Reversed(layers[..0]) == [];
  }

  lemma AboveNext(layers: seq<Settings>, i: nat, below: seq<Settings>)
    requires i < |layers|
    ensures Above(layers, i + 1, below) == [layers[i]] + Above(layers, i, below)
    ensures Above(layers, i + 1, below)[1..] == Above(layers, i, below)
  {
    assert layers[..i + 1] == layers[..i] + [layers[i]];
    ReversedAppend(layers[..i], layers[i]);
  }

  lemma {:induction false} ReversedAppend<T>(s: seq<T>, x: T)
    ensures Reversed(s + [x]) == [x] + Reversed(s)
  {
    if s == [] {
      assert ([] + [x])[1..] == [] && Reversed<T>([]) == [];
    } else {
      ReversedAppend(s[1..], x);
      assert (s + [x])[1..] == s[1..] + [x];
    }
  }

  lemma {:induction false} ReversedTwice<T>(s: seq<T>)
    ensures Reversed(Reversed(s)) == s
  {
    if s != [] {
      ReversedTwice(s[1..]);
      ReversedAppend(Reversed(s[1..]), s[0]);
    }
  }

  lemma {:induction false} FirstVersionBelow(above: seq<Settings>, below: seq<Settings>)
    ensures FirstVersion(above + below) == if FirstVersion(above).Some? then FirstVersion(above) else FirstVersion(below)
  {
    if above == [] {
      assert above + below == below;
    } else {
      FirstVersionBelow(above[1..], below);
      assert (above + below)[1..] == above[1..] + below;
    }
  }

  lemma {:induction false} FirstEnvBelow(above: seq<Settings>, below: seq<Settings>, key: string)
    ensures FirstEnv(above + below, key) == if FirstEnv(above, key).Some? then FirstEnv(above, key) else FirstEnv(below, key)
  {
    if above == [] {
      assert above + below == below;
    } else {
      FirstEnvBelow(above[1..], below, key);
      assert (above + below)[1..] == above[1..] + below;
    }
  }

  lemma {:induction false} DllDecidedBelow(above: seq<Settings>, below: seq<Settings>, dll: string, upper: Option<string>, order: Option<string>)
    requires DllDecided(above, dll, upper)
    requires if upper.Some? then order == upper else DllDecided(below, dll, order)
    ensures DllDecided(above + below, dll, order)
  {
    if above == [] {
      assert above + below == below;
    } else {
      assert (above + below)[1..] == above[1..] + below;
      if DllOrders(above[0].dlls, dll) == {} {
        DllDecidedBelow(above[1..], below, dll, upper, order);
      }
    }
  }

  lemma {:induction false} RegistryBelow(above: seq<Settings>, layer: Settings)
    ensures RegistryOrder(above + [layer]) == layer.registry + RegistryOrder(above)
  {
    if above == [] {
      assert above + [layer] == [layer] && [layer][1..] == [];
    } else {
      RegistryBelow(above[1..], layer);
      var longer := above + [layer];
      assert longer[1..] == above[1..] + [layer] && longer[0] == above[0];
      assert RegistryOrder(longer) == RegistryOrder(longer[1..]) + above[0].registry;
      assert RegistryOrder(above) == RegistryOrder(above[1..]) + above[0].registry;
    }
  }
}
