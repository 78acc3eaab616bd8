/** The registry half of a plan: "{app}" in keys and names stands for the program, the version
    and the DLL orders go to the program's AppDefaults keys, and each hive's file gets its
    values. What a reader of the file finds is the value of the highest layer. */
module PlanRegistry {
  import opened Text
  import opened CompatModel
  import opened PlanLayers
  import opened CompatRegistryText
  import RegistryClashes
  import RegText = CompatRegistryText
  import RegistryLines
  import PlanFold

  const APP := "{app}"

  /** `replacingOccurrences(of:with:)`, leftmost occurrences first. */
  function Replaced(s: string, pattern: string, text: string): string
    requires pattern != ""
    decreases |s|
  {
    var at := Find(s, pattern);
    if at == |s| then s else s[..at] + text + Replaced(s[at + |pattern|..], pattern, text)
  }

  function Substituted(v: RegistryValue, app: string): RegistryValue {
    v.(key := Replaced(v.key, APP, app), name := Replaced(v.name, APP, app))
  }

  /** The values with the program's name filled in. */
  function ForApp(values: seq<RegistryValue>, app: string): seq<RegistryValue> {
    if values == [] then [] else [Substituted(values[0], app)] + ForApp(values[1..], app)
  }

  function AppKey(app: string): string { "Software\\Wine\\AppDefaults\\" + app }

  /** "n,b" becomes "native,builtin"; other words stay. */
  function RegistryWord(order: string): string { Join(Words(Pieces(order, ',')), ",") }

  function Words(parts: seq<string>): seq<string> {
    if parts == [] then []
    else
      var word := Trim(parts[0], false);
      [if Lower(word) == "n" then "native" else if Lower(word) == "b" then "builtin" else word] + Words(parts[1..])
  }

  function VersionValue(app: string, version: string): RegistryValue {
    RegistryValue(CurrentUser, AppKey(app), "Version", RegSz, version)
  }

  function DllValue(app: string, dll: string, order: string): RegistryValue {
    RegistryValue(CurrentUser, AppKey(app) + "\\DllOverrides", dll, RegSz, RegistryWord(order))
  }

  /** The orders of the DLLs that have one. */
  function DllValues(app: string, names: seq<string>, orders: map<string, string>): seq<RegistryValue>
    requires forall n :: n in names ==> n in orders
  {
    if names == [] then []
    else
      var last := names[|names| - 1];
      DllValues(app, names[..|names| - 1], orders) + if orders[last] == "" then [] else [DllValue(app, last, orders[last])]
  }

  /** The values the plan adds for the program itself. */
  function AppValues(app: string, version: Option<string>, names: seq<string>, orders: map<string, string>): seq<RegistryValue>
    requires forall n :: n in names ==> n in orders
  {
    (if version.Some? then [VersionValue(app, version.value)] else []) + DllValues(app, names, orders)
  }

  /** All registry values of a plan. */
  function PlanValues(registry: seq<RegistryValue>, app: string, version: Option<string>, names: seq<string>, orders: map<string, string>): seq<RegistryValue>
    requires forall n :: n in names ==> n in orders
  {
    ForApp(registry, app) + AppValues(app, version, names, orders)
  }

  /** The placeholders are filled in place. */
  method FillApp(registry: seq<RegistryValue>, app: string) returns (values: seq<RegistryValue>)
    ensures values == ForApp(registry, app)
  {
    hide Substituted;
    values := registry;
    for i := 0 to |registry|
      invariant |values| == |registry| && values[i..] == registry[i..]
      invariant values[..i] == ForApp(registry[..i], app)
    {
      var v := Substituted(values[i], app);
      assert values[i] == values[i..][0] == registry[i..][0] == registry[i];
      assert values[i + 1..] == values[i..][1..] == registry[i..][1..] == registry[i + 1..];
      assert registry[..i + 1] == registry[..i] + [registry[i]];
      ForAppConcat(registry[..i], [registry[i]], app);
      assert [registry[i]][1..] == [];
      ghost var before := values;
      values := values[i := v];
      assert values[..i + 1] == before[..i] + [v];
      assert values[i + 1..] == before[i + 1..];
    }
    assert values[..|registry|] == values && registry[..|registry|] == registry;
  }

  /** The loop over the DLL orders, in name order. */
  method AddDllValues(start: seq<RegistryValue>, app: string, orders: map<string, string>)
    returns (values: seq<RegistryValue>, ghost names: seq<string>)
    ensures Elements(names) == orders.Keys && PlanFold.InOrder(names)
    ensures forall n :: n in names ==> n in orders
    ensures values == start + DllValues(app, names, orders)
  {
    hide DllValue, PlanFold.InOrder;
    values := start;
    var sorted := PlanFold.Sorted(orders.Keys);
    names := sorted;
    assert forall n :: n in sorted ==> n in Elements(sorted);
    for i := 0 to |sorted|
      invariant values == start + DllValues(app, sorted[..i], orders)
    {
      assert sorted[..i + 1][..i] == sorted[..i];
      var dll := sorted[i];
      if orders[dll] != "" { values := values + [DllValue(app, dll, orders[dll])]; }
    }
    assert sorted[..|sorted|] == sorted;
  }

  /** The passes over `plan.registry`: placeholders filled in place, then the program's own
      values appended. */
  method AddAppValues(registry: seq<RegistryValue>, app: string, version: Option<string>, orders: map<string, string>)
    returns (values: seq<RegistryValue>, ghost names: seq<string>)
    ensures Elements(names) == orders.Keys && PlanFold.InOrder(names)
    ensures forall n :: n in names ==> n in orders
    ensures values == PlanValues(registry, app, version, names, orders)
  {
    hide VersionValue, ForApp, DllValues, PlanFold.InOrder;
    values := FillApp(registry, app);
    if version.Some? { values := values + [VersionValue(app, version.value)]; }
    values, names := AddDllValues(values, app, orders);
  }

  // ---------------------------------------------------------------- writing

  function OfHive(values: seq<RegistryValue>, hive: Hive): seq<RegistryValue> {
    if values == [] then []
    else
      var last := values[|values| - 1];
      OfHive(values[..|values| - 1], hive) + (if last.hive == hive then [last] else [])
  }

  /** `writeRegistry` on the text of one hive's file. The early exits make no difference to
      what is written: without values, or when nothing changes, merging yields the same text. */
  method WriteHive(values: seq<RegistryValue>, hive: Hive, text: string, now: nat) returns (out: string, written: nat)
    ensures text == "" ==> out == "" && written == 0
    ensures text != "" ==> out == RegText.Merged(OfHive(values, hive), text, now)
    ensures text != "" ==> written == Changes(Split(text, '\n'), Edits(OfHive(values, hive)), Stamp(now))
  {
    var selected := OfHive(values, hive);
    if selected == [] || text == "" {
      assert Edits([]) == [];
      return text, 0;
    }
    var updated, changed := RegText.Merge(selected, text, now);
    if changed == 0 {
      NoChanges(Split(text, '\n'), Edits(selected), Stamp(now));
      return text, 0;
    }
    return updated, changed;
  }

  // ---------------------------------------------------------------- the highest layer wins

  /** The last value of a list for a pair of one hive. */
  function LastFor(values: seq<RegistryValue>, hive: Hive, key: string, name: RegistryLines.ValueName): Option<RegistryValue> {
    if values == [] then None
    else
      var init, last := values[..|values| - 1], values[|values| - 1];
      if IsFor(last, hive, key, name) then Some(last) else LastFor(init, hive, key, name)
  }

  predicate IsFor(v: RegistryValue, hive: Hive, key: string, name: RegistryLines.ValueName) {
    v.hive == hive && Lower(v.key) == Lower(key) && RegistryLines.SameName(NameOf(v), name)
  }

  /** The value of the first layer that has one for the pair; within a layer its last one. */
  function FirstValue(stack: seq<Settings>, app: string, hive: Hive, key: string, name: RegistryLines.ValueName): Option<RegistryValue> {
    if stack == [] then None
    else
      var own := LastFor(ForApp(stack[0].registry, app), hive, key, name);
      if own.Some? then own else FirstValue(stack[1..], app, hive, key, name)
  }

  lemma {:induction false} LastForConcat(a: seq<RegistryValue>, b: seq<RegistryValue>, hive: Hive, key: string, name: RegistryLines.ValueName)
    ensures LastFor(a + b, hive, key, name) == if LastFor(b, hive, key, name).Some? then LastFor(b, hive, key, name) else LastFor(a, hive, key, name)
  {
    hide IsFor;
    if b == [] {
      assert a + b == a;
    } else {
      LastForConcat(a, b[..|b| - 1], hive, key, name);
      assert (a + b)[..|a + b| - 1] == a + b[..|b| - 1];
    }
  }

  lemma {:induction false} ForAppConcat(a: seq<RegistryValue>, b: seq<RegistryValue>, app: string)
    ensures ForApp(a + b, app) == ForApp(a, app) + ForApp(b, app)
  {
    hide Substituted;
    if a == [] {
      assert a + b == b;
    } else {
      ForAppConcat(a[1..], b, app);
      assert (a + b)[1..] == a[1..] + b && (a + b)[0] == a[0];
    }
  }

  /** The writing order puts the highest layer's value last. */
  lemma {:induction false} HighestLayerIsLast(stack: seq<Settings>, app: string, hive: Hive, key: string, name: RegistryLines.ValueName)
    ensures LastFor(ForApp(RegistryOrder(stack), app), hive, key, name) == FirstValue(stack, app, hive, key, name)
  {
    if stack != [] {
      HighestLayerIsLast(stack[1..], app, hive, key, name);
      ForAppConcat(RegistryOrder(stack[1..]), stack[0].registry, app);
      LastForConcat(ForApp(RegistryOrder(stack[1..]), app), ForApp(stack[0].registry, app), hive, key, name);
    }
  }

  /** Some place of a value in the list has no later value of its hive that clashes with it. */
  ghost predicate Unclashed(values: seq<RegistryValue>, v: RegistryValue) {
    exists i :: UnclashedAt(values, v, i)
  }

  ghost predicate UnclashedAt(values: seq<RegistryValue>, v: RegistryValue, i: int) {
    0 <= i < |values| && values[i] == v && forall j :: i < j < |values| && values[j].hive == v.hive ==> !Clashes(v, values[j])
  }

  /** Leaving out the other hives' values makes no difference to that. */
  lemma {:induction false} UnclashedOfHive(values: seq<RegistryValue>, v: RegistryValue, at: nat) returns (i: nat)
    requires UnclashedAt(values, v, at)
    ensures i < |OfHive(values, v.hive)| && OfHive(values, v.hive)[i] == v
    ensures forall j :: i < j < |OfHive(values, v.hive)| ==> !Clashes(v, OfHive(values, v.hive)[j])
  {
    hide Clashes;
    var init, last := values[..|values| - 1], values[|values| - 1];
    OfHiveAppend(init, last, v.hive);
    assert values == init + [last];
    if at == |values| - 1 {
      i := |OfHive(values, v.hive)| - 1;
    } else {
      assert UnclashedAt(init, v, at);
      i := UnclashedOfHive(init, v, at);
    }
  }

  lemma {:induction false} LastForIsFor(values: seq<RegistryValue>, hive: Hive, key: string, name: RegistryLines.ValueName)
    requires LastFor(values, hive, key, name).Some?
    ensures IsFor(LastFor(values, hive, key, name).value, hive, key, name)
  {
    hide IsFor;
    if !IsFor(values[|values| - 1], hive, key, name) { LastForIsFor(values[..|values| - 1], hive, key, name); }
  }

  lemma OfHiveAppend(values: seq<RegistryValue>, v: RegistryValue, hive: Hive)
    ensures OfHive(values + [v], hive) == OfHive(values, hive) + if v.hive == hive then [v] else []
  {
    assert (values + [v])[..|values|] == values;
  }

  lemma {:induction false} OfHiveAll(values: seq<RegistryValue>, hive: Hive)
    ensures forall v :: v in OfHive(values, hive) ==> v in values
  {
    if values != [] { OfHiveAll(values[..|values| - 1], hive); }
  }

  /** The value that should win: the program's own when the plan adds one, else that of the highest
      layer that has one. */
  function Winner(stack: seq<Settings>, app: string, extra: seq<RegistryValue>, hive: Hive, key: string, name: RegistryLines.ValueName): Option<RegistryValue> {
    var own := LastFor(extra, hive, key, name);
    if own.Some? then own else FirstValue(stack, app, hive, key, name)
  }

  /** After the plan was written the winner is what a reader of the file finds for the value, if
      nothing that is written later clashes with it. */
  lemma HighestLayerIsRead(stack: seq<Settings>, app: string, extra: seq<RegistryValue>, hive: Hive, key: string,
      name: RegistryLines.ValueName, text: string, now: nat)
    requires forall v :: v in ForApp(RegistryOrder(stack), app) + extra ==> OneLine(v)
    requires Winner(stack, app, extra, hive, key, name).Some?
    requires Unclashed(ForApp(RegistryOrder(stack), app) + extra, Winner(stack, app, extra, hive, key, name).value)
    ensures var winner := Winner(stack, app, extra, hive, key, name).value;
      && IsFor(winner, hive, key, name)
      && ReadText(RegText.Merged(OfHive(ForApp(RegistryOrder(stack), app) + extra, hive), text, now), winner.key, NameOf(winner)) == Some(Line(winner))
  {
    hide IsFor, Line, RegText.Merged, ReadText, OneLine, Clashes;
    var all := ForApp(RegistryOrder(stack), app) + extra;
    HighestLayerIsLast(stack, app, hive, key, name);
    LastForConcat(ForApp(RegistryOrder(stack), app), extra, hive, key, name);
    LastForIsFor(all, hive, key, name);
    var winner := Winner(stack, app, extra, hive, key, name).value;
    assert winner.hive == hive by { ForHive(winner, hive, key, name); }
    var at :| UnclashedAt(all, winner, at);
    var i := UnclashedOfHive(all, winner, at);
    OfHiveAll(all, hive);
    LastValueWins(OfHive(all, hive), text, now, i);
  }

  /** Whatever the file holds before: exactly when everything that clashes with the winner is
      followed by a value that puts its line back. */
  lemma HighestLayerSurvives(stack: seq<Settings>, app: string, extra: seq<RegistryValue>, hive: Hive, key: string, name: RegistryLines.ValueName, now: nat)
    requires forall v :: v in ForApp(RegistryOrder(stack), app) + extra ==> OneLine(v)
    requires Winner(stack, app, extra, hive, key, name).Some?
    ensures var winner, written := Winner(stack, app, extra, hive, key, name).value, OfHive(ForApp(RegistryOrder(stack), app) + extra, hive);
      && IsFor(winner, hive, key, name)
      && ((forall text :: ReadText(RegText.Merged(written, text, now), winner.key, NameOf(winner)) == Some(Line(winner)))
        <==> RegistryClashes.Survives(written, winner))
  {
    hide IsFor, Line, RegText.Merged, ReadText, OneLine, RegistryClashes.Survives;
    var all := ForApp(RegistryOrder(stack), app) + extra;
    HighestLayerIsLast(stack, app, hive, key, name);
    LastForConcat(ForApp(RegistryOrder(stack), app), extra, hive, key, name);
    LastForIsFor(all, hive, key, name);
    var winner := Winner(stack, app, extra, hive, key, name).value;
    var i := LastOfHive(all, hive, key, name);
    OfHiveAll(all, hive);
    RegistryClashes.ValueSurvives(OfHive(all, hive), i, now);
  }

  /** The last value for a pair is one of its hive's values. */
  lemma {:induction false} LastOfHive(values: seq<RegistryValue>, hive: Hive, key: string, name: RegistryLines.ValueName) returns (i: nat)
    requires LastFor(values, hive, key, name).Some?
    ensures i < |OfHive(values, hive)| && OfHive(values, hive)[i] == LastFor(values, hive, key, name).value
  {
    var init, last := values[..|values| - 1], values[|values| - 1];
    OfHiveAppend(init, last, hive);
    assert values == init + [last];
    if IsFor(last, hive, key, name) { i := |OfHive(values, hive)| - 1; } else { i := LastOfHive(init, hive, key, name); }
  }

  lemma ForHive(v: RegistryValue, hive: Hive, key: string, name: RegistryLines.ValueName)
    requires IsFor(v, hive, key, name)
    ensures v.hive == hive
  {
  }

  // ---------------------------------------------------------------- the program's own values

  lemma LastForAppend(values: seq<RegistryValue>, v: RegistryValue, hive: Hive, key: string, name: RegistryLines.ValueName)
    ensures LastFor(values + [v], hive, key, name) == if IsFor(v, hive, key, name) then Some(v) else LastFor(values, hive, key, name)
  {
    hide IsFor;
    assert (values + [v])[..|values + [v]| - 1] == values;
  }

  lemma DllValueIsFor(app: string, dll: string, order: string, key: string, name: RegistryLines.ValueName)
    ensures key == AppKey(app) + "\\DllOverrides" && RegistryLines.SameName(NameOf(DllValue(app, dll, order)), name)
      ==> IsFor(DllValue(app, dll, order), CurrentUser, key, name)
    ensures key == AppKey(app) ==> !IsFor(DllValue(app, dll, order), CurrentUser, key, name)
  {
    hide RegistryWord;
    var v := DllValue(app, dll, order);
    assert |Lower(v.key)| == |v.key| > |AppKey(app)| == |Lower(AppKey(app))|;
  }

  /** The version of the plan is the last value for the program's Version. */
  lemma VersionIsLast(app: string, version: string, names: seq<string>, orders: map<string, string>)
    requires forall n :: n in names ==> n in orders
    ensures LastFor(AppValues(app, Some(version), names, orders), CurrentUser, AppKey(app), RegistryLines.Named("Version")) == Some(VersionValue(app, version))
  {
    var own := VersionValue(app, version);
    LastForConcat([own], DllValues(app, names, orders), CurrentUser, AppKey(app), RegistryLines.Named("Version"));
    NoDllValue(app, names, orders, RegistryLines.Named("Version"));
    assert IsFor(own, CurrentUser, AppKey(app), RegistryLines.Named("Version"));
    LastForAppend([], own, CurrentUser, AppKey(app), RegistryLines.Named("Version"));
    assert [] + [own] == [own];
  }

  lemma {:induction false} NoDllValue(app: string, names: seq<string>, orders: map<string, string>, name: RegistryLines.ValueName)
    requires forall n :: n in names ==> n in orders
    ensures LastFor(DllValues(app, names, orders), CurrentUser, AppKey(app), name) == None
  {
    if names != [] {
      hide IsFor, DllValue, AppKey;
      var init, last := names[..|names| - 1], names[|names| - 1];
      NoDllValue(app, init, orders, name);
      LastForAppend(DllValues(app, init, orders), DllValue(app, last, orders[last]), CurrentUser, AppKey(app), name);
      DllValueIsFor(app, last, orders[last], AppKey(app), name);
      assert DllValues(app, init, orders) + [] == DllValues(app, init, orders);
    }
  }

  lemma NamesApart(app: string, a: string, b: string, orderA: string, orderB: string)
    ensures RegistryLines.SameName(NameOf(DllValue(app, a, orderA)), NameOf(DllValue(app, b, orderB))) <==> Lower(a) == Lower(b)
  {
  }

  /** Each DLL order of the plan is the last value for its DLL. */
  lemma {:induction false} DllOrderIsLast(app: string, names: seq<string>, orders: map<string, string>, dll: string)
    requires forall n :: n in names ==> n in orders
    requires forall i, j :: 0 <= i < j < |names| ==> Lower(names[i]) != Lower(names[j])
    requires dll in names && orders[dll] != ""
    ensures LastFor(DllValues(app, names, orders), CurrentUser, AppKey(app) + "\\DllOverrides", NameOf(DllValue(app, dll, orders[dll])))
      == Some(DllValue(app, dll, orders[dll]))
  {
    hide IsFor, DllValue, AppKey, NameOf, RegistryLines.SameName, LastFor, Lower;
    var init, last := names[..|names| - 1], names[|names| - 1];
    var key, name := AppKey(app) + "\\DllOverrides", NameOf(DllValue(app, dll, orders[dll]));
    var before := DllValues(app, init, orders);
    assert before + [] == before;
    LastForAppend(before, DllValue(app, last, orders[last]), CurrentUser, key, name);
    if dll == last {
      OwnName(app, dll, orders[dll]);
    } else {
      var i: nat :| i < |names| && names[i] == dll;
      assert names == init + [last] && init[i] == dll;
      DllOrderIsLast(app, init, orders, dll);
      assert Lower(names[i]) != Lower(names[|names| - 1]);
      OtherName(app, last, dll, orders[last], orders[dll]);
    }
  }

  lemma OwnName(app: string, dll: string, order: string)
    ensures IsFor(DllValue(app, dll, order), CurrentUser, AppKey(app) + "\\DllOverrides", NameOf(DllValue(app, dll, order)))
  {
    hide AppKey, RegistryWord;
  }

  lemma OtherName(app: string, a: string, b: string, orderA: string, orderB: string)
    requires Lower(a) != Lower(b)
    ensures !IsFor(DllValue(app, a, orderA), CurrentUser, AppKey(app) + "\\DllOverrides", NameOf(DllValue(app, b, orderB)))
  {
    hide AppKey, RegistryWord;
  }

  // ---------------------------------------------------------------- the program's own values do not clash

  /** The headers of a key and of a key below it differ where the first one ends. */
  lemma HeadersApart(key: string, below: string)
    ensures !RegistryLines.HeadersMeet(key, key + "\\" + below)
  {
    var a, b := RegistryLines.Header(key), RegistryLines.Header(key + "\\" + below);
    var n := 1 + |Escape(key)|;
    assert Escape("\\" + below) == "\\\\" + Escape(below) by { assert ("\\" + below)[1..] == below; }
    EscapeConcat(key, "\\" + below);
    assert key + "\\" + below == key + ("\\" + below);
    assert b == "[" + Escape(key) + "\\\\" + Escape(below) + "]";
    assert a[n] == ']' && b[n] == '\\' && |a| == n + 1 < |b|;
    assert Lower(a)[n] == ']' && Lower(b)[n] == '\\';
  }

  lemma OwnValuesApart(app: string, version: string, dll: string, order: string)
    ensures !Clashes(VersionValue(app, version), DllValue(app, dll, order))
  {
    hide RegistryLines.HeadersMeet, AppKey, RegistryWord;
    HeadersApart(AppKey(app), "DllOverrides");
    assert AppKey(app) + "\\" + "DllOverrides" == AppKey(app) + "\\DllOverrides";
  }

  /** The program's DLL values in the list, each for a DLL of the plan. */
  lemma {:induction false} DllValuesAre(app: string, names: seq<string>, orders: map<string, string>)
    requires forall n :: n in names ==> n in orders
    ensures forall v :: v in DllValues(app, names, orders) ==> exists n :: n in names && v == DllValue(app, n, orders[n])
  {
    hide DllValue;
    if names != [] { DllValuesAre(app, names[..|names| - 1], orders); }
  }

  /** What is written after the version of the program does not clash with it. */
  lemma VersionUnclashed(before: seq<RegistryValue>, app: string, version: string, names: seq<string>, orders: map<string, string>)
    requires forall n :: n in names ==> n in orders
    ensures Unclashed(before + AppValues(app, Some(version), names, orders), VersionValue(app, version))
  {
    hide DllValue, VersionValue, Clashes;
    var own, dlls := VersionValue(app, version), DllValues(app, names, orders);
    var all := before + AppValues(app, Some(version), names, orders);
    DllValuesAre(app, names, orders);
    assert all == before + ([own] + dlls);
    forall j | |before| < j < |all| ensures !Clashes(own, all[j]) {
      assert all[j] == dlls[j - |before| - 1] && dlls[j - |before| - 1] in dlls;
      var n :| n in names && all[j] == DllValue(app, n, orders[n]);
      OwnValuesApart(app, version, n, orders[n]);
    }
    assert UnclashedAt(all, own, |before|);
  }

  lemma DllsApart(app: string, a: string, b: string, orderA: string, orderB: string)
    requires Lower(a) != Lower(b)
    ensures !Clashes(DllValue(app, a, orderA), DllValue(app, b, orderB))
  {
    hide RegistryLines.HeadersMeet, AppKey, RegistryWord, Line, RegistryLines.SameName;
    NamesApart(app, a, b, orderA, orderB);
  }

  /** Nor does one DLL order clash with another one of the plan. */
  lemma {:induction false} DllUnclashed(before: seq<RegistryValue>, app: string, names: seq<string>, orders: map<string, string>, dll: string)
    requires forall n :: n in names ==> n in orders
    requires forall i, j :: 0 <= i < j < |names| ==> Lower(names[i]) != Lower(names[j])
    requires dll in names && orders[dll] != ""
    ensures Unclashed(before + DllValues(app, names, orders), DllValue(app, dll, orders[dll]))
  {
    hide DllValue, Clashes, Unclashed, Lower;
    var init, last := names[..|names| - 1], names[|names| - 1];
    var own, shorter := DllValue(app, dll, orders[dll]), before + DllValues(app, init, orders);
    var more := if orders[last] == "" then [] else [DllValue(app, last, orders[last])];
    assert before + DllValues(app, names, orders) == shorter + more;
    if dll == last {
      NothingAfter(shorter, own);
    } else {
      var i: nat :| i < |names| && names[i] == dll;
      assert names == init + [last] && init[i] == dll;
      DllUnclashed(before, app, init, orders, dll);
      DllsApart(app, dll, last, orders[dll], orders[last]);
      UnclashedMore(shorter, own, more);
    }
  }

  lemma NothingAfter(values: seq<RegistryValue>, v: RegistryValue)
    ensures Unclashed(values + [v], v)
  {
    assert UnclashedAt(values + [v], v, |values|);
  }

  lemma UnclashedMore(values: seq<RegistryValue>, v: RegistryValue, more: seq<RegistryValue>)
    requires Unclashed(values, v) && |more| <= 1 && forall w :: w in more ==> !Clashes(v, w)
    ensures Unclashed(values + more, v)
  {
    hide Clashes;
    var i :| UnclashedAt(values, v, i);
    assert UnclashedAt(values + more, v, i);
  }

  lemma DllWins(stack: seq<Settings>, app: string, version: Option<string>, names: seq<string>, orders: map<string, string>, dll: string)
    requires forall n :: n in names ==> n in orders
    requires forall i, j :: 0 <= i < j < |names| ==> Lower(names[i]) != Lower(names[j])
    requires dll in names && orders[dll] != ""
    ensures var own, extra := DllValue(app, dll, orders[dll]), AppValues(app, version, names, orders);
      && Winner(stack, app, extra, CurrentUser, AppKey(app) + "\\DllOverrides", NameOf(own)) == Some(own)
      && Unclashed(ForApp(RegistryOrder(stack), app) + extra, own)
  {
    hide ForApp, DllValues, VersionValue, DllValue, AppKey, NameOf, Unclashed, LastFor, FirstValue, RegistryOrder, Lower;
    var own, layers, first := DllValue(app, dll, orders[dll]), ForApp(RegistryOrder(stack), app), if version.Some? then [VersionValue(app, version.value)] else [];
    var key, name := AppKey(app) + "\\DllOverrides", NameOf(own);
    DllOrderIsLast(app, names, orders, dll);
    LastForConcat(first, DllValues(app, names, orders), CurrentUser, key, name);
    DllUnclashed(layers + first, app, names, orders, dll);
    assert layers + first + DllValues(app, names, orders) == layers + (first + DllValues(app, names, orders));
  }

  /** After the plan's values are written, the line of each DLL order is what a reader finds. */
  lemma DllIsRead(stack: seq<Settings>, app: string, version: Option<string>, names: seq<string>, orders: map<string, string>, dll: string,
      text: string, now: nat)
    requires forall n :: n in names ==> n in orders
    requires forall i, j :: 0 <= i < j < |names| ==> Lower(names[i]) != Lower(names[j])
    requires dll in names && orders[dll] != ""
    requires forall v :: v in PlanValues(RegistryOrder(stack), app, version, names, orders) ==> OneLine(v)
    ensures var own := DllValue(app, dll, orders[dll]);
      ReadText(RegText.Merged(OfHive(PlanValues(RegistryOrder(stack), app, version, names, orders), CurrentUser), text, now), own.key, NameOf(own)) == Some(Line(own))
  {
    hide ForApp, AppValues, OneLine, Line, RegText.Merged, ReadText, DllValue, AppKey, NameOf, Unclashed, Winner, OfHive, RegistryOrder;
    var own := DllValue(app, dll, orders[dll]);
    var key, name := AppKey(app) + "\\DllOverrides", NameOf(own);
    DllWins(stack, app, version, names, orders, dll);
    HighestLayerIsRead(stack, app, AppValues(app, version, names, orders), CurrentUser, key, name, text, now);
  }

  // ---------------------------------------------------------------- the words of the registry

  /** How the registry spells a word of an order. */
  function Spelled(word: string): string {
    if word == "n" || word == "N" then "native" else if word == "b" || word == "B" then "builtin" else word
  }

  lemma WordSpelled(word: string)
    ensures Lower(word) == "n" <==> word == "n" || word == "N"
    ensures Lower(word) == "b" <==> word == "b" || word == "B"
  {
    if |word| == 1 { assert Lower(word) == [LowerChar(word[0])] && word == [word[0]]; }
  }

  /** Words of an order: not empty, without commas, without blanks around them. */
  ghost predicate AreWords(words: seq<string>) {
    forall i :: 0 <= i < |words| ==> words[i] != "" && ',' !in words[i] && Trim(words[i], false) == words[i]
  }

  lemma {:induction false} WordsSpelled(words: seq<string>)
    requires AreWords(words)
    ensures |Words(words)| == |words| && forall i :: 0 <= i < |words| ==> Words(words)[i] == Spelled(words[i])
  {
    hide Trim;
    if words != [] {
      WordsSpelled(words[1..]);
      WordSpelled(words[0]);
    }
  }

  /** An order of words reads as the same words, each as the registry spells it. */
  lemma OrderSpelled(words: seq<string>)
    requires AreWords(words)
    ensures var spelled := Pieces(RegistryWord(Join(words, ",")), ',');
      |spelled| == |words| && forall i :: 0 <= i < |words| ==> spelled[i] == Spelled(words[i])
  {
    hide Words, Join, Pieces, Spelled;
    PlanFold.JoinedPieces(words, ',');
    WordsSpelled(words);
    forall i | 0 <= i < |words| ensures Words(words)[i] != "" && ',' !in Words(words)[i] { SpelledIsPiece(words[i]); }
    PlanFold.JoinedPieces(Words(words), ',');
  }

  lemma SpelledIsPiece(word: string)
    requires word != "" && ',' !in word
    ensures Spelled(word) != "" && ',' !in Spelled(word)
  {
  }

  // ---------------------------------------------------------------- the program's name in keys and names

  /** The placeholder stands nowhere in a text. */
  predicate Without(s: string) { forall k :: 0 <= k < |s| ==> !(APP <= s[k..]) }

  lemma PlaceholderAt(part: string, rest: string, k: nat)
    requires Without(part) && k < |part|
    ensures !(APP <= (part + (APP + rest))[k..])
  {
    var s := part + (APP + rest);
    if k + |APP| <= |part| {
      assert s[k..][..|APP|] == part[k..][..|APP|];
    } else {
      assert s[k..][|part| - k] == s[|part|] == '{';
      assert APP[|part| - k] != '{';
    }
  }

  lemma FoundBehind(part: string, rest: string)
    requires Without(part)
    ensures Find(part + (APP + rest), APP) == |part|
  {
    var s := part + (APP + rest);
    assert s[|part|..] == APP + rest;
    forall k | 0 <= k < |part| ensures !(APP <= s[k..]) { PlaceholderAt(part, rest, k); }
  }

  lemma FilledBehind(part: string, rest: string, app: string)
    requires Without(part)
    ensures Replaced(part + (APP + rest), APP, app) == part + app + Replaced(rest, APP, app)
  {
    hide Find, Without;
    FoundBehind(part, rest);
    var s := part + (APP + rest);
    assert s[..|part|] == part && s[|part| + |APP|..] == rest;
  }

  /** Every placeholder of a text becomes the program's name, and nothing else changes. */
  lemma {:induction false} PlaceholdersAreFilled(parts: seq<string>, app: string)
    requires parts != [] && forall i :: 0 <= i < |parts| ==> Without(parts[i])
    ensures Replaced(Join(parts, APP), APP, app) == Join(parts, app)
  {
    hide Without;
    if |parts| == 1 {
      WithoutIsNotFound(parts[0]);
    } else {
      hide Find, Replaced, APP;
      FilledBehind(parts[0], Join(parts[1..], APP), app);
      PlaceholdersAreFilled(parts[1..], app);
      assert Join(parts, APP) == parts[0] + (APP + Join(parts[1..], APP));
    }
  }

  lemma WithoutIsNotFound(s: string)
    requires Without(s)
    ensures Find(s, APP) == |s|
  {
  }

  /** Both the key and the name of a value are filled, and the rest of it stays. */
  lemma ValuesAreFilled(v: RegistryValue, keyParts: seq<string>, nameParts: seq<string>, app: string)
    requires keyParts != [] && nameParts != [] && v.key == Join(keyParts, "{app}") && v.name == Join(nameParts, "{app}")
    requires (forall i :: 0 <= i < |keyParts| ==> Without(keyParts[i])) && forall i :: 0 <= i < |nameParts| ==> Without(nameParts[i])
    ensures Substituted(v, app) == RegistryValue(v.hive, Join(keyParts, app), Join(nameParts, app), v.kind, v.text)
  {
    hide Without, Join;
    PlaceholdersAreFilled(keyParts, app);
    PlaceholdersAreFilled(nameParts, app);
  }
}
