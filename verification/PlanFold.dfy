/** The last steps of `plan`: an empty variable means unset, the DLL overrides join the launch's
    own WINEDLLOVERRIDES, the renderer's options join the launch's own DXMT_CONFIG, and applying
    the result to the process environment. */
module PlanFold {
  import opened Text
  import opened CompatModel
  import opened PlanLayers

  const OVERRIDES := "WINEDLLOVERRIDES"
  const OPTIONS := "DXMT_CONFIG"

  /** The environment half of a plan. */
  datatype Folded = Folded(kept: map<string, string>, unset: seq<string>)

  // ---------------------------------------------------------------- names in order

  /** Strings in the order of their characters. */
  predicate Before(a: string, b: string) {
    b != "" && (a == "" || a[0] < b[0] || (a[0] == b[0] && Before(a[1..], b[1..])))
  }

  lemma {:induction false} BeforeTotal(a: string, b: string)
    ensures a == b || Before(a, b) || Before(b, a)
  {
    if a != "" && b != "" {
      BeforeTotal(a[1..], b[1..]);
      assert a == [a[0]] + a[1..] && b == [b[0]] + b[1..];
    }
  }

  lemma {:induction false} NotBeforeItself(a: string)
    ensures !Before(a, a)
  {
    if a != "" { NotBeforeItself(a[1..]); }
  }

  lemma {:induction false} BeforeTransitive(a: string, b: string, c: string)
    requires Before(a, b) && Before(b, c)
    ensures Before(a, c)
  {
    if a != "" && a[0] == b[0] == c[0] { BeforeTransitive(a[1..], b[1..], c[1..]); }
  }

  ghost predicate InOrder(names: seq<string>) { forall i, j :: 0 <= i < j < |names| ==> Before(names[i], names[j]) }

  /** There is one way to put names in order. */
  lemma {:induction false} OrderIsUnique(a: seq<string>, b: seq<string>)
    requires InOrder(a) && InOrder(b) && Elements(a) == Elements(b)
    ensures a == b
  {
    assert |a| > 0 ==> a[0] in Elements(b);
    assert |b| > 0 ==> b[0] in Elements(a);
    if a != [] {
      FirstIsLeast(a, b);
      forall x ensures x in Elements(a[1..]) <==> x in Elements(b[1..]) {
        NotBeforeItself(a[0]);
        assert x in a[1..] ==> x in Elements(b) && x != a[0];
        assert x in b[1..] ==> x in Elements(a) && x != b[0];
        assert a == [a[0]] + a[1..] && b == [b[0]] + b[1..];
      }
      OrderIsUnique(a[1..], b[1..]);
      assert a == [a[0]] + a[1..] && b == [b[0]] + b[1..];
    }
  }

  lemma FirstIsLeast(a: seq<string>, b: seq<string>)
    requires InOrder(a) && InOrder(b) && Elements(a) == Elements(b) && a != [] && b != []
    ensures a[0] == b[0]
  {
    assert a[0] in Elements(b) && b[0] in Elements(a);
    var i: nat :| i < |b| && b[i] == a[0];
    var j: nat :| j < |a| && a[j] == b[0];
    if i > 0 && j > 0 {
      BeforeTransitive(a[0], b[0], a[0]);
      NotBeforeItself(a[0]);
    }
  }

  /** `sorted(by: { $0.key < $1.key })`. */
  method Sorted(keys: set<string>) returns (names: seq<string>)
    ensures Elements(names) == keys && InOrder(names)
  {
    names := [];
    var left := keys;
    while left != {}
      invariant left <= keys
      invariant Elements(names) == keys - left && InOrder(names)
    {
      var key :| key in left;
      assert key !in Elements(names);
      names := Insert(names, key);
      left := left - {key};
    }
  }

  function Insert(names: seq<string>, key: string): (r: seq<string>)
    requires InOrder(names) && key !in names
    ensures InOrder(r) && Elements(r) == Elements(names) + {key}
  {
    if names == [] then [key]
    else if Before(key, names[0]) then
      assert forall i :: 0 < i < |names| ==> Before(key, names[i]) by {
        forall i | 0 < i < |names| ensures Before(key, names[i]) { BeforeTransitive(key, names[0], names[i]); }
      }
      [key] + names
    else
      BeforeTotal(key, names[0]);
      var rest := Insert(names[1..], key);
      assert Elements(names) == {names[0]} + Elements(names[1..]);
      assert forall i :: 0 <= i < |rest| ==> Before(names[0], rest[i]) by {
        forall i | 0 <= i < |rest| ensures Before(names[0], rest[i]) {
          assert rest[i] in Elements(rest);
          if rest[i] != key { var j :| 0 < j < |names| && names[j] == rest[i]; }
        }
      }
      [names[0]] + rest
  }

  // ---------------------------------------------------------------- the environment

  /** `if value.isEmpty { unset.append(key) } else { environment[key] = value }` */
  method FoldEnv(table: map<string, string>) returns (r: Folded)
    ensures r.kept == map k | k in table && table[k] != "" :: table[k]
    ensures NoDuplicates(r.unset) && forall k :: k in r.unset <==> k in table && table[k] == ""
  {
    var kept: map<string, string>, unset: seq<string> := map[], [];
    var left := table.Keys;
    while left != {}
      invariant left <= table.Keys
      invariant kept == map k | k in table && k !in left && table[k] != "" :: table[k]
      invariant NoDuplicates(unset) && forall k :: k in unset <==> k in table && k !in left && table[k] == ""
    {
      var key :| key in left;
      if table[key] == "" { unset := unset + [key]; } else { kept := kept[key := table[key]]; }
      left := left - {key};
    }
    r := Folded(kept, unset);
  }

  // ---------------------------------------------------------------- WINEDLLOVERRIDES

  /** The DLL an entry is for, folded; an entry of "=" characters only is for none. */
  function EntryName(entry: string): Option<string> {
    var parts := Pieces(entry, '=');
    if parts == [] then None else Some(Lower(parts[0]))
  }

  /** The entries that are not for one of the DLLs. */
  function Others(entries: seq<string>, dlls: set<string>): seq<string> {
    if entries == [] then [] else Other(entries[0], dlls) + Others(entries[1..], dlls)
  }

  function Other(entry: string, dlls: set<string>): seq<string> {
    if EntryName(entry).Some? && EntryName(entry).value in dlls then [] else [entry]
  }

  function Entry(dll: string, order: string): string { dll + "=" + order }

  /** `mergeOverrideOrder`. */
  function MergeOrder(existing: string, dll: string, order: string): string {
    Join(Others(Pieces(existing, ';'), {Lower(dll)}) + [Entry(dll, order)], ";")
  }

  /** The merged variable: one step for each of the plan's DLLs, in name order. */
  function MergeOrders(existing: string, names: seq<string>, orders: map<string, string>): string
    requires forall n :: n in names ==> n in orders
  {
    if names == [] then existing
    else
      var last := names[|names| - 1];
      MergeOrder(MergeOrders(existing, names[..|names| - 1], orders), last, orders[last])
  }

  /** The loop over the sorted overrides. */
  method WriteOverrides(existing: string, orders: map<string, string>) returns (merged: string, ghost names: seq<string>)
    ensures Elements(names) == orders.Keys && InOrder(names)
    ensures forall n :: n in names ==> n in orders
    ensures merged == MergeOrders(existing, names, orders)
  {
    var sorted := Sorted(orders.Keys);
    names := sorted;
    assert forall n :: n in sorted ==> n in Elements(sorted);
    merged := existing;
    for i := 0 to |sorted|
      invariant merged == MergeOrders(existing, sorted[..i], orders)
    {
      assert sorted[..i + 1][..i] == sorted[..i];
      merged := MergeOrder(merged, sorted[i], orders[sorted[i]]);
    }
    assert sorted[..|sorted|] == sorted;
  }

  lemma {:induction false} OthersArePieces(entries: seq<string>, dlls: set<string>, sep: char)
    requires ArePieces(entries, sep)
    ensures ArePieces(Others(entries, dlls), sep)
  {
    if entries != [] { OthersArePieces(entries[1..], dlls, sep); }
  }

  lemma {:induction false} OthersConcat(a: seq<string>, b: seq<string>, dlls: set<string>)
    ensures Others(a + b, dlls) == Others(a, dlls) + Others(b, dlls)
  {
    hide Other;
    if a == [] {
      assert a + b == b;
    } else {
      OthersConcat(a[1..], b, dlls);
      assert (a + b)[1..] == a[1..] + b && (a + b)[0] == a[0];
    }
  }

  lemma {:induction false} OthersTwice(entries: seq<string>, d: set<string>, e: set<string>)
    ensures Others(Others(entries, d), e) == Others(entries, d + e)
  {
    if entries != [] {
      hide EntryName;
      var rest := Others(entries[1..], d);
      OthersTwice(entries[1..], d, e);
      OthersConcat(Other(entries[0], d), rest, e);
      assert [entries[0]][1..] == [] && [entries[0]][0] == entries[0];
      assert Others([entries[0]], e) == Other(entries[0], e) + Others([], e);
    }
  }

  /** One step replaces a DLL's entries by one entry at the end, and leaves every other entry
      alone, exactly when neither the name nor the order holds a ";". */
  lemma MergeOrderReplaces(existing: string, dll: string, order: string)
    ensures Pieces(MergeOrder(existing, dll, order), ';') == Others(Pieces(existing, ';'), {Lower(dll)}) + [Entry(dll, order)]
      <==> ';' !in dll && ';' !in order
  {
    var kept, entry := Others(Pieces(existing, ';'), {Lower(dll)}), Entry(dll, order);
    NonEmptyArePieces(Split(existing, ';'), ';');
    OthersArePieces(Pieces(existing, ';'), {Lower(dll)}, ';');
    PiecesOfJoin(kept, entry, ';');
    assert entry[|dll|] == '=';
    WholePiece(entry, ';');
    assert ';' in entry <==> ';' in dll || ';' in order;
    if kept + Pieces(entry, ';') == kept + [entry] {
      assert Pieces(entry, ';') == (kept + Pieces(entry, ';'))[|kept|..] == (kept + [entry])[|kept|..] == [entry];
    }
  }

  /** A DLL name and an order that form one entry for that DLL. */
  predicate PlainEntry(dll: string, order: string) {
    dll != "" && '=' !in dll && ';' !in dll && ';' !in order
  }

  lemma EntryIsFor(dll: string, order: string)
    requires dll != "" && '=' !in dll
    ensures EntryName(Entry(dll, order)) == Some(Lower(dll))
  {
    SplitPiece(dll, '=', order);
    assert Entry(dll, order) == dll + ['='] + order;
    NonEmptyConcat([dll], Split(order, '='));
    assert [dll][1..] == [];
  }

  function EntriesFor(names: seq<string>, orders: map<string, string>): (r: seq<string>)
    requires forall n :: n in names ==> n in orders
    ensures |r| == |names| && forall i :: 0 <= i < |r| ==> r[i] == Entry(names[i], orders[names[i]])
  {
    seq(|names|, i requires 0 <= i < |names| => Entry(names[i], orders[names[i]]))
  }

  lemma {:induction false} OthersKeeps(entries: seq<string>, dlls: set<string>)
    requires forall i :: 0 <= i < |entries| ==> EntryName(entries[i]).Some? && EntryName(entries[i]).value !in dlls
    ensures Others(entries, dlls) == entries
  {
    if entries != [] { OthersKeeps(entries[1..], dlls); }
  }

  /** After all steps the variable holds the entries for other DLLs in their order, then one
      entry for each of the plan's DLLs, in name order. */
  lemma {:induction false} OneEntryPerDll(existing: string, names: seq<string>, orders: map<string, string>)
    requires forall i :: 0 <= i < |names| ==> names[i] in orders && PlainEntry(names[i], orders[names[i]]) && Lower(names[i]) == names[i]
    requires NoDuplicates(names)
    ensures Pieces(MergeOrders(existing, names, orders), ';') == Others(Pieces(existing, ';'), Elements(names)) + EntriesFor(names, orders)
  {
    hide Pieces, Others, MergeOrder;
    if names == [] {
      OthersNone(Pieces(existing, ';'));
      assert Elements(names) == {};
    } else {
      var n := |names| - 1;
      var init, last := names[..n], names[n];
      OneEntryPerDll(existing, init, orders);
      MergeOrderReplaces(MergeOrders(existing, init, orders), last, orders[last]);
      var kept, ours := Others(Pieces(existing, ';'), Elements(init)), EntriesFor(init, orders);
      OthersConcat(kept, ours, {last});
      OthersTwice(Pieces(existing, ';'), Elements(init), {last});
      assert Elements(init) + {last} == Elements(names) by { assert names == init + [last]; }
      OursAreKept(init, orders, last);
      assert EntriesFor(names, orders) == ours + [Entry(last, orders[last])];
    }
  }

  lemma OursAreKept(names: seq<string>, orders: map<string, string>, other: string)
    requires forall i :: 0 <= i < |names| ==> names[i] in orders && PlainEntry(names[i], orders[names[i]]) && Lower(names[i]) == names[i]
    requires other !in names
    ensures Others(EntriesFor(names, orders), {other}) == EntriesFor(names, orders)
  {
    hide EntryName;
    var ours := EntriesFor(names, orders);
    forall i | 0 <= i < |ours| ensures EntryName(ours[i]) == Some(names[i]) && names[i] != other {
      EntryIsFor(names[i], orders[names[i]]);
    }
    OthersKeeps(ours, {other});
  }

  lemma {:induction false} OthersNone(entries: seq<string>)
    ensures Others(entries, {}) == entries
  {
    if entries != [] { OthersNone(entries[1..]); }
  }

  lemma InOrderDistinct(names: seq<string>)
    requires InOrder(names)
    ensures NoDuplicates(names)
  {
    forall i, j | 0 <= i < j < |names| ensures names[i] != names[j] {
      if names[i] == names[j] { NotBeforeItself(names[i]); }
    }
  }

  // ---------------------------------------------------------------- DXMT_CONFIG

  /** Every part that is not empty, at its first place only. */
  function Once(parts: seq<string>): seq<string> {
    if parts == [] then []
    else
      var before, last := Once(parts[..|parts| - 1]), parts[|parts| - 1];
      before + if last == "" || last in before then [] else [last]
  }

  /** The merged option list. */
  function MergedOptions(existing: string, ours: string): string {
    Join(Once(Pieces(existing, ';') + Pieces(ours, ';')), ";")
  }

  /** `parts.filter { !$0.isEmpty && seen.insert($0).inserted }`, joined again. */
  method MergeOptions(existing: string, ours: string) returns (merged: string)
    ensures merged == MergedOptions(existing, ours)
  {
    hide Pieces, Join;
    var parts := Pieces(existing, ';') + Pieces(ours, ';');
    var kept: seq<string>, seen: set<string> := [], {};
    for i := 0 to |parts|
      invariant kept == Once(parts[..i]) && seen == Elements(kept)
    {
      assert parts[..i + 1][..i] == parts[..i];
      var part := parts[i];
      if part != "" && part !in seen { kept, seen := kept + [part], seen + {part}; }
    }
    assert parts[..|parts|] == parts;
    merged := Join(kept, ";");
  }

  lemma OnceNext(parts: seq<string>, part: string)
    ensures Once(parts + [part]) == Once(parts) + if part == "" || part in Once(parts) then [] else [part]
  {
    assert (parts + [part])[..|parts|] == parts;
  }

  /** No part twice, and the parts that are not empty and no others. */
  lemma {:induction false} OnceHolds(parts: seq<string>)
    ensures NoDuplicates(Once(parts))
    ensures forall part :: part in Once(parts) <==> part in parts && part != ""
  {
    if parts != [] {
      var init, last := parts[..|parts| - 1], parts[|parts| - 1];
      OnceHolds(init);
      OnceNext(init, last);
      hide Once;
      assert parts == init + [last];
    }
  }

  lemma {:induction false} OnceByFirstPlace(parts: seq<string>)
    ensures ByFirstPlace(Once(parts), parts)
  {
    if parts != [] {
      var init, last := parts[..|parts| - 1], parts[|parts| - 1];
      OnceByFirstPlace(init);
      OnceHolds(init);
      OnceNext(init, last);
      hide Once, ByFirstPlace;
      assert parts == init + [last];
      ByFirstPlaceNext(Once(init), init, last);
    }
  }

  /** The parts that are not listed already. */
  function Missing(parts: seq<string>, known: seq<string>): seq<string> {
    if parts == [] then []
    else
      var before, last := Missing(parts[..|parts| - 1], known), parts[|parts| - 1];
      before + if last in known then [] else [last]
  }

  lemma {:induction false} OnceConcat(a: seq<string>, b: seq<string>)
    ensures Once(a + b) == Once(a) + Missing(Once(b), Once(a))
  {
    hide Once, Missing;
    if b == [] {
      NothingMissing(Once(a));
      assert a + b == a;
    } else {
      var init, last := b[..|b| - 1], b[|b| - 1];
      OnceConcat(a, init);
      OnceNext(a + init, last);
      OnceNext(init, last);
      MissingAppend(Once(init), last, Once(a));
      MissingAre(Once(init), Once(a));
      OneMorePart(Once(a), Missing(Once(init), Once(a)), last);
      assert a + b == a + init + [last] && b == init + [last];
    }
  }

  lemma NothingMissing(known: seq<string>)
    ensures Once([]) == [] && known + Missing([], known) == known
  {
  }

  lemma OneMorePart(a: seq<string>, b: seq<string>, part: string)
    ensures a + b + [part] == a + (b + [part]) && a + b + [] == a + b
    ensures part in a + b <==> part in a || part in b
  {
  }

  lemma MissingAppend(parts: seq<string>, part: string, known: seq<string>)
    ensures Missing(parts + [part], known) == Missing(parts, known) + if part in known then [] else [part]
    ensures Missing(parts + [], known) == Missing(parts, known)
  {
    assert (parts + [part])[..|parts|] == parts && parts + [] == parts;
  }

  lemma {:induction false} MissingAre(parts: seq<string>, known: seq<string>)
    ensures forall part :: part in Missing(parts, known) <==> part in parts && part !in known
  {
    if parts != [] {
      MissingAre(parts[..|parts| - 1], known);
      assert parts == parts[..|parts| - 1] + [parts[|parts| - 1]];
    }
  }

  lemma {:induction false} OnceArePieces(parts: seq<string>, sep: char)
    requires ArePieces(parts, sep)
    ensures ArePieces(Once(parts), sep)
  {
    if parts != [] { OnceArePieces(parts[..|parts| - 1], sep); }
  }

  lemma JoinedPieces(parts: seq<string>, sep: char)
    requires ArePieces(parts, sep)
    ensures Pieces(Join(parts, [sep]), sep) == parts
  {
    hide Pieces, Join;
    if parts == [] {
      NothingJoined(sep);
    } else {
      var n := |parts| - 1;
      PiecesOfJoin(parts[..n], parts[n], sep);
      WholePiece(parts[n], sep);
      assert parts == parts[..n] + [parts[n]];
    }
  }

  lemma NothingJoined(sep: char)
    ensures Pieces(Join([], [sep]), sep) == []
  {
    assert [""][1..] == [];
  }

  /** The merged list: the launch's own options first, in order, then those of the plan that are
      new, in order, and none twice. */
  lemma OptionsAreMerged(existing: string, ours: string)
    ensures var merged, own, plans := Pieces(MergedOptions(existing, ours), ';'), Pieces(existing, ';'), Pieces(ours, ';');
      && merged == Once(own) + Missing(Once(plans), Once(own))
      && NoDuplicates(merged) && Elements(merged) == Elements(own) + Elements(plans)
      && ByFirstPlace(merged, own + plans)
  {
    hide Pieces, Once, Missing, ByFirstPlace, NoDuplicates;
    var own, plans := Pieces(existing, ';'), Pieces(ours, ';');
    PiecesArePieces(existing, ';');
    PiecesArePieces(ours, ';');
    assert ArePieces(own + plans, ';');
    OnceArePieces(own + plans, ';');
    JoinedPieces(Once(own + plans), ';');
    OnceConcat(own, plans);
    OnceHolds(own + plans);
    OnceByFirstPlace(own + plans);
    assert "" !in own + plans by { assert forall i :: 0 <= i < |own + plans| ==> (own + plans)[i] != ""; }
  }

  lemma PiecesArePieces(s: string, sep: char)
    ensures ArePieces(Pieces(s, sep), sep)
  {
    NonEmptyArePieces(Split(s, sep), sep);
  }

  // ---------------------------------------------------------------- the fold

  /** A launch's own value of a variable, empty when it has none. */
  function Own(launch: map<string, string>, key: string): string { if key in launch then launch[key] else "" }

  /** The options of the plan join those of the launch, when both have some. */
  function WithOptions(kept: map<string, string>, launch: map<string, string>): map<string, string> {
    if OPTIONS in kept && OPTIONS in launch then kept[OPTIONS := MergedOptions(launch[OPTIONS], kept[OPTIONS])] else kept
  }

  /** The environment a plan ends with: the fold, then the merged overrides over it, then the
      merged options. */
  ghost predicate IsFolded(env: map<string, string>, orders: map<string, string>, merged: string, launch: map<string, string>, f: Folded) {
    && NoDuplicates(f.unset)
    && (forall k :: k in f.unset <==> k in env && env[k] == "")
    && f.kept == WithOptions((map k | k in env && env[k] != "" :: env[k]) + (if orders == map[] then map[] else map[OVERRIDES := merged]), launch)
  }

  method Fold(env: map<string, string>, orders: map<string, string>, launch: map<string, string>)
    returns (f: Folded, ghost names: seq<string>, ghost merged: string)
    ensures Elements(names) == orders.Keys && InOrder(names)
    ensures forall n :: n in names ==> n in orders
    ensures merged == MergeOrders(Own(launch, OVERRIDES), names, orders)
    ensures IsFolded(env, orders, merged, launch, f)
  {
    hide InOrder, MergeOrders, NoDuplicates, MergedOptions;
    f := FoldEnv(env);
    var text;
    text, names := WriteOverrides(Own(launch, OVERRIDES), orders);
    merged := text;
    ghost var folded := f;
    if |orders| > 0 { f := f.(kept := f.kept[OVERRIDES := text]); }
    OverridesJoin(env, orders, text, folded);
    if OPTIONS in f.kept && OPTIONS in launch {
      var options := MergeOptions(launch[OPTIONS], f.kept[OPTIONS]);
      f := f.(kept := f.kept[OPTIONS := options]);
    }
  }

  lemma OverridesJoin(env: map<string, string>, orders: map<string, string>, merged: string, f: Folded)
    requires f.kept == map k | k in env && env[k] != "" :: env[k]
    requires NoDuplicates(f.unset) && forall k :: k in f.unset <==> k in env && env[k] == ""
    ensures IsFolded(env, orders, merged, map[], if |orders| > 0 then f.(kept := f.kept[OVERRIDES := merged]) else f)
  {
  }

  /** A variable is both set and unset exactly when some layer empties WINEDLLOVERRIDES while
      the plan has DLL overrides of its own: those are merged into the variable afterwards. */
  lemma SetAndUnsetMeet(env: map<string, string>, orders: map<string, string>, merged: string, launch: map<string, string>, f: Folded)
    requires IsFolded(env, orders, merged, launch, f)
    ensures f.kept.Keys !! Elements(f.unset) <==> !(orders != map[] && OVERRIDES in env && env[OVERRIDES] == "")
  {
    hide MergedOptions;
    if orders != map[] && OVERRIDES in env && env[OVERRIDES] == "" {
      assert OVERRIDES in f.kept.Keys && OVERRIDES in Elements(f.unset);
    }
  }

  /** A plan with one DLL order and a layer that empties WINEDLLOVERRIDES. */
  lemma EmptiedOverridesAreSet()
    ensures var orders := map["d3d9" := "n"];
      && IsFolded(map[OVERRIDES := ""], orders, MergeOrders("", ["d3d9"], orders), map[], Folded(map[OVERRIDES := "d3d9=n"], [OVERRIDES]))
  {
    var orders := map["d3d9" := "n"];
    assert ["d3d9"][..0] == [];
    NothingJoined(';');
    assert MergeOrder("", "d3d9", "n") == Join([] + [Entry("d3d9", "n")], ";") == "d3d9=n";
    assert MergeOrders("", ["d3d9"], orders) == MergeOrder(MergeOrders("", [], orders), "d3d9", "n");
  }

  /** `applyEnvironment`: the unsets, then the sets. */
  method Apply(f: Folded, process: map<string, string>) returns (out: map<string, string>)
    ensures out == process - Elements(f.unset) + f.kept
  {
    out := process;
    for i := 0 to |f.unset|
      invariant out == process - Elements(f.unset[..i])
    {
      assert f.unset[..i + 1] == f.unset[..i] + [f.unset[i]];
      out := out - {f.unset[i]};
    }
    assert f.unset[..|f.unset|] == f.unset;
    out := WriteEnv(f.kept, out);
  }

  /** What a launch sees of every variable: the value of the highest layer that defines it, with
      an empty value taking it away; a variable no layer defines stays as it was. Two are merged
      with the launch's own: WINEDLLOVERRIDES when the plan has DLL overrides, and the value of
      DXMT_CONFIG. */
  lemma HighestLayerDecides(stack: seq<Settings>, m: Merged, merged: string, launch: map<string, string>, f: Folded, process: map<string, string>, key: string)
    requires Refines(stack, m) && IsFolded(m.env, m.dlls, merged, launch, f)
    ensures Lookup(process - Elements(f.unset) + f.kept, key) ==
      if key == OVERRIDES && m.dlls != map[] then Some(merged)
      else if FirstEnv(stack, key) == None then Lookup(process, key)
      else if FirstEnv(stack, key).value == "" then None
      else if key == OPTIONS && OPTIONS in launch then Some(MergedOptions(launch[OPTIONS], FirstEnv(stack, key).value))
      else FirstEnv(stack, key)
  {
    hide MergedOptions, FirstEnv;
    assert Lookup(m.env, key) == FirstEnv(stack, key);
    assert key in Elements(f.unset) <==> key in f.unset;
  }

  // ---------------------------------------------------------------- one launch after another

  /** `reconcile` and `applyEnvironment` over the launches of one app run: variables an earlier
      plan set and this one does not are taken away before the plan is applied. */
  class LaunchEnvironment {
    var process: map<string, string>
    var names: set<string>

    constructor (initial: map<string, string>)
      ensures process == initial && names == {}
    {
      process, names := initial, {};
    }

    method Launch(f: Folded)
      modifies this
      ensures names == f.kept.Keys
      ensures process == Launched(old(process), old(names), f)
    {
      var stale := names - f.kept.Keys;
      names := f.kept.Keys;
      process := process - stale;
      process := Apply(f, process);
    }
  }

  function Launched(process: map<string, string>, names: set<string>, f: Folded): map<string, string> {
    process - (names - f.kept.Keys) - Elements(f.unset) + f.kept
  }

  /** The process environment after a run of launches. */
  function AfterLaunches(initial: map<string, string>, launches: seq<Folded>): map<string, string> {
    if launches == [] then initial
    else
      var earlier, last := launches[..|launches| - 1], launches[|launches| - 1];
      Launched(AfterLaunches(initial, earlier), SetBy(earlier), last)
  }

  function SetBy(launches: seq<Folded>): set<string> {
    if launches == [] then {} else launches[|launches| - 1].kept.Keys
  }

  /** Some launch of the run set or unset the variable. */
  predicate Touched(launches: seq<Folded>, key: string) {
    exists f :: f in launches && (key in f.kept || key in f.unset)
  }

  /** No variable outlives the launch whose plan set it: after any run of launches a variable
      holds what the last plan set, is gone if only earlier plans set it, and is as it was at
      the start if no plan ever touched it. */
  lemma {:induction false} NothingOutlivesItsLaunch(initial: map<string, string>, launches: seq<Folded>, key: string)
    requires launches != []
    ensures Lookup(AfterLaunches(initial, launches), key) ==
      if key in launches[|launches| - 1].kept then Some(launches[|launches| - 1].kept[key])
      else if Touched(launches, key) then None
      else Lookup(initial, key)
  {
    hide Launched, Touched;
    var n := |launches| - 1;
    var earlier, last := launches[..n], launches[n];
    TouchedByMore(earlier, last, key);
    assert launches == earlier + [last];
    LookupLaunched(AfterLaunches(initial, earlier), SetBy(earlier), last, key);
    if earlier != [] {
      NothingOutlivesItsLaunch(initial, earlier, key);
      if key in SetBy(earlier) { SetIsTouched(earlier, key); }
    } else {
      NoneTouched(key);
    }
  }

  lemma LookupLaunched(process: map<string, string>, names: set<string>, f: Folded, key: string)
    ensures Lookup(Launched(process, names, f), key) ==
      if key in f.kept then Some(f.kept[key]) else if key in names || key in f.unset then None else Lookup(process, key)
  {
  }

  lemma TouchedByMore(launches: seq<Folded>, f: Folded, key: string)
    ensures Touched(launches + [f], key) <==> Touched(launches, key) || key in f.kept || key in f.unset
  {
    if Touched(launches, key) {
      var g :| g in launches && (key in g.kept || key in g.unset);
      assert g in launches + [f];
    }
    assert f in launches + [f];
  }

  lemma SetIsTouched(launches: seq<Folded>, key: string)
    requires key in SetBy(launches)
    ensures Touched(launches, key)
  {
    assert launches[|launches| - 1] in launches;
  }

  lemma NoneTouched(key: string)
    ensures !Touched([], key)
  {
  }
}
