/** Launch after launch in one app run, where each plan reads WINEDLLOVERRIDES and DXMT_CONFIG from
    the environment the earlier launches left: what of an earlier game is still in them. */
module LaunchRuns {
  import opened Text
  import opened CompatModel
  import opened PlanFold

  /** What the layers of one game give: its variables, its DLL orders and their names in order. */
  datatype Game = Game(env: map<string, string>, orders: map<string, string>, names: seq<string>)

  /** The orders of a game are single entries for DLLs with folded names. */
  ghost predicate Plain(g: Game) {
    && Elements(g.names) == g.orders.Keys && InOrder(g.names) && NoDuplicates(g.names)
    && (forall n :: n in g.names ==> n in g.orders)
    && forall i :: 0 <= i < |g.names| ==> g.names[i] in g.orders && PlainEntry(g.names[i], g.orders[g.names[i]]) && Lower(g.names[i]) == g.names[i]
  }

  /** `compatLaunch`: what a plan is told of the process environment. */
  function Inherited(process: map<string, string>): map<string, string> {
    map[OVERRIDES := Own(process, OVERRIDES), OPTIONS := Own(process, OPTIONS)]
  }

  /** The plan of a game, made in a process environment. */
  ghost predicate PlannedIn(g: Game, process: map<string, string>, f: Folded)
    requires Plain(g)
  {
    IsFolded(g.env, g.orders, MergeOrders(Own(process, OVERRIDES), g.names, g.orders), Inherited(process), f)
  }

  /** Every plan of the run was made in the environment that the launches before it left. */
  ghost predicate Fed(initial: map<string, string>, games: seq<Game>, launches: seq<Folded>) {
    && |games| == |launches|
    && forall i :: 0 <= i < |games| ==> Plain(games[i]) && PlannedIn(games[i], AfterLaunches(initial, launches[..i]), launches[i])
  }

  lemma FedBefore(initial: map<string, string>, games: seq<Game>, launches: seq<Folded>)
    requires Fed(initial, games, launches) && games != []
    ensures var n := |games| - 1;
      Fed(initial, games[..n], launches[..n]) && Plain(games[n]) && PlannedIn(games[n], AfterLaunches(initial, launches[..n]), launches[n])
  {
    hide Plain, PlannedIn, AfterLaunches;
    var n := |games| - 1;
    forall i | 0 <= i < n ensures launches[..n][..i] == launches[..i] {}
  }

  /** The game's plan sets the variable. */
  predicate SetsOverrides(g: Game) { g.orders != map[] || (OVERRIDES in g.env && g.env[OVERRIDES] != "") }

  predicate SetsOptions(g: Game) { OPTIONS in g.env && g.env[OPTIONS] != "" }

  lemma PlanSets(g: Game, process: map<string, string>, f: Folded)
    requires Plain(g) && PlannedIn(g, process, f)
    ensures OVERRIDES in f.kept <==> SetsOverrides(g)
    ensures OPTIONS in f.kept <==> SetsOptions(g)
    ensures g.orders != map[] ==> f.kept[OVERRIDES] == MergeOrders(Own(process, OVERRIDES), g.names, g.orders)
    ensures g.orders == map[] && SetsOverrides(g) ==> f.kept[OVERRIDES] == g.env[OVERRIDES]
    ensures SetsOptions(g) ==> f.kept[OPTIONS] == MergedOptions(Own(process, OPTIONS), g.env[OPTIONS])
    ensures OVERRIDES !in f.kept ==> (OVERRIDES in f.unset <==> OVERRIDES in g.env)
    ensures OPTIONS !in f.kept ==> (OPTIONS in f.unset <==> OPTIONS in g.env)
  {
    hide MergeOrders, MergedOptions, Plain, NoDuplicates;
  }

  // ---------------------------------------------------------------- WINEDLLOVERRIDES

  /** The entries of WINEDLLOVERRIDES after a run of launches: a game with DLL orders puts its own
      behind those for other DLLs that it finds there; the variable is taken away by a game without
      orders when that game empties it or the launch before had set it. */
  ghost function EntriesAfter(initial: map<string, string>, games: seq<Game>): seq<string>
    requires forall i :: 0 <= i < |games| ==> Plain(games[i])
  {
    if games == [] then Pieces(Own(initial, OVERRIDES), ';')
    else
      var n := |games| - 1;
      var before, g := EntriesAfter(initial, games[..n]), games[n];
      assert Plain(g);
      if g.orders != map[] then Others(before, Elements(g.names)) + EntriesFor(g.names, g.orders)
      else if SetsOverrides(g) then Pieces(g.env[OVERRIDES], ';')
      else if OVERRIDES in g.env || (n > 0 && SetsOverrides(games[n - 1])) then []
      else before
  }

  lemma OwnAfter(process: map<string, string>, names: set<string>, f: Folded, key: string)
    ensures Own(Launched(process, names, f), key) ==
      if key in f.kept then f.kept[key] else if key in names || key in f.unset then "" else Own(process, key)
  {
    LookupLaunched(process, names, f, key);
  }

  lemma NoPieces(sep: char)
    ensures Pieces("", sep) == []
  {
    assert [""][1..] == [];
  }

  /** In every run of launches the variable holds exactly these entries. */
  lemma {:induction false} OverridesAfter(initial: map<string, string>, games: seq<Game>, launches: seq<Folded>)
    requires Fed(initial, games, launches)
    ensures Pieces(Own(AfterLaunches(initial, launches), OVERRIDES), ';') == EntriesAfter(initial, games)
  {
    hide Pieces, Launched, Plain, PlannedIn, Own, Others, EntriesFor, MergeOrders;
    if games != [] {
      var n := |games| - 1;
      FedBefore(initial, games, launches);
      OverridesAfter(initial, games[..n], launches[..n]);
      var process := AfterLaunches(initial, launches[..n]);
      PlanSets(games[n], process, launches[n]);
      OwnAfter(process, SetBy(launches[..n]), launches[n], OVERRIDES);
      NoPieces(';');
      SetBefore(initial, games, launches);
      if games[n].orders != map[] { EntriesOfGame(Own(process, OVERRIDES), games[n]); }
    }
  }

  lemma EntriesOfGame(existing: string, g: Game)
    requires Plain(g)
    ensures Pieces(MergeOrders(existing, g.names, g.orders), ';') == Others(Pieces(existing, ';'), Elements(g.names)) + EntriesFor(g.names, g.orders)
  {
    hide Pieces, Others, MergeOrders, PlainEntry;
    OneEntryPerDll(existing, g.names, g.orders);
  }

  /** What the launch before the last one set. */
  lemma SetBefore(initial: map<string, string>, games: seq<Game>, launches: seq<Folded>)
    requires Fed(initial, games, launches) && games != []
    ensures var n := |games| - 1;
      && (OVERRIDES in SetBy(launches[..n]) <==> n > 0 && SetsOverrides(games[n - 1]))
      && (OPTIONS in SetBy(launches[..n]) <==> n > 0 && SetsOptions(games[n - 1]))
  {
    hide Plain, PlannedIn, AfterLaunches;
    var n := |games| - 1;
    if n > 0 {
      assert Plain(games[n - 1]) && PlannedIn(games[n - 1], AfterLaunches(initial, launches[..n - 1]), launches[n - 1]);
      PlanSets(games[n - 1], AfterLaunches(initial, launches[..n - 1]), launches[n - 1]);
    }
  }

  /** The order the last of the games gives that gives the DLL one. */
  function LastOrder(games: seq<Game>, dll: string): Option<string> {
    if games == [] then None
    else
      var g := games[|games| - 1];
      if dll in g.orders then Some(g.orders[dll]) else LastOrder(games[..|games| - 1], dll)
  }

  /** An earlier game's entry follows into later sessions: while every game since has DLL orders,
      the entry for a DLL is the one of the last game that has an order for it, whichever game runs
      now, and the entry from before them when none has. */
  lemma {:induction false} EntryFollows(initial: map<string, string>, games: seq<Game>, from: nat, entry: string, dll: string)
    requires forall i :: 0 <= i < |games| ==> Plain(games[i])
    requires from <= |games| && forall i :: from <= i < |games| ==> games[i].orders != map[]
    requires EntryName(entry) == Some(dll)
    ensures entry in EntriesAfter(initial, games) <==>
      match LastOrder(games[from..], dll) {
        case Some(order) => entry == Entry(dll, order)
        case None => entry in EntriesAfter(initial, games[..from])
      }
    decreases |games|
  {
    hide Plain, EntryName, Entry, Others, EntriesFor, Pieces, Elements;
    if from == |games| {
      assert games[..from] == games && games[from..] == [];
    } else {
      var n := |games| - 1;
      EntryFollows(initial, games[..n], from, entry, dll);
      EntriesOfOneMore(initial, games, entry, dll);
      LastOrderOfOneMore(games, from, dll);
    }
  }

  lemma EntriesOfOneMore(initial: map<string, string>, games: seq<Game>, entry: string, dll: string)
    requires games != [] && forall i :: 0 <= i < |games| ==> Plain(games[i])
    requires games[|games| - 1].orders != map[] && EntryName(entry) == Some(dll)
    ensures var g := games[|games| - 1];
      entry in EntriesAfter(initial, games) <==>
        if dll in g.orders then entry == Entry(dll, g.orders[dll]) else entry in EntriesAfter(initial, games[..|games| - 1])
  {
    hide Plain, EntryName, Entry, Others, EntriesFor, Pieces, Elements;
    var g := games[|games| - 1];
    OthersHold(EntriesAfter(initial, games[..|games| - 1]), Elements(g.names), entry);
    OwnEntries(g, entry, dll);
  }

  lemma LastOrderOfOneMore(games: seq<Game>, from: nat, dll: string)
    requires from < |games|
    ensures var n := |games| - 1;
      && LastOrder(games[from..], dll) == (if dll in games[n].orders then Some(games[n].orders[dll]) else LastOrder(games[..n][from..], dll))
      && games[..n][..from] == games[..from]
  {
    var n := |games| - 1;
    assert games[from..][..n - from] == games[..n][from..] && games[from..][n - from] == games[n];
  }

  lemma {:induction false} OthersHold(entries: seq<string>, dlls: set<string>, entry: string)
    ensures entry in Others(entries, dlls) <==> entry in entries && Other(entry, dlls) == [entry]
  {
    hide EntryName;
    if entries != [] { OthersHold(entries[1..], dlls, entry); }
  }

  lemma OwnEntries(g: Game, entry: string, dll: string)
    requires Plain(g) && EntryName(entry) == Some(dll)
    ensures dll in Elements(g.names) <==> dll in g.orders
    ensures Other(entry, Elements(g.names)) == [entry] <==> dll !in g.orders
    ensures entry in EntriesFor(g.names, g.orders) <==> dll in g.orders && entry == Entry(dll, g.orders[dll])
  {
    hide EntryName, Entry;
    var own := EntriesFor(g.names, g.orders);
    forall i | 0 <= i < |own| ensures EntryName(own[i]) == Some(g.names[i]) {
      hide Entry;
      EntryIsFor(g.names[i], g.orders[g.names[i]]);
    }
    if dll in g.orders {
      assert dll in Elements(g.names);
      var i :| 0 <= i < |g.names| && g.names[i] == dll;
      assert own[i] == Entry(dll, g.orders[dll]);
    }
  }

  /** A game that orders one DLL, and one that orders another. */
  function OneDll(dll: string): Game { Game(map[], map[dll := "n"], [dll]) }

  /** The first game's DLL is overridden in the second game's session too. */
  lemma EarlierGameFollows(initial: map<string, string>, launches: seq<Folded>)
    requires Fed(initial, [OneDll("d3d9"), OneDll("dinput8")], launches)
    ensures "d3d9=n" in Pieces(Own(AfterLaunches(initial, launches), OVERRIDES), ';')
  {
    hide Pieces, AfterLaunches, PlannedIn, Plain;
    var games := [OneDll("d3d9"), OneDll("dinput8")];
    OverridesAfter(initial, games, launches);
    EntryIsFor("d3d9", "n");
    assert Entry("d3d9", "n") == "d3d9=n" && Lower("d3d9") == "d3d9";
    assert games[0].orders != map[] && games[1].orders != map[] by { assert "d3d9" in games[0].orders && "dinput8" in games[1].orders; }
    assert games[0..] == games && games[..1] == [OneDll("d3d9")];
    assert LastOrder(games, "d3d9") == LastOrder(games[..1], "d3d9") == Some("n");
    EntryFollows(initial, games, 0, "d3d9=n", "d3d9");
  }

  // ---------------------------------------------------------------- DXMT_CONFIG

  /** The options of DXMT_CONFIG after a run of launches. */
  function OptionsAfter(initial: map<string, string>, games: seq<Game>): seq<string> {
    if games == [] then Pieces(Own(initial, OPTIONS), ';')
    else
      var n := |games| - 1;
      var before, g := OptionsAfter(initial, games[..n]), games[n];
      if SetsOptions(g) then Once(before + Pieces(g.env[OPTIONS], ';'))
      else if OPTIONS in g.env || (n > 0 && SetsOptions(games[n - 1])) then []
      else before
  }

  /** In every run of launches: the options of earlier games stay in front of those of the game that
      runs now, until a game without options of its own is launched. */
  lemma {:induction false} OptionsCarryOver(initial: map<string, string>, games: seq<Game>, launches: seq<Folded>)
    requires Fed(initial, games, launches)
    ensures Pieces(Own(AfterLaunches(initial, launches), OPTIONS), ';') == OptionsAfter(initial, games)
  {
    hide Pieces, Launched, Plain, PlannedIn, Own, Once, MergeOrders, MergedOptions;
    if games != [] {
      var n := |games| - 1;
      FedBefore(initial, games, launches);
      OptionsCarryOver(initial, games[..n], launches[..n]);
      var process := AfterLaunches(initial, launches[..n]);
      PlanSets(games[n], process, launches[n]);
      OwnAfter(process, SetBy(launches[..n]), launches[n], OPTIONS);
      NoPieces(';');
      SetBefore(initial, games, launches);
      if SetsOptions(games[n]) { MergedPieces(Own(process, OPTIONS), games[n].env[OPTIONS]); }
    }
  }

  lemma MergedPieces(existing: string, ours: string)
    ensures Pieces(MergedOptions(existing, ours), ';') == Once(Pieces(existing, ';') + Pieces(ours, ';'))
  {
    hide Pieces, Once;
    PiecesArePieces(existing, ';');
    PiecesArePieces(ours, ';');
    OnceArePieces(Pieces(existing, ';') + Pieces(ours, ';'), ';');
    JoinedPieces(Once(Pieces(existing, ';') + Pieces(ours, ';')), ';');
  }
}
