/** The compatibility database and the inputs of a plan. An absent list or table reads as an
    empty one, as every `?? []` and `?? [:]` of the source does. */
module CompatModel {
  import opened Text

  /** The type names a registry value's line depends on; every other name is written as a string. */
  datatype Kind = RegDword | RegMultiSz | RegBinary | RegSz

  /** The registry files a value can go to. */
  datatype Hive = CurrentUser | LocalMachine | OtherHive

  /** One registry value; `key` lies below the hive and an empty name is the default value. */
  datatype RegistryValue = RegistryValue(hive: Hive, key: string, name: string, kind: Kind, text: string)

  /** The settings every kind of entry can carry. */
  datatype Settings = Settings(
    env: map<string, string>,
    dlls: map<string, string>,
    registry: seq<RegistryValue>,
    version: Option<string>)

  /** How a component reaches the program; Provided stands for every other name. */
  datatype Support = Unsupported | Manual | Payload | Provided

  /** A Windows component of the catalogue. */
  datatype Dependency = Dependency(needs: seq<string>, recipes: seq<string>, support: Support, dlls: seq<string>, settings: Settings)

  /** A reusable fix. */
  datatype Recipe = Recipe(needs: seq<string>, dependencies: seq<string>, settings: Settings)

  type Catalogue = map<string, Dependency>
  type RecipeTable = map<string, Recipe>

  function Elements<T>(s: seq<T>): (r: set<T>) { set x | x in s }

  ghost predicate NoDuplicates<T>(s: seq<T>) { forall i, j :: 0 <= i < j < |s| ==> s[i] != s[j] }

  /** The first place of an item; |items| when it is not there. */
  function PlaceOf(items: seq<string>, item: string): (i: nat)
    ensures i <= |items| && item !in items[..i]
    ensures i < |items| <==> item in items
    ensures i < |items| ==> items[i] == item
  {
    if items == [] || items[0] == item then 0
    else
      var rest := PlaceOf(items[1..], item);
      assert items == [items[0]] + items[1..] && items[..rest + 1] == [items[0]] + items[1..][..rest];
      rest + 1
  }

  /** Some items of a list, in the order of their first places in it. */
  ghost predicate ByFirstPlace(kept: seq<string>, items: seq<string>) {
    forall i, j :: 0 <= i < j < |kept| ==> PlaceOf(items, kept[i]) < PlaceOf(items, kept[j])
  }

  lemma {:induction false} SamePlace(init: seq<string>, last: string, item: string)
    requires item in init
    ensures PlaceOf(init + [last], item) == PlaceOf(init, item) < |init|
  {
    assert init == [init[0]] + init[1..];
    assert (init + [last])[1..] == init[1..] + [last];
    if init[0] != item { SamePlace(init[1..], last, item); }
  }

  lemma {:induction false} NewPlace(init: seq<string>, last: string)
    requires last !in init
    ensures PlaceOf(init + [last], last) == |init|
  {
    if init != [] {
      assert (init + [last])[1..] == init[1..] + [last];
      NewPlace(init[1..], last);
    }
  }

  /** An item behind the others that is not among them keeps the order. */
  lemma ByFirstPlaceNext(kept: seq<string>, init: seq<string>, last: string)
    requires ByFirstPlace(kept, init) && forall item :: item in kept ==> item in init
    ensures ByFirstPlace(kept, init + [last])
    ensures last !in init ==> ByFirstPlace(kept + [last], init + [last])
  {
    hide PlaceOf;
    forall item | item in init { SamePlace(init, last, item); }
    if last !in init { NewPlace(init, last); }
  }
}
