/** Folding directory spellings (`SteamInstall.safeRelativePath`): the paths of one install share a
    map from folded directories to the first spelling seen. */
module PathSpelling {
  import opened Text

  type Spellings = map<string, string>

  function Slashes(s: string): string {
    if s == "" then "" else [if s[0] == '\\' then '/' else s[0]] + Slashes(s[1..])
  }

  predicate SafePart(part: string) {
    part != "." && part != ".." && ':' !in part && forall i :: 0 <= i < |part| ==> part[i] >= ' '
  }

  /** The guard: a bounded path of safe parts. */
  predicate Accepted(name: string) {
    var parts := Pieces(Slashes(name), '/');
    parts != [] && |parts| <= 64 && |name| < 1024 && forall i :: 0 <= i < |parts| ==> SafePart(parts[i])
  }

  /** The first `n` directories of a path, spelled as the map has them, and the map with those that
      are new. */
  datatype Built = Built(parts: seq<string>, folded: Spellings)

  function Path(parts: seq<string>): string { Join(parts, "/") }

  function AddPart(b: Built, part: string): Built {
    var longer := b.parts + [part];
    var key := Lower(Path(longer));
    if key in b.folded then Built(Pieces(b.folded[key], '/'), b.folded) else Built(longer, b.folded[key := Path(longer)])
  }

  function Fold(parts: seq<string>, n: nat, folded: Spellings): Built
    requires n <= |parts|
  {
    if n == 0 then Built([], folded) else AddPart(Fold(parts, n - 1, folded), parts[n - 1])
  }

  /** The directories are folded; the last part stays as it is. */
  function Folded(name: string, folded: Spellings): Built
    requires Pieces(Slashes(name), '/') != []
  {
    var parts := Pieces(Slashes(name), '/');
    var b := Fold(parts, |parts| - 1, folded);
    b.(parts := b.parts + [parts[|parts| - 1]])
  }

  /** `safeRelativePath` */
  method SafeRelativePath(name: string, before: Spellings) returns (path: Option<string>, folded: Spellings)
    ensures !Accepted(name) ==> path == None && folded == before
    ensures Accepted(name) ==> path == Some(Path(Folded(name, before).parts)) && folded == Folded(name, before).folded
  {
    hide Pieces;
    folded := before;
    var parts := Pieces(Slashes(name), '/');
    if !Accepted(name) { return None, before; }
    var built: seq<string> := [];
    for index := 0 to |parts| - 1
      invariant Built(built, folded) == Fold(parts, index, before)
    {
      var longer := built + [parts[index]];
      var key := Lower(Path(longer));
      if key in folded {
        built := Pieces(folded[key], '/');
      } else {
        built := longer;
        folded := folded[key := Path(built)];
      }
    }
    built := built + [parts[|parts| - 1]];
    path := Some(Path(built));
  }

  // ---------------------------------------------------------------- the map

  function LowerAll(parts: seq<string>): (r: seq<string>)
    ensures |r| == |parts| && forall i :: 0 <= i < |r| ==> r[i] == Lower(parts[i])
  {
    seq(|parts|, i requires 0 <= i < |parts| => Lower(parts[i]))
  }

  lemma {:induction false} LowerPath(parts: seq<string>)
    ensures Lower(Path(parts)) == Path(LowerAll(parts))
  {
    if |parts| > 1 {
      LowerPath(parts[1..]);
      LowerConcat(parts[0] + "/", Path(parts[1..]));
      LowerConcat(parts[0], "/");
      assert LowerAll(parts)[1..] == LowerAll(parts[1..]);
      assert Lower("/") == "/";
    } else if |parts| == 0 {
      assert Lower("") == "";
    }
  }

  lemma LowerKeepsPart(part: string)
    requires part != "" && '/' !in part
    ensures Lower(part) != "" && '/' !in Lower(part)
  {
    assert |Lower(part)| == |part|;
  }

  /** A path of plain parts determines them. */
  lemma PathParts(parts: seq<string>)
    requires ArePieces(parts, '/')
    ensures Pieces(Path(parts), '/') == parts
  {
    if parts == [] {
      assert Split("", '/') == [""];
      assert NonEmpty([""]) == [];
    } else {
      var init, last := parts[..|parts| - 1], parts[|parts| - 1];
      assert parts == init + [last];
      PiecesOfJoin(init, last, '/');
      WholePiece(last, '/');
    }
  }

  /** Paths that are equal up to letter case have parts that are. */
  lemma SameLowerParts(a: seq<string>, b: seq<string>)
    requires ArePieces(a, '/') && ArePieces(b, '/') && Lower(Path(a)) == Lower(Path(b))
    ensures LowerAll(a) == LowerAll(b)
  {
    LowerPath(a);
    LowerPath(b);
    LowerPieces(a);
    LowerPieces(b);
    PathParts(LowerAll(a));
    PathParts(LowerAll(b));
  }

  lemma LowerPieces(parts: seq<string>)
    requires ArePieces(parts, '/')
    ensures ArePieces(LowerAll(parts), '/')
  {
    forall i | 0 <= i < |parts| ensures LowerAll(parts)[i] != "" && '/' !in LowerAll(parts)[i] { LowerKeepsPart(parts[i]); }
  }

  /** The map has this directory in this spelling. */
  ghost predicate Spelled(folded: Spellings, parts: seq<string>) {
    ArePieces(parts, '/') && Lower(Path(parts)) in folded && folded[Lower(Path(parts))] == Path(parts)
  }

  /** Every entry is a directory that folds to its key, and every directory above it is spelled in the
      map the way it is in the entry. */
  ghost predicate Inv(folded: Spellings) {
    forall key :: key in folded ==> EntryIs(folded, key)
  }

  ghost predicate EntryIs(folded: Spellings, key: string)
    requires key in folded
  {
    var parts := Pieces(folded[key], '/');
    && parts != [] && Path(parts) == folded[key] && Lower(folded[key]) == key
    && forall k :: 1 <= k <= |parts| ==> Spelled(folded, parts[..k])
  }

  /** What holds of the directories built so far. */
  ghost predicate BuiltFrom(b: Built, parts: seq<string>, before: Spellings) {
    && Inv(b.folded)
    && ArePieces(b.parts, '/')
    && LowerAll(b.parts) == LowerAll(parts)
    && (forall k :: 1 <= k <= |b.parts| ==> Spelled(b.folded, b.parts[..k]))
    && (forall key :: key in before ==> key in b.folded && b.folded[key] == before[key])
  }

  lemma SpelledStays(folded: Spellings, key: string, value: string, parts: seq<string>)
    requires key !in folded && Spelled(folded, parts)
    ensures Spelled(folded[key := value], parts)
  {
  }

  lemma KnownPart(b: Built, parts: seq<string>, part: string, before: Spellings)
    requires BuiltFrom(b, parts, before) && part != "" && '/' !in part
    requires Lower(Path(b.parts + [part])) in b.folded
    ensures BuiltFrom(AddPart(b, part), parts + [part], before)
  {
    hide Path, Pieces, Lower;
    var longer := b.parts + [part];
    var key := Lower(Path(longer));
    assert EntryIs(b.folded, key);
    var known := Pieces(b.folded[key], '/');
    assert known[..|known|] == known;
    SameLowerParts(known, longer);
    assert LowerAll(longer) == LowerAll(b.parts) + [Lower(part)];
    assert LowerAll(parts + [part]) == LowerAll(parts) + [Lower(part)];
  }

  lemma NewPart(b: Built, parts: seq<string>, part: string, before: Spellings)
    requires BuiltFrom(b, parts, before) && part != "" && '/' !in part
    requires Lower(Path(b.parts + [part])) !in b.folded
    ensures BuiltFrom(AddPart(b, part), parts + [part], before)
  {
    hide Path, Pieces, Lower;
    var longer := b.parts + [part];
    var key, value := Lower(Path(longer)), Path(longer);
    var after := b.folded[key := value];
    PathParts(longer);
    forall k | 1 <= k <= |longer| ensures Spelled(after, longer[..k]) {
      if k < |longer| {
        assert longer[..k] == b.parts[..k];
        SpelledStays(b.folded, key, value, b.parts[..k]);
      } else {
        assert longer[..k] == longer;
      }
    }
    forall other | other in after ensures EntryIs(after, other) {
      if other != key {
        assert EntryIs(b.folded, other);
        var old_ := Pieces(b.folded[other], '/');
        forall k | 1 <= k <= |old_| ensures Spelled(after, old_[..k]) { SpelledStays(b.folded, key, value, old_[..k]); }
      }
    }
    assert LowerAll(longer) == LowerAll(b.parts) + [Lower(part)];
    assert LowerAll(parts + [part]) == LowerAll(parts) + [Lower(part)];
  }

  lemma {:induction false} FoldBuilds(parts: seq<string>, n: nat, folded: Spellings)
    requires n <= |parts| && ArePieces(parts, '/') && Inv(folded)
    ensures BuiltFrom(Fold(parts, n, folded), parts[..n], folded)
  {
    hide BuiltFrom, AddPart;
    if n == 0 {
      NothingBuilt(folded);
      assert parts[..0] == [];
    } else {
      FoldBuilds(parts, n - 1, folded);
      var b := Fold(parts, n - 1, folded);
      assert parts[..n] == parts[..n - 1] + [parts[n - 1]];
      if Lower(Path(b.parts + [parts[n - 1]])) in b.folded {
        KnownPart(b, parts[..n - 1], parts[n - 1], folded);
      } else {
        NewPart(b, parts[..n - 1], parts[n - 1], folded);
      }
    }
  }

  lemma NothingBuilt(folded: Spellings)
    requires Inv(folded)
    ensures BuiltFrom(Built([], folded), [], folded)
  {
  }

  // ---------------------------------------------------------------- one call

  /** An accepted path comes out with as many parts as it has, equal to them up to letter case, with
      the last one as it is, no part that leaves the folder, and every directory spelled as in the map;
      the map keeps every entry it had. */
  lemma AcceptedPathIsFolded(name: string, before: Spellings)
    requires Accepted(name) && Inv(before)
    ensures var parts, r := Pieces(Slashes(name), '/'), Folded(name, before);
      && Inv(r.folded)
      && (forall key :: key in before ==> key in r.folded && r.folded[key] == before[key])
      && ArePieces(r.parts, '/') && Pieces(Path(r.parts), '/') == r.parts
      && |r.parts| == |parts| && LowerAll(r.parts) == LowerAll(parts) && r.parts[|r.parts| - 1] == parts[|parts| - 1]
      && Lower(Path(r.parts)) == Lower(Path(parts))
      && (forall i :: 0 <= i < |r.parts| ==> r.parts[i] != "." && r.parts[i] != "..")
      && (forall k :: 1 <= k < |r.parts| ==> Spelled(r.folded, r.parts[..k]))
  {
    hide Fold, Path, Pieces, Spelled, Inv, SafePart;
    var parts := Pieces(Slashes(name), '/');
    SlashedPieces(name);
    var n := |parts| - 1;
    FoldBuilds(parts, n, before);
    var b := Fold(parts, n, before);
    var r := b.parts + [parts[n]];
    assert |b.parts| == |LowerAll(b.parts)| == |LowerAll(parts[..n])| == n;
    forall k | 1 <= k < |r| ensures Spelled(b.folded, r[..k]) { assert r[..k] == b.parts[..k]; }
    assert LowerAll(r) == LowerAll(b.parts) + [Lower(parts[n])];
    assert parts == parts[..n] + [parts[n]];
    assert LowerAll(parts) == LowerAll(parts[..n]) + [Lower(parts[n])];
    PathParts(r);
    LowerPath(r);
    LowerPath(parts);
    forall i | 0 <= i < |r| ensures r[i] != "." && r[i] != ".." {
      assert LowerAll(r)[i] == LowerAll(parts)[i];
      NoDotPart(parts[i], r[i]);
    }
  }

  lemma SlashedPieces(name: string)
    ensures ArePieces(Pieces(Slashes(name), '/'), '/')
  {
    var parts := Split(Slashes(name), '/');
    assert forall i :: 0 <= i < |parts| ==> parts[i] in parts;
    NonEmptyArePieces(parts, '/');
  }

  lemma NoDotPart(part: string, spelled: string)
    requires SafePart(part) && Lower(spelled) == Lower(part)
    ensures spelled != "." && spelled != ".."
  {
    assert Lower(".") == "." && Lower("..") == "..";
    if spelled == "." || spelled == ".." { LowerDots(part, spelled); }
  }

  lemma LowerDots(part: string, dots: string)
    requires (dots == "." || dots == "..") && Lower(part) == dots
    ensures part == dots
  {
    forall i | 0 <= i < |part| ensures part[i] == dots[i] {
      assert Lower(part)[i] == LowerChar(part[i]);
    }
  }

  // ---------------------------------------------------------------- many calls

  /** The map after a list of calls that share it. */
  function AfterCalls(names: seq<string>): Spellings {
    if names == [] then map[]
    else
      var before, name := AfterCalls(names[..|names| - 1]), names[|names| - 1];
      if Accepted(name) then Folded(name, before).folded else before
  }

  /** What the call with this number returns. */
  function ResultOf(names: seq<string>, i: nat): seq<string>
    requires i < |names| && Accepted(names[i])
  {
    Folded(names[i], AfterCalls(names[..i])).parts
  }

  /** After any calls the map is closed and consistent. */
  lemma {:induction false} MapStaysConsistent(names: seq<string>)
    ensures Inv(AfterCalls(names))
  {
    hide Inv, Accepted, Folded;
    if names != [] {
      MapStaysConsistent(names[..|names| - 1]);
      if Accepted(names[|names| - 1]) { AcceptedPathIsFolded(names[|names| - 1], AfterCalls(names[..|names| - 1])); }
    } else {
      EmptyIsConsistent();
    }
  }

  lemma EmptyIsConsistent()
    ensures Inv(map[])
  {
  }

  /** Entries are never overwritten. */
  lemma {:induction false} EntriesStay(names: seq<string>, n: nat, key: string)
    requires n <= |names| && key in AfterCalls(names[..n])
    ensures key in AfterCalls(names) && AfterCalls(names)[key] == AfterCalls(names[..n])[key]
  {
    hide Inv, Accepted, Folded;
    if n == |names| {
      assert names[..n] == names;
    } else {
      var init := names[..|names| - 1];
      assert init[..n] == names[..n];
      EntriesStay(init, n, key);
      MapStaysConsistent(init);
      if Accepted(names[|names| - 1]) { AcceptedPathIsFolded(names[|names| - 1], AfterCalls(init)); }
    }
  }

  /** The directories of every result are spelled as the map has them in the end. */
  lemma ResultsAreSpelled(names: seq<string>, i: nat, k: nat)
    requires i < |names| && Accepted(names[i]) && 1 <= k < |ResultOf(names, i)|
    ensures Spelled(AfterCalls(names), ResultOf(names, i)[..k])
  {
    hide Inv, Accepted, Folded, Path;
    MapStaysConsistent(names[..i]);
    AcceptedPathIsFolded(names[i], AfterCalls(names[..i]));
    assert names[..i + 1][..i] == names[..i];
    EntriesStay(names, i + 1, Lower(Path(ResultOf(names, i)[..k])));
  }

  /** Any two accepted paths whose first `k` directories are equal up to letter case come out with
      those directories spelled the same. */
  lemma DirectoriesAgree(names: seq<string>, i: nat, j: nat, k: nat)
    requires i < |names| && j < |names| && Accepted(names[i]) && Accepted(names[j])
    requires var p, q := Pieces(Slashes(names[i]), '/'), Pieces(Slashes(names[j]), '/');
      1 <= k < |p| && k < |q| && LowerAll(p[..k]) == LowerAll(q[..k])
    ensures k < |ResultOf(names, i)| && k < |ResultOf(names, j)| && ResultOf(names, i)[..k] == ResultOf(names, j)[..k]
  {
    hide Inv, Accepted, Folded, Path, Pieces;
    MapStaysConsistent(names[..i]);
    MapStaysConsistent(names[..j]);
    AcceptedPathIsFolded(names[i], AfterCalls(names[..i]));
    AcceptedPathIsFolded(names[j], AfterCalls(names[..j]));
    var a, b := ResultOf(names, i)[..k], ResultOf(names, j)[..k];
    ResultsAreSpelled(names, i, k);
    ResultsAreSpelled(names, j, k);
    LowerTake(ResultOf(names, i), Pieces(Slashes(names[i]), '/'), k);
    LowerTake(ResultOf(names, j), Pieces(Slashes(names[j]), '/'), k);
    LowerPath(a);
    LowerPath(b);
    PathParts(a);
    PathParts(b);
  }

  lemma LowerTake(a: seq<string>, b: seq<string>, k: nat)
    requires LowerAll(a) == LowerAll(b) && k <= |a| && k <= |b|
    ensures LowerAll(a[..k]) == LowerAll(b[..k])
  {
    forall i | 0 <= i < k ensures LowerAll(a[..k])[i] == LowerAll(b[..k])[i] {
      assert LowerAll(a)[i] == LowerAll(b)[i];
    }
  }

  // ---------------------------------------------------------------- which paths are accepted

  lemma {:induction false} SlashesConcat(a: string, b: string)
    ensures Slashes(a + b) == Slashes(a) + Slashes(b)
  {
    if a == "" {
      assert a + b == b;
    } else {
      SlashesConcat(a[1..], b);
      assert (a + b)[1..] == a[1..] + b && (a + b)[0] == a[0];
    }
  }

  lemma {:induction false} NoSlashes(s: string)
    requires '\\' !in s
    ensures Slashes(s) == s
  {
    if s != "" {
      assert s[0] in s && s == [s[0]] + s[1..];
      NoSlashes(s[1..]);
    }
  }

  lemma {:induction false} SlashesJoined(parts: seq<string>, sep: string)
    requires (sep == "/" || sep == "\\") && forall i :: 0 <= i < |parts| ==> '\\' !in parts[i]
    ensures Slashes(Join(parts, sep)) == Path(parts)
  {
    if |parts| == 1 {
      NoSlashes(parts[0]);
    } else if |parts| > 1 {
      SlashesJoined(parts[1..], sep);
      NoSlashes(parts[0]);
      assert Slashes(sep) == "/" by { assert sep[1..] == ""; }
      SlashesConcat(parts[0] + sep, Join(parts[1..], sep));
      SlashesConcat(parts[0], sep);
    }
  }

  /** A path of parts, with either kind of slash between them, is accepted exactly when it has 1 to 64
      parts and fewer than 1024 bytes, and no part is "." or "..", names a drive or holds a control
      character. */
  lemma AcceptedPaths(parts: seq<string>, sep: string)
    requires (sep == "/" || sep == "\\") && forall i :: 0 <= i < |parts| ==> parts[i] != "" && '/' !in parts[i] && '\\' !in parts[i]
    ensures Accepted(Join(parts, sep)) <==>
      && 1 <= |parts| <= 64 && |Join(parts, sep)| < 1024
      && forall i :: 0 <= i < |parts| ==> parts[i] != "." && parts[i] != ".." && ':' !in parts[i] && forall c :: c in parts[i] ==> c as nat >= 32
  {
    hide Join, Slashes, Pieces;
    SlashesJoined(parts, sep);
    PathParts(parts);
    forall i | 0 <= i < |parts| { ControlFree(parts[i]); }
  }

  lemma ControlFree(part: string)
    ensures SafePart(part) <==> part != "." && part != ".." && ':' !in part && forall c :: c in part ==> c as nat >= 32
  {
    assert forall i :: 0 <= i < |part| ==> part[i] in part;
    assert ' ' as nat == 32;
    if SafePart(part) {
      forall c | c in part ensures c as nat >= 32 { var i :| 0 <= i < |part| && part[i] == c; }
    }
  }
}
