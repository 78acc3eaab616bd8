/** What a list of edits does to a .reg text: the last edit of each value wins, repeating the
    list changes nothing, and every other line stays. */
module RegistryEditLists {
  import opened Text
  import opened RegistryLines
  import opened RegistryEdits

  // ---------------------------------------------------------------- sections under an edit

  lemma HeaderMatchesItself(key: string, stamp: string)
    ensures Matches(Header(key), Header(key) + stamp)
  {
    LowerConcat(Header(key), stamp);
  }

  lemma SectionIsContent(lines: seq<string>, key: string)
    requires Section(lines, key) < |lines|
    ensures Section(lines, key) < |Trimmed(lines)|
  {
    HeaderLine(key, lines[Section(lines, key)]);
    ContentIsTrimmed(lines, Section(lines, key));
  }

  lemma AppendedLength(lines: seq<string>, e: Edit, stamp: string)
    requires Locate(lines, e.key, e.name).NoSection?
    ensures |Put(lines, e, stamp)| == |Trimmed(lines)| + 4
  {
    PutShape(lines, e, stamp);
  }

  lemma ShiftInText(lines: seq<string>, e: Edit, stamp: string, i: nat)
    requires i < |Trimmed(lines)|
    ensures Shift(lines, e, i) < |Put(lines, e, stamp)|
  {
    PutShape(lines, e, stamp);
  }

  /** An edit leaves two keys with one section together and others apart. */
  lemma SectionsAgree(lines: seq<string>, e: Edit, stamp: string, key: string, other: string)
    requires ValidEdit(e) && Section(lines, key) < |lines|
    ensures var after := Put(lines, e, stamp);
      && Section(after, key) < |after|
      && (Section(after, key) == Section(after, other) <==> Section(lines, key) == Section(lines, other))
  {
    hide Locate, Header, Matches, Prefix, Trimmed, ContentEnd, SectionEnd, First, Put;
    PutLocates(lines, e, stamp, key, Default);
    PutLocates(lines, e, stamp, other, Default);
    SectionIsContent(lines, key);
    ShiftInText(lines, e, stamp, Section(lines, key));
    if Locate(lines, e.key, e.name).NoSection? { AppendedLength(lines, e, stamp); }
  }

  /** After an edit the values it hits are those with its name in its section. */
  lemma HitsSameSlot(lines: seq<string>, e: Edit, stamp: string, key: string, name: ValueName)
    requires ValidEdit(e)
    ensures var after := Put(lines, e, stamp);
      && Section(after, e.key) < |after|
      && (Hits(lines, e, stamp, key, name) <==> SameName(e.name, name) && Section(after, e.key) == Section(after, key))
  {
    var after := Put(lines, e, stamp);
    if Section(lines, e.key) < |lines| {
      SectionsAgree(lines, e, stamp, e.key, key);
    } else {
      HeaderMatchesItself(e.key, stamp);
      PutLocates(lines, e, stamp, e.key, name);
      PutLocates(lines, e, stamp, key, name);
      AppendedLength(lines, e, stamp);
      if Section(lines, key) < |lines| { SectionIsContent(lines, key); }
    }
  }

  // ---------------------------------------------------------------- the last edit wins

  /** The line of the last edit with this name in this key's section; none without one. */
  function LastLine(lines: seq<string>, edits: seq<Edit>, key: string, name: ValueName): Option<string> {
    if edits == [] then None
    else
      var last := edits[|edits| - 1];
      if SameName(last.name, name) && Section(lines, last.key) == Section(lines, key) then Some(last.line)
      else LastLine(lines, edits[..|edits| - 1], key, name)
  }

  ghost predicate ValidEdits(edits: seq<Edit>) { forall e :: e in edits ==> ValidEdit(e) }

  lemma {:induction false} AllHaveSections(lines: seq<string>, edits: seq<Edit>, stamp: string, e: Edit)
    requires ValidEdits(edits) && e in edits
    ensures Section(PutAll(lines, edits, stamp), e.key) < |PutAll(lines, edits, stamp)|
  {
    var init, last := edits[..|edits| - 1], edits[|edits| - 1];
    if e in init {
      AllHaveSections(lines, init, stamp, e);
      SectionsAgree(PutAll(lines, init, stamp), last, stamp, e.key, e.key);
    } else {
      assert e == last;
      HitsSameSlot(PutAll(lines, init, stamp), last, stamp, e.key, e.name);
    }
  }

  /** Later edits do not change which earlier ones share a slot. */
  lemma {:induction false} LastLineKept(lines: seq<string>, edits: seq<Edit>, e: Edit, stamp: string, key: string, name: ValueName)
    requires ValidEdit(e)
    requires forall x :: x in edits ==> Section(lines, x.key) < |lines|
    ensures LastLine(Put(lines, e, stamp), edits, key, name) == LastLine(lines, edits, key, name)
  {
    if edits != [] {
      SectionsAgree(lines, e, stamp, edits[|edits| - 1].key, key);
      LastLineKept(lines, edits[..|edits| - 1], e, stamp, key, name);
    }
  }

  /** After a list of edits every value reads as the last edit that shares its slot wrote it,
      and as before when none does. */
  lemma {:induction false} LastEditWins(lines: seq<string>, edits: seq<Edit>, stamp: string, key: string, name: ValueName)
    requires ValidEdits(edits)
    ensures var after := PutAll(lines, edits, stamp);
      Read(after, key, name) ==
        (if LastLine(after, edits, key, name).Some? then LastLine(after, edits, key, name) else Read(lines, key, name))
  {
    if edits != [] {
      var init, last := edits[..|edits| - 1], edits[|edits| - 1];
      var middle := PutAll(lines, init, stamp);
      LastEditWins(lines, init, stamp, key, name);
      PutReads(middle, last, stamp, key, name);
      HitsSameSlot(middle, last, stamp, key, name);
      forall x | x in init ensures Section(middle, x.key) < |middle| {
        AllHaveSections(lines, init, stamp, x);
      }
      LastLineKept(middle, init, last, stamp, key, name);
    }
  }

  lemma {:induction false} LastLineExists(lines: seq<string>, edits: seq<Edit>, e: Edit)
    requires e in edits
    ensures LastLine(lines, edits, e.key, e.name).Some?
  {
    var last := edits[|edits| - 1];
    if last != e { LastLineExists(lines, edits[..|edits| - 1], e); }
  }

  // ---------------------------------------------------------------- repeating the list

  /** One text is the other with some of these edits' own lines written again. */
  ghost predicate SameButSlots(lines: seq<string>, again: seq<string>, edits: seq<Edit>) {
    && |again| == |lines|
    && (forall key :: Section(again, key) == Section(lines, key))
    && (forall key, name :: Locate(lines, key, name).At? ==> Locate(again, key, name) == Locate(lines, key, name))
    && (forall i :: 0 <= i < |lines| && again[i] != lines[i] ==> exists e :: e in edits && Locate(lines, e.key, e.name) == At(i))
  }

  lemma RewriteOne(lines: seq<string>, middle: seq<string>, e: Edit, all: seq<Edit>, stamp: string)
    requires SameButSlots(lines, middle, all)
    requires ValidEdit(e) && e in all && Locate(lines, e.key, e.name).At?
    ensures SameButSlots(lines, Put(middle, e, stamp), all)
  {
    var i := Locate(lines, e.key, e.name).index;
    assert Locate(middle, e.key, e.name) == At(i);
    var after := middle[i := e.line];
    assert Put(middle, e, stamp) == after;
    forall key ensures Section(after, key) == Section(lines, key) {
      ReplacedLocates(middle, i, e.line, e.name, key, Default);
    }
    forall key, name | Locate(lines, key, name).At? ensures Locate(after, key, name) == Locate(lines, key, name) {
      ReplacedLocates(middle, i, e.line, e.name, key, name);
    }
  }

  lemma {:induction false} RewriteKeepsSlots(lines: seq<string>, edits: seq<Edit>, all: seq<Edit>, stamp: string)
    requires ValidEdits(edits) && forall e :: e in edits ==> e in all && Locate(lines, e.key, e.name).At?
    ensures SameButSlots(lines, PutAll(lines, edits, stamp), all)
  {
    if edits != [] {
      var init, last := edits[..|edits| - 1], edits[|edits| - 1];
      RewriteKeepsSlots(lines, init, all, stamp);
      RewriteOne(lines, PutAll(lines, init, stamp), last, all, stamp);
    }
  }

  lemma {:induction false} LastLineSame(a: seq<string>, b: seq<string>, edits: seq<Edit>, key: string, name: ValueName)
    requires forall k :: Section(a, k) == Section(b, k)
    ensures LastLine(a, edits, key, name) == LastLine(b, edits, key, name)
  {
    if edits != [] { LastLineSame(a, b, edits[..|edits| - 1], key, name); }
  }

  /** Applying the same list of edits again changes nothing. */
  lemma RepeatChangesNothing(lines: seq<string>, edits: seq<Edit>, stamp: string, again: string)
    requires ValidEdits(edits)
    ensures var after := PutAll(lines, edits, stamp); PutAll(after, edits, again) == after
  {
    var after := PutAll(lines, edits, stamp);
    forall e | e in edits ensures Locate(after, e.key, e.name).At? {
      LastEditWins(lines, edits, stamp, e.key, e.name);
      LastLineExists(after, edits, e);
    }
    RewriteKeepsSlots(after, edits, edits, again);
    var twice := PutAll(after, edits, again);
    forall i | 0 <= i < |after| ensures twice[i] == after[i] {
      if twice[i] != after[i] {
        var e :| e in edits && Locate(after, e.key, e.name) == At(i);
        LastEditWins(lines, edits, stamp, e.key, e.name);
        LastEditWins(after, edits, again, e.key, e.name);
        LastLineExists(after, edits, e);
        LastLineSame(after, twice, edits, e.key, e.name);
      }
    }
  }

  // ---------------------------------------------------------------- every other line stays

  /** `f` sends the lines of a text with content to where they are after a list of edits: in
      the same order, each with its content unless it was the line of an edited value, and
      nothing stands between them but blank lines, written lines and new headers. */
  ghost predicate Keeps(lines: seq<string>, after: seq<string>, edits: seq<Edit>, stamp: string, f: seq<nat>) {
    && |f| == |Trimmed(lines)|
    && (forall i :: 0 <= i < |f| ==> f[i] < |Trimmed(after)|)
    && (forall i, j :: 0 <= i < j < |f| ==> f[i] < f[j])
    && (forall i :: 0 <= i < |f| ==> KeptOrEdited(lines, after, edits, i, f[i]))
    && (forall j :: 0 <= j < |after| && j !in f ==> IsNew(after[j], edits, stamp))
  }

  ghost predicate KeptOrEdited(lines: seq<string>, after: seq<string>, edits: seq<Edit>, i: nat, j: nat)
    requires i < |lines| && j < |after|
  {
    after[j] == lines[i] ||
    (!IsBlank(after[j]) && exists e :: e in edits && Locate(lines, e.key, e.name) == At(i))
  }

  ghost predicate IsNew(line: string, edits: seq<Edit>, stamp: string) {
    IsBlank(line) || exists e :: e in edits && (line == e.line || line == Header(e.key) + stamp)
  }

  /** A value found on a kept line after the edits was found there before them. */
  ghost predicate FoundBefore(lines: seq<string>, after: seq<string>, f: seq<nat>) {
    forall key, name, i :: 0 <= i < |f| && Locate(after, key, name) == At(f[i]) ==> Locate(lines, key, name) == At(i)
  }

  function Shifted(lines: seq<string>, e: Edit, f: seq<nat>): (g: seq<nat>)
    ensures |g| == |f|
  {
    seq(|f|, i requires 0 <= i < |f| => Shift(lines, e, f[i]))
  }

  lemma PutKeepsLine(lines: seq<string>, middle: seq<string>, e: Edit, edits: seq<Edit>, stamp: string, i: nat, j: nat)
    requires ValidEdit(e) && e in edits
    requires i < |lines| && j < |Trimmed(middle)| && KeptOrEdited(lines, middle, edits, i, j)
    requires Locate(middle, e.key, e.name) == At(j) ==> Locate(lines, e.key, e.name) == At(i)
    ensures Shift(middle, e, j) < |Put(middle, e, stamp)|
    ensures KeptOrEdited(lines, Put(middle, e, stamp), edits, i, Shift(middle, e, j))
  {
    if Locate(middle, e.key, e.name) == At(j) {
      PutTarget(middle, e, stamp);
      ValueLine(e.name, e.line);
    } else {
      PutContents(middle, e, stamp, j);
    }
  }

  /** Every line after an edit is the written one, part of a new section, or a moved one. */
  lemma PutOrigin(middle: seq<string>, e: Edit, stamp: string, j: nat) returns (from: nat)
    requires j < |Put(middle, e, stamp)|
    ensures IsNew(Put(middle, e, stamp)[j], [e], stamp) ||
      (from < |middle| && Put(middle, e, stamp)[j] == middle[from] && j == Shift(middle, e, from))
  {
    var slot := Locate(middle, e.key, e.name);
    PutShape(middle, e, stamp);
    from := if slot.NoLine? && j > slot.at then j - 1 else j;
    assert e in [e];
  }

  lemma PutKeepsNew(middle: seq<string>, e: Edit, edits: seq<Edit>, stamp: string, f: seq<nat>, j: nat)
    requires e in edits && j < |Put(middle, e, stamp)| && j !in Shifted(middle, e, f)
    requires forall k :: 0 <= k < |middle| && k !in f ==> IsNew(middle[k], edits, stamp)
    ensures IsNew(Put(middle, e, stamp)[j], edits, stamp)
  {
    var from := PutOrigin(middle, e, stamp, j);
    var g := Shifted(middle, e, f);
    forall k | k in f ensures Shift(middle, e, k) in g {
      var i :| 0 <= i < |f| && f[i] == k;
      assert g[i] == Shift(middle, e, k);
    }
  }

  lemma TargetIsNew(middle: seq<string>, e: Edit, j: nat)
    requires !Locate(middle, e.key, e.name).At? && j < |Trimmed(middle)|
    ensures Shift(middle, e, j) != Target(middle, e)
  {
  }

  lemma ShiftInjective(middle: seq<string>, e: Edit, i: nat, j: nat)
    requires Shift(middle, e, i) == Shift(middle, e, j)
    ensures i == j
  {
  }

  lemma FoundAtSamePlace(middle: seq<string>, e: Edit, stamp: string, key: string, name: ValueName, j: nat)
    requires ValidEdit(e) && j < |Trimmed(middle)|
    requires Locate(Put(middle, e, stamp), key, name) == At(Shift(middle, e, j))
    ensures Locate(middle, key, name) == At(j)
  {
    var slot := Locate(middle, e.key, e.name);
    if slot.At? {
      ReplacedLocates(middle, slot.index, e.line, e.name, key, name);
    } else {
      PutLocates(middle, e, stamp, key, name);
      TargetIsNew(middle, e, j);
      assert !Hits(middle, e, stamp, key, name);
      assert Locate(middle, key, name).At?;
      ShiftInjective(middle, e, Locate(middle, key, name).index, j);
    }
  }

  lemma ShiftRises(lines: seq<string>, e: Edit, i: nat, j: nat)
    requires i < j
    ensures Shift(lines, e, i) < Shift(lines, e, j)
  {
  }

  /** The last line with content is still a line with content. */
  lemma KeptIsContent(lines: seq<string>, after: seq<string>, edits: seq<Edit>, i: nat, j: nat)
    requires i < |lines| && !IsBlank(lines[i]) && j < |after| && KeptOrEdited(lines, after, edits, i, j)
    ensures j < |Trimmed(after)|
  {
    ContentIsTrimmed(after, j);
  }

  lemma ShiftedRises(middle: seq<string>, e: Edit, f: seq<nat>)
    requires forall i, j :: 0 <= i < j < |f| ==> f[i] < f[j]
    ensures var g := Shifted(middle, e, f); forall i, j :: 0 <= i < j < |g| ==> g[i] < g[j]
  {
    forall i, j | 0 <= i < j < |f| ensures Shift(middle, e, f[i]) < Shift(middle, e, f[j]) {
      ShiftRises(middle, e, f[i], f[j]);
    }
  }

  lemma RisingIsBounded(g: seq<nat>, bound: nat)
    requires forall i, j :: 0 <= i < j < |g| ==> g[i] < g[j]
    requires g != [] ==> g[|g| - 1] < bound
    ensures forall i :: 0 <= i < |g| ==> g[i] < bound
  {
  }

  lemma LastIsContent(lines: seq<string>)
    ensures |Trimmed(lines)| <= |lines| && (Trimmed(lines) != [] ==> !IsBlank(lines[|Trimmed(lines)| - 1]))
  {
  }

  lemma KeepsStep(lines: seq<string>, middle: seq<string>, e: Edit, edits: seq<Edit>, stamp: string, f: seq<nat>)
    requires ValidEdit(e) && e in edits
    requires Keeps(lines, middle, edits, stamp, f) && FoundBefore(lines, middle, f)
    ensures Keeps(lines, Put(middle, e, stamp), edits, stamp, Shifted(middle, e, f))
  {
    LastIsContent(lines);
    hide Put, Locate, Trimmed, KeptOrEdited, IsNew, ValidEdit;
    var after, g := Put(middle, e, stamp), Shifted(middle, e, f);
    forall i | 0 <= i < |g| ensures g[i] < |after| && KeptOrEdited(lines, after, edits, i, g[i]) {
      PutKeepsLine(lines, middle, e, edits, stamp, i, f[i]);
    }
    ShiftedRises(middle, e, f);
    if g != [] { KeptIsContent(lines, after, edits, |g| - 1, g[|g| - 1]); }
    RisingIsBounded(g, |Trimmed(after)|);
    forall j | 0 <= j < |after| && j !in g ensures IsNew(after[j], edits, stamp) {
      PutKeepsNew(middle, e, edits, stamp, f, j);
    }
  }

  lemma FoundStep(lines: seq<string>, middle: seq<string>, e: Edit, stamp: string, f: seq<nat>)
    requires ValidEdit(e) && FoundBefore(lines, middle, f)
    requires forall i :: 0 <= i < |f| ==> f[i] < |Trimmed(middle)|
    ensures FoundBefore(lines, Put(middle, e, stamp), Shifted(middle, e, f))
  {
    var after, g := Put(middle, e, stamp), Shifted(middle, e, f);
    forall key, name, i | 0 <= i < |g| && Locate(after, key, name) == At(g[i]) ensures Locate(lines, key, name) == At(i) {
      FoundAtSamePlace(middle, e, stamp, key, name, f[i]);
    }
  }

  lemma KeepsMore(lines: seq<string>, after: seq<string>, edits: seq<Edit>, more: seq<Edit>, stamp: string, f: seq<nat>)
    requires Keeps(lines, after, edits, stamp, f) && forall e :: e in edits ==> e in more
    ensures Keeps(lines, after, more, stamp, f)
  {
    forall i | 0 <= i < |f| ensures KeptOrEdited(lines, after, more, i, f[i]) {
      assert KeptOrEdited(lines, after, edits, i, f[i]);
    }
    forall j | 0 <= j < |after| && j !in f ensures IsNew(after[j], more, stamp) {
      assert IsNew(after[j], edits, stamp);
    }
  }

  /** A list of edits keeps every line with content, in order and unchanged, except for the
      lines that were an edited value's before. */
  lemma {:induction false} EditsKeepOtherLines(lines: seq<string>, edits: seq<Edit>, stamp: string) returns (f: seq<nat>)
    requires ValidEdits(edits)
    ensures Keeps(lines, PutAll(lines, edits, stamp), edits, stamp, f)
    ensures FoundBefore(lines, PutAll(lines, edits, stamp), f)
  {
    if edits == [] {
      f := seq(|Trimmed(lines)|, i requires 0 <= i < |Trimmed(lines)| => i);
      forall j | 0 <= j < |f| ensures j in f {
        assert f[j] == j;
      }
    } else {
      var init, last := edits[..|edits| - 1], edits[|edits| - 1];
      var before := EditsKeepOtherLines(lines, init, stamp);
      KeepsMore(lines, PutAll(lines, init, stamp), init, edits, stamp, before);
      KeepsStep(lines, PutAll(lines, init, stamp), last, edits, stamp, before);
      FoundStep(lines, PutAll(lines, init, stamp), last, stamp, before);
      f := Shifted(PutAll(lines, init, stamp), last, before);
    }
  }

  // ---------------------------------------------------------------- lines stay lines

  ghost predicate NoBreaks(lines: seq<string>) { forall line :: line in lines ==> '\n' !in line }

  lemma PutOneLine(lines: seq<string>, e: Edit, stamp: string)
    requires lines != [] && NoBreaks(lines) && '\n' !in e.line && '\n' !in Header(e.key) + stamp
    ensures Put(lines, e, stamp) != [] && NoBreaks(Put(lines, e, stamp))
  {
    var slot := Locate(lines, e.key, e.name);
    if slot.At? {
    } else if slot.NoLine? {
      assert NoBreaks(lines[..slot.at]) && NoBreaks([e.line]) && NoBreaks(lines[slot.at..]);
    } else {
      assert NoBreaks(Trimmed(lines)) && NoBreaks(["", Header(e.key) + stamp, e.line, ""]);
    }
  }

  lemma {:induction false} PutAllOneLine(lines: seq<string>, edits: seq<Edit>, stamp: string)
    requires lines != [] && NoBreaks(lines)
    requires forall e :: e in edits ==> '\n' !in e.line && '\n' !in Header(e.key) + stamp
    ensures PutAll(lines, edits, stamp) != [] && NoBreaks(PutAll(lines, edits, stamp))
  {
    if edits != [] {
      var init, last := edits[..|edits| - 1], edits[|edits| - 1];
      PutAllOneLine(lines, init, stamp);
      PutOneLine(PutAll(lines, init, stamp), last, stamp);
    }
  }
}
