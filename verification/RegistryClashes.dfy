/** Registry keys whose headers meet: exactly which values of a list read back from every text the
    list is merged into. */
module RegistryClashes {
  import opened Text
  import opened CompatModel
  import opened RegistryLines
  import opened RegistryEdits
  import opened RegistryEditLists
  import opened CompatRegistryText

  // ---------------------------------------------------------------- the section two keys share

  /** The header of `x` lies between those of `a` and `b`, one of which starts the other. */
  predicate Between(x: string, a: string, b: string) {
    var l, la, lb := Lower(Header(x)), Lower(Header(a)), Lower(Header(b));
    la <= l <= lb || lb <= l <= la
  }

  /** In a text where two keys share a section every key between them is in it too. */
  lemma BetweenShares(lines: seq<string>, x: string, a: string, b: string)
    requires Section(lines, a) == Section(lines, b) < |lines| && Between(x, a, b)
    ensures Section(lines, x) == Section(lines, a)
  {
    hide Header, Lower;
    var s := Section(lines, a);
    FirstIs(lines, 0, |lines|, Header(x), s);
  }

  /** A line short of the header of `a`, and the header of `b`. */
  function Apart(a: string, b: string): string {
    Header(a)[..|Header(a)| - 1] + "\n" + Header(b)
  }

  lemma ApartLines(a: string, b: string)
    requires '\n' !in Header(a) && '\n' !in Header(b)
    ensures Split(Apart(a, b), '\n') == [Header(a)[..|Header(a)| - 1], Header(b)]
  {
    var parts := [Header(a)[..|Header(a)| - 1], Header(b)];
    assert parts[1..] == [Header(b)];
    SplitJoin(parts, '\n');
    assert Join(parts, "\n") == Header(a)[..|Header(a)| - 1] + "\n" + Join([Header(b)], "\n");
  }

  lemma ShorterHeader(a: string, cut: string)
    requires cut == Header(a)[..|Header(a)| - 1]
    ensures Lower(cut) == Lower(Header(a))[..|Header(a)| - 1]
  {
  }

  /** In that text the second section is that of exactly the keys between `a` and `b`. */
  lemma ApartSections(a: string, b: string, x: string)
    requires Lower(Header(a)) <= Lower(Header(b))
    ensures Section([Header(a)[..|Header(a)| - 1], Header(b)], x) == 1 <==> Between(x, a, b)
  {
    var cut := Header(a)[..|Header(a)| - 1];
    var lines := [cut, Header(b)];
    var la, lb, l := Lower(Header(a)), Lower(Header(b)), Lower(Header(x));
    ShorterHeader(a, cut);
    hide Header, Lower;
    PrefixParts(la, lb, l);
    if la <= l <= lb {
      FirstIs(lines, 0, 2, Header(x), 1);
    }
    if l <= la && l != la {
      FirstIs(lines, 0, 2, Header(x), 0);
    }
  }

  lemma PrefixParts(a: string, b: string, x: string)
    requires a <= b && a != ""
    ensures x <= b ==> a <= x || (x <= a && x != a)
    ensures x <= a && x != a <==> x <= a[..|a| - 1]
    ensures a <= x ==> !(x <= a[..|a| - 1])
    ensures b <= x <= a ==> x == a == b
  {
  }

  /** Edits leave two keys with one section together and others apart. */
  lemma {:induction false} SectionsStay(lines: seq<string>, edits: seq<Edit>, stamp: string, a: string, b: string)
    requires ValidEdits(edits) && Section(lines, a) < |lines|
    ensures var after := PutAll(lines, edits, stamp);
      Section(after, a) < |after| && (Section(after, a) == Section(after, b) <==> Section(lines, a) == Section(lines, b))
  {
    if edits != [] {
      var init, last := edits[..|edits| - 1], edits[|edits| - 1];
      SectionsStay(lines, init, stamp, a, b);
      SectionsAgree(PutAll(lines, init, stamp), last, stamp, a, b);
    }
  }

  // ---------------------------------------------------------------- the value that wins

  /** The value at `j` is written to the line that a reader of `v` finds. */
  ghost predicate InSlot(lines: seq<string>, w: RegistryValue, v: RegistryValue) {
    SameName(NameOf(w), NameOf(v)) && Section(lines, w.key) == Section(lines, v.key)
  }

  /** The last value of the list that is written to the line of one of them. */
  lemma {:induction false} LastInSlot(lines: seq<string>, values: seq<RegistryValue>, n: nat, v: RegistryValue) returns (m: nat)
    requires n <= |values| && exists i :: 0 <= i < n && InSlot(lines, values[i], v)
    ensures m < n && InSlot(lines, values[m], v) && forall k :: m < k < n ==> !InSlot(lines, values[k], v)
    ensures LastLine(lines, Edits(values[..n]), v.key, NameOf(v)) == Some(Line(values[m]))
  {
    hide SameName, Line, Section;
    var last, edits := values[n - 1], Edits(values[..n]);
    assert edits[..n - 1] == Edits(values[..n - 1]) && edits[n - 1] == EditOf(last);
    if InSlot(lines, last, v) { m := n - 1; } else { m := LastInSlot(lines, values, n - 1, v); }
  }

  lemma OwnSlot(lines: seq<string>, v: RegistryValue)
    ensures InSlot(lines, v, v)
  {
  }

  /** What a reader of a value finds after the merge is the last value written to its line. */
  lemma ReadsLastInSlot(values: seq<RegistryValue>, text: string, now: nat, i: nat) returns (after: seq<string>, m: nat)
    requires i < |values| && forall v :: v in values ==> OneLine(v)
    ensures after == PutAll(Split(text, '\n'), Edits(values), Stamp(now))
    ensures forall v :: v in values ==> Section(after, v.key) < |after|
    ensures m < |values| && InSlot(after, values[m], values[i]) && forall k :: m < k < |values| ==> !InSlot(after, values[k], values[i])
    ensures ReadText(Merged(values, text, now), values[i].key, NameOf(values[i])) == Some(Line(values[m]))
  {
    hide InSlot, Line, Section;
    var lines := Split(text, '\n');
    after := PutAll(lines, Edits(values), Stamp(now));
    MergedLines(values, text, now);
    EditsAreValid(values);
    AllSections(values, lines, Stamp(now));
    LastEditWins(lines, Edits(values), Stamp(now), values[i].key, NameOf(values[i]));
    OwnSlot(after, values[i]);
    assert values[..|values|] == values;
    m := LastInSlot(after, values, |values|, values[i]);
  }

  // ---------------------------------------------------------------- exactly when a value survives

  /** A value after `j` puts the line of `v` back, in every text where `j` takes it. */
  predicate Restored(values: seq<RegistryValue>, v: RegistryValue, j: nat)
    requires j < |values|
  {
    exists k :: j < k < |values| && SameName(NameOf(values[k]), NameOf(v)) && Line(values[k]) == Line(v) && Between(values[k].key, v.key, values[j].key)
  }

  /** Whatever clashes with the value is followed by something that puts its line back. */
  predicate Survives(values: seq<RegistryValue>, v: RegistryValue) {
    forall j :: 0 <= j < |values| && Clashes(v, values[j]) ==> Restored(values, v, j)
  }

  lemma RestoredInSlot(lines: seq<string>, values: seq<RegistryValue>, v: RegistryValue, j: nat)
    requires j < |values| && Restored(values, v, j) && Section(lines, v.key) == Section(lines, values[j].key) < |lines|
    ensures exists k :: j < k < |values| && InSlot(lines, values[k], v)
  {
    hide SameName, Line, Section, Between;
    var k :| j < k < |values| && SameName(NameOf(values[k]), NameOf(v)) && Line(values[k]) == Line(v) && Between(values[k].key, v.key, values[j].key);
    BetweenShares(lines, values[k].key, v.key, values[j].key);
    assert InSlot(lines, values[k], v);
  }

  lemma SurvivesIn(values: seq<RegistryValue>, text: string, now: nat, i: nat)
    requires i < |values| && forall v :: v in values ==> OneLine(v)
    requires Survives(values, values[i])
    ensures ReadText(Merged(values, text, now), values[i].key, NameOf(values[i])) == Some(Line(values[i]))
  {
    hide SameName, Line, Section, Merged, ReadText, OneLine, HeadersMeet, Between;
    var v := values[i];
    var after, m := ReadsLastInSlot(values, text, now, i);
    if Line(values[m]) != Line(v) {
      NamesSymmetric(NameOf(values[m]), NameOf(v));
      SharedSectionMeets(after, v, values[m]);
      assert Clashes(v, values[m]);
      RestoredInSlot(after, values, v, m);
    }
  }

  /** The text that keeps what is not between the two keys apart. */
  lemma TakenIn(values: seq<RegistryValue>, now: nat, i: nat, j: nat) returns (text: string)
    requires i < |values| && forall v :: v in values ==> OneLine(v)
    requires j < |values| && Clashes(values[i], values[j]) && !Restored(values, values[i], j)
    ensures ReadText(Merged(values, text, now), values[i].key, NameOf(values[i])) != Some(Line(values[i]))
  {
    hide SameName, Line, Section, Merged, ReadText, OneLine, Header, Lower;
    var v, w := values[i], values[j];
    assert v in values && w in values;
    var a, b := if Lower(Header(v.key)) <= Lower(Header(w.key)) then v.key else w.key, if Lower(Header(v.key)) <= Lower(Header(w.key)) then w.key else v.key;
    OneLineEdit(v);
    OneLineEdit(w);
    text := Apart(a, b);
    ApartLines(a, b);
    var lines, edits, stamp := Split(text, '\n'), Edits(values), Stamp(now);
    EditsAreValid(values);
    var after, m := ReadsLastInSlot(values, text, now, i);
    forall x: string ensures Section(after, x) == Section(after, v.key) <==> Between(x, v.key, w.key) {
      ApartSections(a, b, x);
      ApartSections(a, b, v.key);
      SectionsStay(lines, edits, stamp, v.key, x);
    }
    NamesSymmetric(NameOf(v), NameOf(w));
    assert Between(w.key, v.key, w.key);
    assert InSlot(after, w, v) && m >= j;
    assert Between(values[m].key, v.key, w.key);
  }

  /** Whatever the text, a value of a list reads back exactly when every value that clashes with it
      is followed by one that puts its line back, under a key whose header lies between. */
  lemma ValueSurvives(values: seq<RegistryValue>, i: nat, now: nat)
    requires i < |values| && forall v :: v in values ==> OneLine(v)
    ensures (forall text :: ReadText(Merged(values, text, now), values[i].key, NameOf(values[i])) == Some(Line(values[i])))
      <==> Survives(values, values[i])
  {
    hide Line, Merged, ReadText, OneLine, Clashes, Restored;
    if Survives(values, values[i]) {
      forall text ensures ReadText(Merged(values, text, now), values[i].key, NameOf(values[i])) == Some(Line(values[i])) {
        SurvivesIn(values, text, now, i);
      }
    } else {
      var j: nat :| j < |values| && Clashes(values[i], values[j]) && !Restored(values, values[i], j);
      var text := TakenIn(values, now, i, j);
    }
  }

  /** So of two values the first one reads back from every text exactly when they do not clash.
      Values of different pairs can clash through a "]". */
  lemma FirstValueSurvives(v: RegistryValue, w: RegistryValue, now: nat)
    requires OneLine(v) && OneLine(w)
    ensures (forall text :: ReadText(Merged([v, w], text, now), v.key, NameOf(v)) == Some(Line(v))) <==> !Clashes(v, w)
  {
    hide Line, Merged, ReadText, OneLine, Between, SameName, HeadersMeet;
    var values := [v, w];
    ValueSurvives(values, 0, now);
    assert values[0] == v && values[1] == w && !Clashes(v, v);
  }

  /** Two different keys, one header: the value of "A" is lost to the value of "A]B". */
  lemma BracketKeysClash(now: nat)
    ensures var v := RegistryValue(CurrentUser, "A", "n", RegSz, "1");
      var w := RegistryValue(CurrentUser, "A]B", "n", RegSz, "2");
      !SamePair(v, w) && exists text :: ReadText(Merged([v, w], text, now), v.key, NameOf(v)) != Some(Line(v))
  {
    var v := RegistryValue(CurrentUser, "A", "n", RegSz, "1");
    var w := RegistryValue(CurrentUser, "A]B", "n", RegSz, "2");
    assert |Lower("A")| == 1 && |Lower("A]B")| == 3;
    BracketHeaders();
    OtherLines(v, w);
    hide Line, Escape, Prefix, Header, Merged, ReadText;
    FirstValueSurvives(v, w, now);
  }

  lemma BracketHeaders()
    ensures HeadersMeet("A", "A]B")
  {
    assert Escape("A") == "A";
    assert Escape("A]B") == "A" + Escape("]B") == "A]B";
    assert Header("A") == "[A]" && Header("A]B") == "[A]B]";
    LowerConcat("[A]", "B]");
  }

  lemma OtherLines(v: RegistryValue, w: RegistryValue)
    requires v.name == w.name == "n" && v.kind == w.kind == RegSz && v.text == "1" && w.text == "2"
    ensures Line(v) != Line(w)
  {
    assert Escape("1") == "1" && Escape("2") == "2";
    assert Line(v)[|Prefix(NameOf(v))| + 1] == '1' && Line(w)[|Prefix(NameOf(w))| + 1] == '2';
  }
}
