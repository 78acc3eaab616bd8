/** What one edit of a .reg text does to every value in it, and what a list of edits does. */
module RegistryEdits {
  import opened Text
  import opened RegistryLines

  // ---------------------------------------------------------------- searches by their result

  /** `s` is the first header of the key and its section ends at `e`. */
  ghost predicate SectionAt(lines: seq<string>, key: string, s: nat, e: nat) {
    && s < e <= |lines|
    && Matches(Header(key), lines[s])
    && (forall k :: 0 <= k < s ==> !Matches(Header(key), lines[k]))
    && (forall k :: s < k < e ==> !OpensSection(lines[k]))
    && (e < |lines| ==> OpensSection(lines[e]))
  }

  /** No line from `lo` up to `hi` is the value's line. */
  ghost predicate NoneIn(lines: seq<string>, lo: nat, hi: nat, name: ValueName)
    requires hi <= |lines|
  {
    forall k :: lo <= k < hi ==> !Matches(Prefix(name), lines[k])
  }

  lemma FirstIs(lines: seq<string>, lo: nat, hi: nat, prefix: string, r: nat)
    requires lo <= r <= hi <= |lines|
    requires r < hi ==> Matches(prefix, lines[r])
    requires forall k :: lo <= k < r ==> !Matches(prefix, lines[k])
    ensures First(lines, lo, hi, prefix) == r
  {
    var f := First(lines, lo, hi, prefix);
  }

  lemma SectionAtIs(lines: seq<string>, key: string, s: nat, e: nat)
    requires SectionAt(lines, key, s, e)
    ensures Section(lines, key) == s && SectionEnd(lines, s + 1) == e
  {
    FirstIs(lines, 0, |lines|, Header(key), s);
    var f := SectionEnd(lines, s + 1);
  }

  lemma SectionOf(lines: seq<string>, key: string) returns (s: nat, e: nat)
    requires Section(lines, key) < |lines|
    ensures SectionAt(lines, key, s, e) && s == Section(lines, key)
  {
    s := Section(lines, key);
    e := SectionEnd(lines, s + 1);
  }

  lemma NoSectionIs(lines: seq<string>, key: string)
    requires forall k :: 0 <= k < |lines| ==> !Matches(Header(key), lines[k])
    ensures Section(lines, key) == |lines|
  {
    FirstIs(lines, 0, |lines|, Header(key), |lines|);
  }

  lemma AtIs(lines: seq<string>, key: string, name: ValueName, s: nat, e: nat, j: nat)
    requires SectionAt(lines, key, s, e) && s < j < e
    requires Matches(Prefix(name), lines[j]) && NoneIn(lines, s + 1, j, name)
    ensures Locate(lines, key, name) == At(j)
  {
    SectionAtIs(lines, key, s, e);
    FirstIs(lines, s + 1, e, Prefix(name), j);
  }

  lemma NoLineIs(lines: seq<string>, key: string, name: ValueName, s: nat, e: nat)
    requires SectionAt(lines, key, s, e) && NoneIn(lines, s + 1, e, name)
    ensures Locate(lines, key, name).NoLine?
  {
    SectionAtIs(lines, key, s, e);
    FirstIs(lines, s + 1, e, Prefix(name), e);
  }

  /** What a search says about the text. */
  lemma LocateSays(lines: seq<string>, key: string, name: ValueName, s: nat, e: nat)
    requires SectionAt(lines, key, s, e)
    ensures match Locate(lines, key, name)
      case At(j) => s < j < e && Matches(Prefix(name), lines[j]) && NoneIn(lines, s + 1, j, name)
      case NoLine(at) => s < at <= e && NoneIn(lines, s + 1, e, name) && at == ContentEnd(lines, s + 1, e)
      case NoSection => false
  {
    SectionAtIs(lines, key, s, e);
  }

  lemma NamesAgree(a: ValueName, b: ValueName, line: string)
    requires SameName(a, b)
    ensures Matches(Prefix(a), line) <==> Matches(Prefix(b), line)
  {
    if Matches(Prefix(a), line) { NamesExclude(a, b, line); }
    if Matches(Prefix(b), line) { NamesExclude(b, a, line); }
  }

  // ---------------------------------------------------------------- one edit

  /** A value's line replaced by another line for the same name: every search ends where it did. */
  lemma ReplacedLocates(lines: seq<string>, i: nat, line: string, written: ValueName, key: string, name: ValueName)
    requires i < |lines| && Matches(Prefix(written), lines[i]) && Matches(Prefix(written), line)
    ensures var after := lines[i := line];
      && Section(after, key) == Section(lines, key)
      && (Locate(after, key, name).At? <==> Locate(lines, key, name).At?)
      && (Locate(after, key, name).At? ==> Locate(after, key, name) == Locate(lines, key, name))
  {
    var after := lines[i := line];
    ValueLine(written, lines[i]);
    ValueLine(written, line);
    ValueIsNoHeader(written, lines[i], key);
    ValueIsNoHeader(written, line, key);
    NamesExclude(written, name, lines[i]);
    NamesExclude(written, name, line);
    if Section(lines, key) < |lines| {
      var s, e := SectionOf(lines, key);
      assert SectionAt(after, key, s, e);
      LocateSays(lines, key, name, s, e);
      SectionAtIs(after, key, s, e);
      match Locate(lines, key, name)
      case At(j) => AtIs(after, key, name, s, e, j);
      case NoLine(_) => NoLineIs(after, key, name, s, e);
    } else {
      NoSectionIs(after, key);
    }
  }

  function Moved(at: nat, i: nat): nat { if i < at then i else i + 1 }

  /** `after` is `lines` with one line inserted at `at`. */
  ghost predicate Inserted(lines: seq<string>, after: seq<string>, at: nat, line: string) {
    && at <= |lines| && |after| == |lines| + 1 && after[at] == line
    && (forall k :: 0 <= k < at ==> after[k] == lines[k])
    && (forall k :: at < k < |after| ==> after[k] == lines[k - 1])
  }

  lemma InsertedSection(lines: seq<string>, after: seq<string>, at: nat, line: string, key: string, s: nat, e: nat)
    requires Inserted(lines, after, at, line) && !OpensSection(line) && !Matches(Header(key), line)
    requires SectionAt(lines, key, s, e)
    ensures SectionAt(after, key, Moved(at, s), Moved(at, e))
  {
    assert after[Moved(at, s)] == lines[s];
    assert e < |lines| ==> after[Moved(at, e)] == lines[e];
  }

  /** Sections do not overlap: an insertion inside one is outside of every other. */
  lemma InsertedApart(lines: seq<string>, after: seq<string>, at: nat, line: string, s: nat, e: nat, name: ValueName, other: nat)
    requires Inserted(lines, after, at, line)
    requires s < e <= |lines| && (at <= s || e < at || !Matches(Prefix(name), line))
    requires s < other <= e && NoneIn(lines, s + 1, other, name)
    ensures NoneIn(after, Moved(at, s) + 1, if other == e then Moved(at, e) else Moved(at, other), name)
  {
    var hi := if other == e then Moved(at, e) else Moved(at, other);
    forall k | Moved(at, s) + 1 <= k < hi ensures !Matches(Prefix(name), after[k]) {
      if k != at {
        var l := if k < at then k else k - 1;
        assert after[k] == lines[l] && s < l < other;
      }
    }
  }

  /** A value's line inserted in a section that has none for its name: the value is there now. */
  lemma InsertedOwn(lines: seq<string>, after: seq<string>, at: nat, line: string, written: ValueName, s: nat, e: nat, key: string, name: ValueName)
    requires Inserted(lines, after, at, line)
    requires SectionAt(lines, key, s, e) && s < at <= e
    requires Matches(Prefix(written), line) && NoneIn(lines, s + 1, e, written) && SameName(written, name)
    ensures Section(after, key) == s && Locate(after, key, name) == At(at)
  {
    ValueLine(written, line);
    ValueIsNoHeader(written, line, key);
    NamesAgree(written, name, line);
    InsertedSection(lines, after, at, line, key, s, e);
    SectionAtIs(after, key, s, Moved(at, e));
    forall k | s < k < at ensures !Matches(Prefix(name), after[k]) {
      NamesAgree(written, name, lines[k]);
    }
    AtIs(after, key, name, s, Moved(at, e), at);
  }

  lemma InsertedAt(lines: seq<string>, after: seq<string>, at: nat, line: string, key: string, name: ValueName, s: nat, e: nat, j: nat)
    requires Inserted(lines, after, at, line) && (at <= s || e < at || !Matches(Prefix(name), line))
    requires s < j < e <= |lines| && SectionAt(after, key, Moved(at, s), Moved(at, e))
    requires Matches(Prefix(name), lines[j]) && NoneIn(lines, s + 1, j, name)
    ensures Locate(after, key, name) == At(Moved(at, j))
  {
    InsertedApart(lines, after, at, line, s, e, name, j);
    assert after[Moved(at, j)] == lines[j];
    AtIs(after, key, name, Moved(at, s), Moved(at, e), Moved(at, j));
  }

  lemma InsertedNone(lines: seq<string>, after: seq<string>, at: nat, line: string, key: string, name: ValueName, s: nat, e: nat)
    requires Inserted(lines, after, at, line) && (at <= s || e < at || !Matches(Prefix(name), line))
    requires s < e <= |lines| && SectionAt(after, key, Moved(at, s), Moved(at, e))
    requires NoneIn(lines, s + 1, e, name)
    ensures Locate(after, key, name).NoLine?
  {
    InsertedApart(lines, after, at, line, s, e, name, e);
    NoLineIs(after, key, name, Moved(at, s), Moved(at, e));
  }

  /** Everything else is where it was, one line down from the insertion on. */
  lemma InsertedOther(lines: seq<string>, after: seq<string>, at: nat, line: string, written: ValueName, key: string, name: ValueName, s: nat, e: nat)
    requires Inserted(lines, after, at, line) && Matches(Prefix(written), line)
    requires SectionAt(lines, key, s, e) && (at <= s || e < at || !SameName(written, name))
    ensures Section(after, key) == Moved(at, s)
    ensures match Locate(lines, key, name)
            case At(j) => Locate(after, key, name) == At(Moved(at, j))
            case _ => !Locate(after, key, name).At?
  {
    ValueLine(written, line);
    ValueIsNoHeader(written, line, key);
    NamesExclude(written, name, line);
    InsertedSection(lines, after, at, line, key, s, e);
    SectionAtIs(after, key, Moved(at, s), Moved(at, e));
    LocateSays(lines, key, name, s, e);
    var slot := Locate(lines, key, name);
    if slot.At? {
      InsertedAt(lines, after, at, line, key, name, s, e, slot.index);
    } else {
      InsertedNone(lines, after, at, line, key, name, s, e);
    }
  }

  lemma InsertedNoSection(lines: seq<string>, after: seq<string>, at: nat, line: string, key: string)
    requires Inserted(lines, after, at, line) && !Matches(Header(key), line)
    requires Section(lines, key) == |lines|
    ensures Section(after, key) == |after|
  {
    NoSectionIs(after, key);
  }

  /** `after` is `lines` without its trailing blank lines and with a new section. */
  ghost predicate Appended(lines: seq<string>, after: seq<string>, t: nat, header: string, line: string) {
    && t <= |lines| && |after| == t + 4
    && (forall k :: 0 <= k < t ==> after[k] == lines[k])
    && (forall k :: t <= k < |lines| ==> IsBlank(lines[k]))
    && after[t] == "" && after[t + 1] == header && after[t + 2] == line && after[t + 3] == ""
  }

  lemma AppendedSection(lines: seq<string>, after: seq<string>, t: nat, header: string, line: string, key: string, s: nat, e: nat)
    returns (e': nat)
    requires Appended(lines, after, t, header, line) && OpensSection(header)
    requires SectionAt(lines, key, s, e)
    ensures SectionAt(after, key, s, e') && s < t && (e' == e < t || (e' == t + 1 && e >= t))
  {
    HeaderLine(key, lines[s]);
    if e < |lines| {
      assert OpensSection(lines[e]);
      if IsBlank(lines[e]) { BlankIsNoHeader(lines[e], key); }
      e' := e;
    } else {
      e' := t + 1;
    }
  }

  lemma AppendedNone(after: seq<string>, lines: seq<string>, t: nat, header: string, line: string, key: string, name: ValueName, s: nat, e: nat, e': nat)
    requires Appended(lines, after, t, header, line) && SectionAt(after, key, s, e')
    requires e' == e < t || (e' == t + 1 && e >= t)
    requires e <= |lines| && NoneIn(lines, s + 1, e, name)
    ensures Locate(after, key, name).NoLine?
  {
    hide Matches, Prefix, OpensSection, Locate;
    BlankIsNoValue("", name);
    assert NoneIn(after, s + 1, e', name) by {
      forall k | s < k < e' ensures !Matches(Prefix(name), after[k]) {
        if k < t { assert after[k] == lines[k]; }
      }
    }
    NoLineIs(after, key, name, s, e');
  }

  /** What was there before a section is appended stays where it was. */
  lemma AppendedKept(lines: seq<string>, after: seq<string>, t: nat, header: string, line: string, key: string, name: ValueName, s: nat, e: nat)
    requires Appended(lines, after, t, header, line) && OpensSection(header)
    requires SectionAt(lines, key, s, e)
    ensures Section(after, key) == s
    ensures match Locate(lines, key, name)
            case At(j) => Locate(after, key, name) == At(j)
            case _ => !Locate(after, key, name).At?
  {
    var e' := AppendedSection(lines, after, t, header, line, key, s, e);
    SectionAtIs(after, key, s, e');
    LocateSays(lines, key, name, s, e);
    var slot := Locate(lines, key, name);
    if slot.At? {
      ValueLine(name, lines[slot.index]);
      AtIs(after, key, name, s, e', slot.index);
    } else {
      AppendedNone(after, lines, t, header, line, key, name, s, e, e');
    }
  }

  lemma AppendedAbsent(lines: seq<string>, after: seq<string>, t: nat, header: string, line: string, written: ValueName, key: string)
    requires Appended(lines, after, t, header, line) && Matches(Prefix(written), line)
    requires Section(lines, key) == |lines| && !Matches(Header(key), header)
    ensures Section(after, key) == |after|
  {
    ValueLine(written, line);
    ValueIsNoHeader(written, line, key);
    BlankIsNoHeader("", key);
    forall k | 0 <= k < |after| ensures !Matches(Header(key), after[k]) {
      if k < t { assert after[k] == lines[k]; }
    }
    NoSectionIs(after, key);
  }

  lemma AppendedSectionNew(lines: seq<string>, after: seq<string>, t: nat, header: string, line: string, written: ValueName, key: string)
    requires Appended(lines, after, t, header, line) && Matches(Prefix(written), line)
    requires Section(lines, key) == |lines| && Matches(Header(key), header)
    ensures SectionAt(after, key, t + 1, t + 4)
  {
    ValueLine(written, line);
    ValueIsNoHeader(written, line, key);
    BlankIsNoHeader("", key);
    forall k | 0 <= k < t + 1 ensures !Matches(Header(key), after[k]) {
      if k < t { assert after[k] == lines[k]; }
    }
  }

  /** The appended section is found by every key its header matches that had none before. */
  lemma AppendedNew(lines: seq<string>, after: seq<string>, t: nat, header: string, line: string, written: ValueName, key: string, name: ValueName)
    requires Appended(lines, after, t, header, line) && Matches(Prefix(written), line)
    requires Section(lines, key) == |lines| && Matches(Header(key), header)
    ensures Section(after, key) == t + 1
    ensures if SameName(written, name) then Locate(after, key, name) == At(t + 2) else Locate(after, key, name).NoLine?
  {
    AppendedSectionNew(lines, after, t, header, line, written, key);
    SectionAtIs(after, key, t + 1, t + 4);
    NamesExclude(written, name, line);
    if SameName(written, name) {
      AtIs(after, key, name, t + 1, t + 4, t + 2);
    } else {
      AppendedOtherName(after, t, line, written, key, name);
    }
  }

  lemma AppendedOtherName(after: seq<string>, t: nat, line: string, written: ValueName, key: string, name: ValueName)
    requires SectionAt(after, key, t + 1, t + 4) && |after| == t + 4
    requires after[t + 2] == line && after[t + 3] == "" && Matches(Prefix(written), line) && !SameName(written, name)
    ensures Locate(after, key, name).NoLine?
  {
    NamesExclude(written, name, line);
    BlankIsNoValue("", name);
    forall k | t + 2 <= k < t + 4 ensures !Matches(Prefix(name), after[k]) {
    }
    NoLineIs(after, key, name, t + 1, t + 4);
  }

  // ---------------------------------------------------------------- one edit, all cases

  /** The edit's key and another key lead to one section, after the edit at the latest. */
  predicate SharesSection(lines: seq<string>, key: string, stamp: string, other: string) {
    if Section(lines, key) < |lines| then Section(lines, other) == Section(lines, key)
    else Section(lines, other) == |lines| && Matches(Header(other), Header(key) + stamp)
  }

  /** The edit writes the line that a reader of (key, name) finds. */
  predicate Hits(lines: seq<string>, e: Edit, stamp: string, key: string, name: ValueName) {
    SameName(e.name, name) && SharesSection(lines, e.key, stamp, key)
  }

  /** Where a line is after the edit. */
  function Shift(lines: seq<string>, e: Edit, i: nat): nat {
    match Locate(lines, e.key, e.name)
    case NoLine(at) => Moved(at, i)
    case _ => i
  }

  /** Where the written line is. */
  function Target(lines: seq<string>, e: Edit): nat {
    match Locate(lines, e.key, e.name)
    case At(index) => index
    case NoLine(at) => at
    case NoSection => |Trimmed(lines)| + 2
  }

  /** How a search for (key, name) comes out after the edit. */
  ghost predicate LocatesAfter(lines: seq<string>, e: Edit, stamp: string, key: string, name: ValueName) {
    var slot := Locate(Put(lines, e, stamp), key, name);
    if Hits(lines, e, stamp, key, name) then slot == At(Target(lines, e))
    else match Locate(lines, key, name)
         case At(index) => slot == At(Shift(lines, e, index))
         case _ => !slot.At?
  }

  /** How a search for a key's section comes out after the edit. */
  ghost predicate SectionAfter(lines: seq<string>, e: Edit, stamp: string, key: string) {
    var after := Put(lines, e, stamp);
    if Section(lines, key) < |lines| then Section(after, key) == Shift(lines, e, Section(lines, key))
    else if SharesSection(lines, e.key, stamp, key) then Section(after, key) == |Trimmed(lines)| + 1
    else Section(after, key) == |after|
  }

  lemma PutReplaces(lines: seq<string>, e: Edit, stamp: string, key: string, name: ValueName)
    requires ValidEdit(e) && Locate(lines, e.key, e.name).At?
    ensures LocatesAfter(lines, e, stamp, key, name) && SectionAfter(lines, e, stamp, key)
  {
    var i := Locate(lines, e.key, e.name).index;
    ReplacedLocates(lines, i, e.line, e.name, key, name);
    var s, end := SectionOf(lines, e.key);
    LocateSays(lines, e.key, e.name, s, end);
    if Section(lines, key) < |lines| {
      var s', end' := SectionOf(lines, key);
      LocateSays(lines, key, name, s', end');
      if Hits(lines, e, stamp, key, name) {
        NamesAgree(e.name, name, lines[i]);
        forall k | s' < k < i ensures !Matches(Prefix(name), lines[k]) {
          NamesAgree(e.name, name, lines[k]);
        }
        SectionAtIs(lines, e.key, s, end);
        assert SectionAt(lines, key, s, end);
        AtIs(lines, key, name, s, end, i);
      }
    }
  }

  lemma PutInserts(lines: seq<string>, e: Edit, stamp: string, key: string, name: ValueName)
    requires ValidEdit(e) && Locate(lines, e.key, e.name).NoLine?
    ensures LocatesAfter(lines, e, stamp, key, name) && SectionAfter(lines, e, stamp, key)
  {
    var at := Locate(lines, e.key, e.name).at;
    var after := Put(lines, e, stamp);
    PutShape(lines, e, stamp);
    var s0, e0 := SectionOf(lines, e.key);
    LocateSays(lines, e.key, e.name, s0, e0);
    ValueLine(e.name, e.line);
    ValueIsNoHeader(e.name, e.line, key);
    if Section(lines, key) < |lines| {
      var s, end := SectionOf(lines, key);
      HeaderLine(key, lines[s]);
      HeaderLine(e.key, lines[s0]);
      if Hits(lines, e, stamp, key, name) {
        assert SectionAt(lines, key, s0, e0);
        InsertedOwn(lines, after, at, e.line, e.name, s0, e0, key, name);
      } else {
        InsertedOther(lines, after, at, e.line, e.name, key, name, s, end);
      }
    } else {
      InsertedNoSection(lines, after, at, e.line, key);
    }
  }

  lemma PutAppends(lines: seq<string>, e: Edit, stamp: string, key: string, name: ValueName)
    requires ValidEdit(e) && Locate(lines, e.key, e.name).NoSection?
    ensures LocatesAfter(lines, e, stamp, key, name) && SectionAfter(lines, e, stamp, key)
  {
    var after, t, header := Put(lines, e, stamp), |Trimmed(lines)|, Header(e.key) + stamp;
    PutShape(lines, e, stamp);
    if Section(lines, key) < |lines| {
      var s, end := SectionOf(lines, key);
      AppendedKept(lines, after, t, header, e.line, key, name, s, end);
    } else if Matches(Header(key), header) {
      AppendedNew(lines, after, t, header, e.line, e.name, key, name);
    } else {
      AppendedAbsent(lines, after, t, header, e.line, e.name, key);
    }
  }

  /** One edit, whatever its case: where every value and every section is afterwards. */
  lemma PutLocates(lines: seq<string>, e: Edit, stamp: string, key: string, name: ValueName)
    requires ValidEdit(e)
    ensures LocatesAfter(lines, e, stamp, key, name) && SectionAfter(lines, e, stamp, key)
  {
    var slot := Locate(lines, e.key, e.name);
    if slot.At? {
      PutReplaces(lines, e, stamp, key, name);
    } else if slot.NoLine? {
      PutInserts(lines, e, stamp, key, name);
    } else {
      PutAppends(lines, e, stamp, key, name);
    }
  }

  /** Two values that are at one line have one name and one section. */
  lemma OneLineOneValue(lines: seq<string>, key: string, name: ValueName, other: string, otherName: ValueName)
    requires Locate(lines, key, name).At? && Locate(lines, other, otherName) == Locate(lines, key, name)
    ensures SameName(name, otherName) && Section(lines, key) == Section(lines, other)
  {
    var s, e := SectionOf(lines, key);
    var s', e' := SectionOf(lines, other);
    LocateSays(lines, key, name, s, e);
    LocateSays(lines, other, otherName, s', e');
    var i := Locate(lines, key, name).index;
    NamesExclude(name, otherName, lines[i]);
    HeaderLine(key, lines[s]);
    HeaderLine(other, lines[s']);
  }

  /** The shape of the edited text in its three cases. */
  lemma PutShape(lines: seq<string>, e: Edit, stamp: string)
    ensures var after := Put(lines, e, stamp);
      match Locate(lines, e.key, e.name)
      case At(index) => after == lines[index := e.line]
      case NoLine(at) => Inserted(lines, after, at, e.line)
      case NoSection => Appended(lines, after, |Trimmed(lines)|, Header(e.key) + stamp, e.line)
  {
  }

  lemma PutTarget(lines: seq<string>, e: Edit, stamp: string)
    ensures Target(lines, e) < |Put(lines, e, stamp)| && Put(lines, e, stamp)[Target(lines, e)] == e.line
  {
    PutShape(lines, e, stamp);
  }

  /** Every line with content other than the replaced one is kept where it moved to. */
  lemma PutContents(lines: seq<string>, e: Edit, stamp: string, i: nat)
    requires i < |Trimmed(lines)| && Locate(lines, e.key, e.name) != At(i)
    ensures Shift(lines, e, i) < |Put(lines, e, stamp)| && Put(lines, e, stamp)[Shift(lines, e, i)] == lines[i]
  {
    PutShape(lines, e, stamp);
  }

  lemma ContentIsTrimmed(lines: seq<string>, i: nat)
    requires i < |lines| && !IsBlank(lines[i])
    ensures i < |Trimmed(lines)|
  {
  }

  /** One edit as a reader sees it: the written value reads as the written line, and every
      other value reads as before. */
  lemma PutReads(lines: seq<string>, e: Edit, stamp: string, key: string, name: ValueName)
    requires ValidEdit(e)
    ensures Read(Put(lines, e, stamp), key, name) ==
      if Hits(lines, e, stamp, key, name) then Some(e.line) else Read(lines, key, name)
  {
    PutLocates(lines, e, stamp, key, name);
    PutTarget(lines, e, stamp);
    var slot := Locate(lines, key, name);
    if slot.At? && !Hits(lines, e, stamp, key, name) {
      ValueLine(name, lines[slot.index]);
      ContentIsTrimmed(lines, slot.index);
      if Locate(lines, e.key, e.name) == slot {
        OneLineOneValue(lines, e.key, e.name, key, name);
      }
      PutContents(lines, e, stamp, slot.index);
    }
  }
}
