/** What marking promises: every run whose name reads back is marked afterwards, no recorded
    value goes down, marking again changes nothing, and every other line stays. */
module InstallMarkLaws {
  import opened Text
  import opened RegistryLines
  import opened RegistryEdits
  import opened RegistryEditLists
  import opened InstallRecords
  import opened InstallDwords
  import opened InstallMark
  import RegistryData

  // ---------------------------------------------------------------- a value of at least v

  /** Line k, in the key's section from s to e, gives the name a number of at least v. */
  ghost predicate HoldsAt(lines: seq<string>, key: string, name: string, v: nat, s: nat, e: nat, k: nat) {
    && SectionAt(lines, key, s, e) && s < k < e
    && Gives(lines[k], name, v)
  }

  predicate Gives(line: string, name: string, v: nat) {
    Matches(Prefix(Named(name)), line) && DwordOf(line).Some? && DwordOf(line).value >= v
  }

  ghost predicate Holds(lines: seq<string>, key: string, name: string, v: nat) {
    exists s, e, k :: HoldsAt(lines, key, name, v, s, e, k)
  }

  function AtLeast(value: Option<nat>, v: nat): bool { value.Some? && value.value >= v }

  lemma {:induction false} BestInAtLeast(lines: seq<string>, lo: nat, hi: nat, name: string, v: nat)
    requires lo <= hi <= |lines|
    ensures AtLeast(BestIn(lines, lo, hi, name), v) <==> exists k :: lo <= k < hi && Gives(lines[k], name, v)
  {
    hide DwordOf, Matches, Prefix;
    if lo < hi { BestInAtLeast(lines, lo, hi - 1, name, v); }
  }

  /** What `recorded` computes: the largest number the key's section gives the name. */
  lemma BestAtLeast(lines: seq<string>, key: string, name: string, v: nat)
    ensures AtLeast(Best(lines, key, name), v) <==> Holds(lines, key, name, v)
  {
    hide BestIn, Gives, First, SectionEnd;
    if Section(lines, key) < |lines| {
      var s, e := SectionOf(lines, key);
      SectionAtIs(lines, key, s, e);
      BestInAtLeast(lines, s + 1, e, name, v);
      if AtLeast(Best(lines, key, name), v) {
        var k :| s + 1 <= k < e && Gives(lines[k], name, v);
        assert HoldsAt(lines, key, name, v, s, e, k);
      }
    }
    if s: nat, e: nat, k: nat :| HoldsAt(lines, key, name, v, s, e, k) {
      SectionAtIs(lines, key, s, e);
      BestInAtLeast(lines, s + 1, e, name, v);
    }
  }

  lemma {:induction false} BestOfKeysAtLeast(lines: seq<string>, keys: seq<string>, name: string, v: nat)
    ensures AtLeast(BestOfKeys(lines, keys, name), v) <==> exists key :: key in keys && Holds(lines, key, name, v)
  {
    if keys != [] {
      var init, last := keys[..|keys| - 1], keys[|keys| - 1];
      assert keys == init + [last];
      BestOfKeysAtLeast(lines, init, name, v);
      BestAtLeast(lines, last, name, v);
    }
  }

  lemma RecordedAtLeast(run: Run, lines: seq<string>, v: nat)
    ensures AtLeast(Recorded(run, lines), v) <==> exists key :: key in Keys(run) && Holds(lines, key, run.name, v)
  {
    BestOfKeysAtLeast(lines, Keys(run), run.name, v);
  }

  // ---------------------------------------------------------------- one value marked

  lemma ReplacedSection(lines: seq<string>, i: nat, line: string, written: ValueName, key: string, s: nat, e: nat)
    requires i < |lines| && Matches(Prefix(written), lines[i]) && Matches(Prefix(written), line)
    requires SectionAt(lines, key, s, e)
    ensures SectionAt(lines[i := line], key, s, e)
  {
    ValueLine(written, lines[i]);
    ValueLine(written, line);
    ValueIsNoHeader(written, lines[i], key);
    ValueIsNoHeader(written, line, key);
  }

  lemma RunLineMatches(run: Run)
    ensures Matches(Prefix(Named(run.name)), RunLine(run))
  {
    LowerConcat(Prefix(Named(run.name)), "dword:" + Numbers.Hex(run.value, 8));
  }

  /** A line that replaces one with a smaller number still gives what the old one gave. */
  lemma RaisedLineGives(run: Run, was: string, name: string, v: nat)
    requires Matches(Prefix(Named(run.name)), was) && Gives(was, name, v)
    requires !AtLeast(DwordOf(was), run.value)
    ensures Gives(RunLine(run), name, v)
  {
    if HoldsDword(run.name) { HiddenDword(run.name, was); }
    RunLineReads(run);
    NamesExclude(Named(run.name), Named(name), was);
    NamesAgree(Named(run.name), Named(name), RunLine(run));
  }

  lemma ReplaceKeeps(lines: seq<string>, i: nat, run: Run, key: string, name: string, v: nat)
    requires i < |lines| && Matches(Prefix(Named(run.name)), lines[i]) && !AtLeast(DwordOf(lines[i]), run.value)
    requires Holds(lines, key, name, v)
    ensures Holds(lines[i := RunLine(run)], key, name, v)
  {
    RunLineMatches(run);
    hide Gives, Matches;
    var s: nat, e: nat, k: nat :| HoldsAt(lines, key, name, v, s, e, k);
    ReplacedSection(lines, i, RunLine(run), Named(run.name), key, s, e);
    if k == i { RaisedLineGives(run, lines[i], name, v); }
    assert HoldsAt(lines[i := RunLine(run)], key, name, v, s, e, k);
  }

  lemma InsertKeeps(lines: seq<string>, after: seq<string>, at: nat, line: string, written: ValueName, key: string, name: string, v: nat)
    requires Inserted(lines, after, at, line) && Matches(Prefix(written), line)
    requires Holds(lines, key, name, v)
    ensures Holds(after, key, name, v)
  {
    ValueLine(written, line);
    ValueIsNoHeader(written, line, key);
    hide Gives, Matches, OpensSection, Prefix;
    var s: nat, e: nat, k: nat :| HoldsAt(lines, key, name, v, s, e, k);
    InsertedMoves(lines, after, at, line, k);
    InsertedSection(lines, after, at, line, key, s, e);
    hide SectionAt, Inserted;
    assert HoldsAt(after, key, name, v, Moved(at, s), Moved(at, e), Moved(at, k));
  }

  lemma InsertedMoves(lines: seq<string>, after: seq<string>, at: nat, line: string, k: nat)
    requires Inserted(lines, after, at, line) && k < |lines|
    ensures Moved(at, k) < |after| && after[Moved(at, k)] == lines[k]
  {
  }

  lemma GivesContent(line: string, name: string, v: nat)
    requires Gives(line, name, v)
    ensures !IsBlank(line)
  {
    ValueLine(Named(name), line);
  }

  lemma AppendKeeps(lines: seq<string>, after: seq<string>, t: nat, header: string, line: string, key: string, name: string, v: nat)
    requires Appended(lines, after, t, header, line) && OpensSection(header)
    requires Holds(lines, key, name, v)
    ensures Holds(after, key, name, v)
  {
    hide Gives, Matches, OpensSection, IsBlank;
    var s: nat, e: nat, k: nat :| HoldsAt(lines, key, name, v, s, e, k);
    GivesContent(lines[k], name, v);
    var e' := AppendedSection(lines, after, t, header, line, key, s, e);
    assert HoldsAt(after, key, name, v, s, e', k);
  }

  /** Marking one value keeps every number some value has, whatever key and name it is under. */
  lemma MarkOneKeeps(lines: seq<string>, run: Run, at: string, stamp: string, key: string, name: string, v: nat)
    requires Holds(lines, key, name, v)
    ensures Holds(MarkOne(lines, run, at, stamp), key, name, v)
  {
    hide Holds, Inserted, Appended, RunLine, Matches, Locate, Trimmed;
    if !Enough(lines, run, at) {
      var edit := EditFor(run, at);
      PutShape(lines, edit, stamp);
      var slot := Locate(lines, at, Named(run.name));
      RunLineMatches(run);
      if slot.At? {
        ReplaceKeeps(lines, slot.index, run, key, name, v);
      } else if slot.NoLine? {
        InsertKeeps(lines, Put(lines, edit, stamp), slot.at, edit.line, edit.name, key, name, v);
      } else {
        AppendKeeps(lines, Put(lines, edit, stamp), |Trimmed(lines)|, Header(at) + stamp, edit.line, key, name, v);
      }
    }
  }

  /** A marked value whose name reads back holds at least the minimum. */
  lemma MarkOneHolds(lines: seq<string>, run: Run, key: string, stamp: string)
    requires !HoldsDword(run.name)
    ensures Holds(MarkOne(lines, run, key, stamp), key, run.name, run.value)
  {
    var after, name := MarkOne(lines, run, key, stamp), Named(run.name);
    hide Put;
    if !Enough(lines, run, key) {
      var edit := EditFor(run, key);
      assert ValidEdit(edit);
      HitsSameSlot(lines, edit, stamp, key, name);
      PutLocates(lines, edit, stamp, key, name);
      PutTarget(lines, edit, stamp);
      RunLineReads(run);
    }
    var k := Locate(after, key, name).index;
    var s, e := SectionOf(after, key);
    LocateSays(after, key, name, s, e);
    assert HoldsAt(after, key, run.name, run.value, s, e, k);
  }

  // ---------------------------------------------------------------- all values marked

  lemma {:induction false} MarkAllKeeps(lines: seq<string>, targets: seq<(Run, string)>, stamp: string, key: string, name: string, v: nat)
    requires Holds(lines, key, name, v)
    ensures Holds(MarkAll(lines, targets, stamp), key, name, v)
  {
    hide Holds, MarkOne;
    if targets != [] {
      var init, last := targets[..|targets| - 1], targets[|targets| - 1];
      MarkAllKeeps(lines, init, stamp, key, name, v);
      MarkOneKeeps(MarkAll(lines, init, stamp), last.0, last.1, stamp, key, name, v);
    }
  }

  lemma {:induction false} MarkAllHolds(lines: seq<string>, targets: seq<(Run, string)>, stamp: string, run: Run, key: string)
    requires (run, key) in targets && !HoldsDword(run.name)
    ensures Holds(MarkAll(lines, targets, stamp), key, run.name, run.value)
  {
    hide Holds, MarkOne;
    var init, last := targets[..|targets| - 1], targets[|targets| - 1];
    if (run, key) in init {
      MarkAllHolds(lines, init, stamp, run, key);
      MarkOneKeeps(MarkAll(lines, init, stamp), last.0, last.1, stamp, key, run.name, run.value);
    } else {
      MarkOneHolds(MarkAll(lines, init, stamp), run, key, stamp);
    }
  }

  lemma {:induction false} TargetsHold(runs: seq<Run>, run: Run)
    requires run in runs
    ensures forall key :: key in Keys(run) ==> (run, key) in Targets(runs)
  {
    var last := runs[|runs| - 1];
    if run == last { TargetsOfHold(run, Keys(run)); } else { TargetsHold(runs[..|runs| - 1], run); }
  }

  lemma {:induction false} TargetsOfHold(run: Run, keys: seq<string>)
    ensures forall key :: key in keys ==> (run, key) in TargetsOf(run, keys)
  {
    if keys != [] { TargetsOfHold(run, keys[..|keys| - 1]); }
  }

  /** A name that holds "=dword:" never reads back, whatever the text. */
  lemma HiddenNeverRecorded(run: Run, lines: seq<string>)
    requires HoldsDword(run.name)
    ensures Recorded(run, lines) == None
  {
    RecordedAtLeast(run, lines, 0);
    hide Recorded, DwordOf, Matches, SectionAt, Keys, HoldsDword;
    forall key: string, s: nat, e: nat, k: nat | HoldsAt(lines, key, run.name, 0, s, e, k) ensures false {
      HiddenDword(run.name, lines[k]);
    }
  }

  /** No value recorded for any run, marked or not, goes down. */
  lemma RecordedNeverFalls(lines: seq<string>, targets: seq<(Run, string)>, stamp: string, run: Run)
    requires Recorded(run, lines).Some?
    ensures AtLeast(Recorded(run, MarkAll(lines, targets, stamp)), Recorded(run, lines).value)
  {
    hide Holds, Recorded, MarkAll;
    var v := Recorded(run, lines).value;
    RecordedAtLeast(run, lines, v);
    RecordedAtLeast(run, MarkAll(lines, targets, stamp), v);
    var key :| key in Keys(run) && Holds(lines, key, run.name, v);
    MarkAllKeeps(lines, targets, stamp, key, run.name, v);
  }

  /** After marking, a run of the list is marked exactly when its name does not hold "=dword:"
      (or it asks for nothing). */
  lemma MarkedAfter(lines: seq<string>, runs: seq<Run>, stamp: string, run: Run)
    requires run in runs
    ensures Marked(run, MarkAll(lines, Targets(runs), stamp)) <==> run.value == 0 || !HoldsDword(run.name)
  {
    hide Holds, Recorded, MarkAll;
    var after := MarkAll(lines, Targets(runs), stamp);
    if HoldsDword(run.name) {
      HiddenNeverRecorded(run, after);
    } else {
      TargetsHold(runs, run);
      MarkAllHolds(lines, Targets(runs), stamp, run, run.key);
      RecordedAtLeast(run, after, run.value);
    }
  }

  /** After marking, a reader of the run's own key finds its number, and for a machine key below
      Software a reader of the 32-bit view finds it too. */
  lemma MarkedInBothViews(lines: seq<string>, runs: seq<Run>, stamp: string, run: Run)
    requires run in runs && !HoldsDword(run.name)
    ensures var after := MarkAll(lines, Targets(runs), stamp);
      && Holds(after, run.key, run.name, run.value)
      && (run.machine && "software\\" <= Lower(run.key) && !("software\\wow6432node\\" <= Lower(run.key)) ==>
        Holds(after, "Software\\Wow6432Node\\" + run.key[9..], run.name, run.value))
  {
    hide Holds, MarkAll, HoldsDword;
    TargetsHold(runs, run);
    MarkAllHolds(lines, Targets(runs), stamp, run, run.key);
    if run.machine && SOFTWARE <= Lower(run.key) && !(WOW <= Lower(run.key)) {
      var key := "Software\\Wow6432Node\\" + run.key[9..];
      assert Keys(run)[1] == key && key in Keys(run);
      MarkAllHolds(lines, Targets(runs), stamp, run, key);
    }
  }

  /** The line of a run sets its number, for any reader of the file. */
  lemma RunLineData(run: Run)
    ensures RegistryData.ReadLine(RunLine(run), Named(run.name)) == Some(RegistryData.Number(run.value))
  {
    hide Numbers.Hex, RegistryData.HexNumber;
    RunLineMatches(run);
    RegistryData.EightDigits();
    RegistryData.FixedHex(run.value, 8);
    var data := "dword:" + Numbers.Hex(run.value, 8);
    assert RunLine(run) == Prefix(Named(run.name)) + data;
    assert RunLine(run)[|Prefix(Named(run.name))|..] == data && data[6..] == Numbers.Hex(run.value, 8);
  }

  // ---------------------------------------------------------------- who raised a value

  /** A run of the list wrote a number of at least v where a reader of (key, name) finds it:
      it has that name and one of its keys has a header that meets the reader's. */
  ghost predicate WrittenBy(target: (Run, string), key: string, name: string, v: nat) {
    SameName(Named(target.0.name), Named(name)) && HeadersMeet(target.1, key) && target.0.value >= v
  }

  lemma RunLineGives(run: Run, name: string, v: nat)
    requires Gives(RunLine(run), name, v)
    ensures SameName(Named(run.name), Named(name)) && run.value >= v
  {
    RunLineMatches(run);
    NamesExclude(Named(run.name), Named(name), RunLine(run));
    if HoldsDword(run.name) { HiddenDword(run.name, RunLine(run)); }
    RunLineReads(run);
  }

  lemma SameSectionMeets(lines: seq<string>, a: string, b: string, s: nat, e: nat, s': nat, e': nat, k: nat)
    requires SectionAt(lines, a, s, e) && SectionAt(lines, b, s', e') && s < k < e && s' < k < e'
    ensures HeadersMeet(a, b)
  {
    HeaderLine(a, lines[s]);
    HeaderLine(b, lines[s']);
    assert s == s';
    PrefixesMeet(Lower(Header(a)), Lower(Header(b)), Lower(lines[s]));
  }

  lemma ReplaceRaises(lines: seq<string>, run: Run, at: string, key: string, name: string, v: nat)
    requires Locate(lines, at, Named(run.name)).At?
    requires Holds(lines[Locate(lines, at, Named(run.name)).index := RunLine(run)], key, name, v)
    ensures Holds(lines, key, name, v) || WrittenBy((run, at), key, name, v)
  {
    var i := Locate(lines, at, Named(run.name)).index;
    var after := lines[i := RunLine(run)];
    var s0, e0 := SectionOf(lines, at);
    LocateSays(lines, at, Named(run.name), s0, e0);
    RunLineMatches(run);
    var s: nat, e: nat, k: nat :| HoldsAt(after, key, name, v, s, e, k);
    hide Gives, Matches, Locate;
    assert after[i := lines[i]] == lines;
    ReplacedSection(after, i, lines[i], Named(run.name), key, s, e);
    if k == i {
      RunLineGives(run, name, v);
      SameSectionMeets(lines, at, key, s0, e0, s, e, k);
    } else {
      assert HoldsAt(lines, key, name, v, s, e, k);
    }
  }

  lemma InsertRaisesOther(lines: seq<string>, after: seq<string>, at: nat, line: string, written: ValueName, key: string, name: string, v: nat, s: nat, e: nat, k: nat)
    requires Inserted(lines, after, at, line) && Matches(Prefix(written), line)
    requires HoldsAt(after, key, name, v, s, e, k) && k != at
    ensures Holds(lines, key, name, v)
  {
    ValueLine(written, line);
    ValueIsNoHeader(written, line, key);
    hide Gives, Matches, OpensSection;
    SectionAtIs(after, key, s, e);
    if Section(lines, key) == |lines| { InsertedNoSection(lines, after, at, line, key); }
    var s1, e1 := SectionOf(lines, key);
    InsertedSection(lines, after, at, line, key, s1, e1);
    SectionAtIs(after, key, Moved(at, s1), Moved(at, e1));
    var k1 := if k < at then k else k - 1;
    assert after[k] == lines[k1];
    hide SectionAt;
    assert HoldsAt(lines, key, name, v, s1, e1, k1);
  }

  lemma InsertRaises(lines: seq<string>, after: seq<string>, at: nat, run: Run, written: string, key: string, name: string, v: nat)
    requires Inserted(lines, after, at, RunLine(run))
    requires Locate(lines, written, Named(run.name)) == NoLine(at)
    requires Holds(after, key, name, v)
    ensures Holds(lines, key, name, v) || WrittenBy((run, written), key, name, v)
  {
    RunLineMatches(run);
    var s: nat, e: nat, k: nat :| HoldsAt(after, key, name, v, s, e, k);
    if k == at {
      var s0, e0 := SectionOf(lines, written);
      LocateSays(lines, written, Named(run.name), s0, e0);
      ValueLine(Named(run.name), RunLine(run));
      ValueIsNoHeader(Named(run.name), RunLine(run), written);
      InsertedSection(lines, after, at, RunLine(run), written, s0, e0);
      RunLineGives(run, name, v);
      SameSectionMeets(after, written, key, s0, Moved(at, e0), s, e, k);
    } else {
      InsertRaisesOther(lines, after, at, RunLine(run), Named(run.name), key, name, v, s, e, k);
    }
  }

  lemma BlankGivesNothing(line: string, name: string, v: nat)
    requires IsBlank(line)
    ensures !Gives(line, name, v)
  {
    BlankIsNoValue(line, Named(name));
  }

  lemma AppendRaisesKept(lines: seq<string>, after: seq<string>, t: nat, header: string, line: string, key: string, name: string, v: nat, s: nat, e: nat, k: nat)
    requires Appended(lines, after, t, header, line) && OpensSection(header)
    requires Section(lines, key) < |lines| && HoldsAt(after, key, name, v, s, e, k)
    ensures Holds(lines, key, name, v)
  {
    hide Gives, SectionAt, Appended, Section, OpensSection;
    SameSection(after, key, s, e);
    var s1, e1 := SectionOf(lines, key);
    var e2 := AppendedSection(lines, after, t, header, line, key, s1, e1);
    SameSection(after, key, s1, e2);
    BlankGivesNothing("", name, v);
    AppendedKeepsLine(lines, after, t, header, line, k);
    assert HoldsAt(lines, key, name, v, s1, e1, k);
  }

  lemma SameSection(lines: seq<string>, key: string, s: nat, e: nat)
    requires SectionAt(lines, key, s, e)
    ensures s == Section(lines, key) && s < |lines| && e == SectionEnd(lines, s + 1) && e <= |lines|
  {
    SectionAtIs(lines, key, s, e);
  }

  /** Up to the appended blank line everything is as it was. */
  lemma AppendedKeepsLine(lines: seq<string>, after: seq<string>, t: nat, header: string, line: string, k: nat)
    requires Appended(lines, after, t, header, line)
    ensures t <= |lines| && |after| == t + 4 && after[t] == ""
    ensures k < t ==> after[k] == lines[k]
  {
  }

  lemma MatchesMeet(a: string, b: string, line: string)
    requires Matches(Header(a), line) && Matches(Header(b), line)
    ensures HeadersMeet(a, b)
  {
    PrefixesMeet(Lower(Header(a)), Lower(Header(b)), Lower(line));
  }

  lemma BlankLineGivesNothing(name: string, v: nat)
    ensures !Gives("", name, v)
  {
    BlankGivesNothing("", name, v);
  }

  lemma AppendRaisesNew(lines: seq<string>, after: seq<string>, t: nat, run: Run, written: string, header: string, key: string, name: string, v: nat, s: nat, e: nat, k: nat)
    requires Appended(lines, after, t, header, RunLine(run)) && Matches(Header(written), header)
    requires Section(lines, key) == |lines| && Matches(Header(key), header) && HoldsAt(after, key, name, v, s, e, k)
    ensures WrittenBy((run, written), key, name, v)
  {
    hide Gives, Matches, HeadersMeet, IsBlank, RunLine;
    RunLineMatches(run);
    AppendedSectionNew(lines, after, t, header, RunLine(run), Named(run.name), key);
    SectionAtIs(after, key, s, e);
    SectionAtIs(after, key, t + 1, t + 4);
    hide SectionAt, SectionEnd, Section;
    assert k == t + 2 || k == t + 3;
    BlankLineGivesNothing(name, v);
    MatchesMeet(written, key, header);
    RunLineGives(run, name, v);
  }

  lemma AppendRaisesAbsent(lines: seq<string>, after: seq<string>, t: nat, run: Run, header: string, key: string)
    requires Appended(lines, after, t, header, RunLine(run))
    requires Section(lines, key) == |lines| && !Matches(Header(key), header)
    ensures Section(after, key) == |after|
  {
    RunLineMatches(run);
    AppendedAbsent(lines, after, t, header, RunLine(run), Named(run.name), key);
  }

  lemma HoldsInSection(lines: seq<string>, key: string, name: string, v: nat, s: nat, e: nat, k: nat)
    requires HoldsAt(lines, key, name, v, s, e, k)
    ensures Section(lines, key) < |lines|
  {
    SectionAtIs(lines, key, s, e);
  }

  lemma AppendRaises(lines: seq<string>, after: seq<string>, t: nat, run: Run, written: string, header: string, key: string, name: string, v: nat)
    requires Appended(lines, after, t, header, RunLine(run)) && Matches(Header(written), header)
    requires Holds(after, key, name, v)
    ensures Holds(lines, key, name, v) || WrittenBy((run, written), key, name, v)
  {
    HeaderLine(written, header);
    hide HoldsAt, Appended, WrittenBy;
    var s: nat, e: nat, k: nat :| HoldsAt(after, key, name, v, s, e, k);
    if Section(lines, key) < |lines| {
      AppendRaisesKept(lines, after, t, header, RunLine(run), key, name, v, s, e, k);
    } else if Matches(Header(key), header) {
      AppendRaisesNew(lines, after, t, run, written, header, key, name, v, s, e, k);
    } else {
      AppendRaisesAbsent(lines, after, t, run, header, key);
      HoldsInSection(after, key, name, v, s, e, k);
    }
  }

  /** A number that was not there before was written by this run for this name and section. */
  lemma MarkOneRaises(lines: seq<string>, run: Run, at: string, stamp: string, key: string, name: string, v: nat)
    requires Holds(MarkOne(lines, run, at, stamp), key, name, v)
    ensures Holds(lines, key, name, v) || (!Enough(lines, run, at) && WrittenBy((run, at), key, name, v))
  {
    if !Enough(lines, run, at) {
      var edit := EditFor(run, at);
      PutShape(lines, edit, stamp);
      var slot := Locate(lines, at, Named(run.name));
      hide Holds, WrittenBy;
      if slot.At? {
        ReplaceRaises(lines, run, at, key, name, v);
      } else if slot.NoLine? {
        InsertRaises(lines, Put(lines, edit, stamp), slot.at, run, at, key, name, v);
      } else {
        HeaderMatchesItself(at, stamp);
        AppendRaises(lines, Put(lines, edit, stamp), |Trimmed(lines)|, run, at, Header(at) + stamp, key, name, v);
      }
    }
  }

  lemma {:induction false} MarkAllRaises(lines: seq<string>, targets: seq<(Run, string)>, stamp: string, key: string, name: string, v: nat)
    requires Holds(MarkAll(lines, targets, stamp), key, name, v)
    ensures Holds(lines, key, name, v) || exists t :: t in targets && WrittenBy(t, key, name, v)
  {
    hide Holds, WrittenBy, MarkOne;
    if targets != [] {
      var init, last := targets[..|targets| - 1], targets[|targets| - 1];
      MarkOneRaises(MarkAll(lines, init, stamp), last.0, last.1, stamp, key, name, v);
      if Holds(MarkAll(lines, init, stamp), key, name, v) { MarkAllRaises(lines, init, stamp, key, name, v); }
    }
  }

  /** A run's recorded value is raised only by a run of the list with its name, under a key
      whose header meets one of its own, that asks for at least the new value. */
  lemma RecordedRaisedBy(lines: seq<string>, runs: seq<Run>, stamp: string, run: Run, v: nat) returns (writer: Run, at: string, key: string)
    requires AtLeast(Recorded(run, MarkAll(lines, Targets(runs), stamp)), v) && !AtLeast(Recorded(run, lines), v)
    ensures writer in runs && at in Keys(writer) && key in Keys(run)
    ensures Lower(writer.name) == Lower(run.name) && HeadersMeet(at, key) && writer.value >= v
  {
    var after := MarkAll(lines, Targets(runs), stamp);
    hide Holds, Recorded, MarkAll, HeadersMeet, Keys;
    RecordedAtLeast(run, after, v);
    RecordedAtLeast(run, lines, v);
    key :| key in Keys(run) && Holds(after, key, run.name, v);
    MarkAllRaises(lines, Targets(runs), stamp, key, run.name, v);
    var t :| t in Targets(runs) && WrittenBy(t, key, run.name, v);
    TargetsAreRuns(runs, t);
    writer, at := t.0, t.1;
  }

  lemma {:induction false} TargetsAreRuns(runs: seq<Run>, t: (Run, string))
    requires t in Targets(runs)
    ensures t.0 in runs && t.1 in Keys(t.0)
  {
    var init, last := runs[..|runs| - 1], runs[|runs| - 1];
    if t in Targets(init) { TargetsAreRuns(init, t); } else { TargetsOfAreKeys(last, Keys(last), t); }
  }

  lemma {:induction false} TargetsOfAreKeys(run: Run, keys: seq<string>, t: (Run, string))
    requires t in TargetsOf(run, keys)
    ensures t.0 == run && t.1 in keys
  {
    if t != (run, keys[|keys| - 1]) { TargetsOfAreKeys(run, keys[..|keys| - 1], t); }
  }

  // ---------------------------------------------------------------- marking again

  /** A written value that a reader of another value finds too was that reader's line before. */
  lemma HitsTheSameLine(lines: seq<string>, e: Edit, stamp: string, key: string, name: ValueName)
    requires Hits(lines, e, stamp, key, name) && Locate(lines, key, name).At?
    ensures Locate(lines, e.key, e.name) == Locate(lines, key, name)
  {
    var s, end := SectionOf(lines, key);
    var j := Locate(lines, key, name).index;
    LocateSays(lines, key, name, s, end);
    NamesAgree(e.name, name, lines[j]);
    forall k | s < k < j ensures !Matches(Prefix(e.name), lines[k]) {
      NamesAgree(e.name, name, lines[k]);
    }
    SectionAtIs(lines, key, s, end);
    SectionOfSame(lines, e.key, key, s, end);
    AtIs(lines, e.key, e.name, s, end, j);
  }

  lemma SectionOfSame(lines: seq<string>, a: string, b: string, s: nat, e: nat)
    requires SectionAt(lines, b, s, e) && Section(lines, a) == s
    ensures SectionAt(lines, a, s, e)
  {
    var s', e' := SectionOf(lines, a);
    SectionAtIs(lines, b, s, e);
    SectionAtIs(lines, a, s', e');
  }

  /** What is enough for a run stays enough. */
  lemma EnoughKept(lines: seq<string>, run: Run, at: string, stamp: string, other: Run, key: string)
    requires Enough(lines, other, key)
    ensures Enough(MarkOne(lines, run, at, stamp), other, key)
  {
    if !Enough(lines, run, at) {
      var e, name := EditFor(run, at), Named(other.name);
      RunLineMatches(run);
      PutLocates(lines, e, stamp, key, name);
      PutTarget(lines, e, stamp);
      PutReads(lines, e, stamp, key, name);
      if Hits(lines, e, stamp, key, name) {
        HitsTheSameLine(lines, e, stamp, key, name);
        var line := lines[Locate(lines, key, name).index];
        if HoldsDword(run.name) { HiddenDword(run.name, line); }
        RunLineReads(run);
      }
    }
  }

  lemma {:induction false} AllEnough(lines: seq<string>, targets: seq<(Run, string)>, stamp: string, t: (Run, string))
    requires t in targets && !HoldsDword(t.0.name)
    ensures Enough(MarkAll(lines, targets, stamp), t.0, t.1)
  {
    hide Enough, MarkOne;
    var init, last := targets[..|targets| - 1], targets[|targets| - 1];
    if t in init {
      AllEnough(lines, init, stamp, t);
      EnoughKept(MarkAll(lines, init, stamp), last.0, last.1, stamp, t.0, t.1);
    } else {
      EnoughAfter(MarkAll(lines, init, stamp), t.0, t.1, stamp);
    }
  }

  lemma EnoughAfter(lines: seq<string>, run: Run, key: string, stamp: string)
    requires !HoldsDword(run.name)
    ensures Enough(MarkOne(lines, run, key, stamp), run, key)
  {
    if !Enough(lines, run, key) {
      var e, name := EditFor(run, key), Named(run.name);
      HitsSameSlot(lines, e, stamp, key, name);
      PutLocates(lines, e, stamp, key, name);
      PutTarget(lines, e, stamp);
      RunLineReads(run);
    }
  }

  lemma {:induction false} NothingToMark(lines: seq<string>, targets: seq<(Run, string)>, stamp: string)
    ensures MarkChanges(lines, targets, stamp) == 0 <==> forall t :: t in targets ==> Enough(lines, t.0, t.1)
    ensures MarkChanges(lines, targets, stamp) == 0 ==> MarkAll(lines, targets, stamp) == lines
  {
    hide Enough;
    if targets != [] {
      var init, last := targets[..|targets| - 1], targets[|targets| - 1];
      assert targets == init + [last];
      NothingToMark(lines, init, stamp);
    }
  }

  /** Marking the same runs again writes nothing exactly when every name reads back; a name
      that holds "=dword:" is written again at every start. */
  lemma MarkAgain(lines: seq<string>, runs: seq<Run>, stamp: string, again: string)
    ensures var after := MarkAll(lines, Targets(runs), stamp);
      && (MarkChanges(after, Targets(runs), again) == 0 <==> forall run :: run in runs ==> !HoldsDword(run.name))
      && (MarkChanges(after, Targets(runs), again) == 0 ==> MarkAll(after, Targets(runs), again) == after)
  {
    var after := MarkAll(lines, Targets(runs), stamp);
    NothingToMark(after, Targets(runs), again);
    hide Enough, MarkAll, HoldsDword;
    if forall run :: run in runs ==> !HoldsDword(run.name) {
      forall t | t in Targets(runs) ensures Enough(after, t.0, t.1) {
        TargetsAreRuns(runs, t);
        AllEnough(lines, Targets(runs), stamp, t);
      }
    } else {
      var run :| run in runs && HoldsDword(run.name);
      TargetsHold(runs, run);
      NeverEnough(after, run, run.key);
      assert (run, run.key) in Targets(runs);
    }
  }

  lemma NeverEnough(lines: seq<string>, run: Run, key: string)
    requires HoldsDword(run.name)
    ensures !Enough(lines, run, key)
  {
    var slot := Locate(lines, key, Named(run.name));
    if slot.At? { HiddenDword(run.name, lines[slot.index]); }
  }

  // ---------------------------------------------------------------- every other line stays

  /** The edits that marking makes. */
  function Written(lines: seq<string>, targets: seq<(Run, string)>, stamp: string): seq<Edit> {
    if targets == [] then []
    else
      var init, last := targets[..|targets| - 1], targets[|targets| - 1];
      Written(lines, init, stamp) +
        (if Enough(MarkAll(lines, init, stamp), last.0, last.1) then [] else [EditFor(last.0, last.1)])
  }

  lemma PutAllAppend(lines: seq<string>, edits: seq<Edit>, e: Edit, stamp: string)
    ensures PutAll(lines, edits + [e], stamp) == Put(PutAll(lines, edits, stamp), e, stamp)
  {
    assert (edits + [e])[..|edits|] == edits;
  }

  lemma {:induction false} MarkingIsEditing(lines: seq<string>, targets: seq<(Run, string)>, stamp: string)
    ensures MarkAll(lines, targets, stamp) == PutAll(lines, Written(lines, targets, stamp), stamp)
  {
    hide Enough, Put, EditFor;
    if targets != [] {
      var init, last := targets[..|targets| - 1], targets[|targets| - 1];
      MarkingIsEditing(lines, init, stamp);
      PutAllAppend(lines, Written(lines, init, stamp), EditFor(last.0, last.1), stamp);
      assert Written(lines, init, stamp) + [] == Written(lines, init, stamp);
    }
  }

  lemma {:induction false} WrittenAreTargets(lines: seq<string>, targets: seq<(Run, string)>, stamp: string)
    ensures forall e :: e in Written(lines, targets, stamp) ==> exists t :: t in targets && e == EditFor(t.0, t.1)
  {
    hide Enough, MarkAll, EditFor;
    if targets != [] { WrittenAreTargets(lines, targets[..|targets| - 1], stamp); }
  }

  lemma WrittenAreValid(lines: seq<string>, targets: seq<(Run, string)>, stamp: string)
    ensures ValidEdits(Written(lines, targets, stamp))
  {
    WrittenAreTargets(lines, targets, stamp);
    hide Written, Prefix;
  }

  /** Every line with content stays, in order, unless it was the line of a marked value. */
  lemma MarkKeepsOtherLines(lines: seq<string>, runs: seq<Run>, stamp: string) returns (f: seq<nat>)
    ensures Keeps(lines, MarkAll(lines, Targets(runs), stamp), Written(lines, Targets(runs), stamp), stamp, f)
  {
    MarkingIsEditing(lines, Targets(runs), stamp);
    WrittenAreValid(lines, Targets(runs), stamp);
    f := EditsKeepOtherLines(lines, Written(lines, Targets(runs), stamp), stamp);
  }

  // ---------------------------------------------------------------- as texts

  /** A run whose name and key have no line break. */
  predicate OneLine(run: Run) { '\n' !in run.name && '\n' !in run.key }

  const WOW_KEY := "Software\\Wow6432Node\\"

  /** A key of a run is its own or, in the 32-bit view, its own below Software moved. */
  lemma KeyParts(run: Run, key: string)
    requires key in Keys(run) && key != run.key
    ensures |SOFTWARE| <= |run.key| && key == WOW_KEY + run.key[|SOFTWARE|..]
    ensures forall i :: 0 <= i < |SOFTWARE| ==> run.key[i] != '\n'
  {
    assert |Lower(run.key)| == |run.key|;
    forall i | 0 <= i < |SOFTWARE| ensures run.key[i] != '\n' {
      assert Lower(run.key)[i] == SOFTWARE[i];
    }
  }

  lemma KeyBreaks(run: Run, key: string)
    requires key in Keys(run)
    ensures '\n' in key <==> '\n' in run.key
  {
    if key != run.key {
      KeyParts(run, key);
      hide Keys;
      var n := |SOFTWARE|;
      assert run.key == run.key[..n] + run.key[n..];
      assert '\n' !in WOW_KEY && '\n' !in run.key[..n];
    }
  }

  lemma NoBreakDigits(s: string)
    requires Numbers.AreDigits(s)
    ensures '\n' !in s
  {
  }

  lemma NoBreakIn(a: string, b: string, c: string, d: string)
    requires '\n' !in a && '\n' !in b && '\n' !in c && '\n' !in d
    ensures '\n' !in a + b + (a + c + d)
  {
  }

  lemma OneLineTarget(run: Run, key: string)
    requires OneLine(run) && key in Keys(run)
    ensures '\n' !in RunLine(run) && '\n' !in Header(key)
  {
    KeyBreaks(run, key);
    EscapeKeepsOut(run.name, '\n');
    EscapeKeepsOut(key, '\n');
    RunLineIs(run);
    hide Keys, RunLine, Escape, Numbers.Hex;
    Numbers.HexReads(run.value, 8);
    NoBreakDigits(Numbers.Hex(run.value, 8));
    NoBreakIn("\"", Escape(run.name), DWORD, Numbers.Hex(run.value, 8));
  }

  /** The lines of the marked text are the marked lines. */
  lemma MarkedLines(runs: seq<Run>, text: string, stamp: string)
    requires '\n' !in stamp && forall run :: run in runs ==> OneLine(run)
    ensures Split(MarkedText(runs, text, stamp), '\n') == MarkAll(Split(text, '\n'), Targets(runs), stamp)
  {
    var lines, targets := Split(text, '\n'), Targets(runs);
    MarkingIsEditing(lines, targets, stamp);
    WrittenAreTargets(lines, targets, stamp);
    hide Enough, Written, MarkAll, OneLine, RunLine, Keys;
    forall e | e in Written(lines, targets, stamp) ensures '\n' !in e.line && '\n' !in Header(e.key) + stamp {
      var t :| t in targets && e == EditFor(t.0, t.1);
      TargetsAreRuns(runs, t);
      OneLineTarget(t.0, t.1);
    }
    PutAllOneLine(lines, Written(lines, targets, stamp), stamp);
    SplitJoin(MarkAll(lines, targets, stamp), '\n');
  }

  /** A run with a line break in its name or key is never found in any text. */
  lemma BrokenNeverRecorded(run: Run, text: string)
    requires !OneLine(run)
    ensures Recorded(run, Split(text, '\n')) == None
  {
    var lines := Split(text, '\n');
    RecordedAtLeast(run, lines, 0);
    forall key: string, s: nat, e: nat, k: nat | key in Keys(run) && HoldsAt(lines, key, run.name, 0, s, e, k) ensures false {
      if '\n' in run.name {
        EscapeKeepsIn(run.name, '\n');
        BreakNeverMatches(Prefix(Named(run.name)), lines[k]);
      } else {
        KeyBreaks(run, key);
        EscapeKeepsIn(key, '\n');
        BreakNeverMatches(Header(key), lines[s]);
      }
    }
  }

  lemma {:induction false} LowerKeepsBreak(s: string)
    ensures '\n' in Lower(s) <==> '\n' in s
  {
    if s != "" {
      LowerKeepsBreak(s[1..]);
      assert Lower(s) == [LowerChar(s[0])] + Lower(s[1..]);
    }
  }

  lemma BreakNeverMatches(prefix: string, line: string)
    requires '\n' in prefix && '\n' !in line
    ensures !Matches(prefix, line)
  {
    LowerKeepsBreak(prefix);
    LowerKeepsBreak(line);
    hide Lower;
  }

  /** A run of a list is marked by the list exactly when its name does not hold "=dword:" (or
      it asks for nothing), in any text, as long as no name or key of the list has a break. */
  lemma MarkedTextAfter(runs: seq<Run>, text: string, stamp: string, run: Run)
    requires '\n' !in stamp && (forall r :: r in runs ==> OneLine(r)) && run in runs
    ensures Marked(run, Split(MarkedText(runs, text, stamp), '\n')) <==> run.value == 0 || !HoldsDword(run.name)
  {
    MarkedLines(runs, text, stamp);
    MarkedAfter(Split(text, '\n'), runs, stamp, run);
  }

  // ---------------------------------------------------------------- a line break in a name

  /** A run whose name holds a line break and a header, and one below the real section of that name. */
  const WRITER := Run("a\n[Y]", true, "K", 1)
  const READER := Run("v", true, "Y", 1)

  function BothSections(): seq<string> { ["[K]", "[Y]", RunLine(READER)] }

  lemma PlainLines(s: string)
    requires '\\' !in s && '\"' !in s
    ensures Prefix(Named(s)) == "\"" + s + "\"=" && Header(s) == "[" + s + "]"
  {
    PlainEscape(s);
  }

  lemma PlainNames()
    ensures Prefix(Named("v")) == "\"v\"=" && Prefix(Named("a\n[Y]")) == "\"a\n[Y]\"="
    ensures Header("K") == "[K]" && Header("Y") == "[Y]"
  {
    hide Prefix, Header;
    PlainLines("v");
    PlainLines("a\n[Y]");
    PlainLines("K");
    PlainLines("Y");
  }

  lemma PlainKeys()
    ensures Keys(WRITER) == ["K"] && Keys(READER) == ["Y"]
    ensures Header("K") == "[K]" && Header("Y") == "[Y]" && OneLine(READER)
    ensures Prefix(Named("v")) == "\"v\"=" && Prefix(Named(WRITER.name)) == "\"a\n[Y]\"="
    ensures !HoldsDword(READER.name) && !HoldsDword(WRITER.name)
  {
    PlainNames();
    hide Prefix, Header;
    assert |Lower("K")| == 1 && |Lower("Y")| == 1;
  }

  /** What the broken name makes of its line. */
  function Tail(): string { "[Y]\"=" + "dword:" + Numbers.Hex(1, 8) }

  function HiddenSections(): seq<string> { ["[K]", "\"a", Tail(), "[Y]", RunLine(READER)] }

  lemma FirstLines()
    ensures !Matches("[Y]", "[K]") && !Matches("[Y]", "\"a") && Matches("[Y]", "[Y]") && Matches("[K]", "[K]")
    ensures Matches("[Y]", Tail())
  {
    assert Lower("[Y]")[1] == 'y' && Lower("[K]")[1] == 'k' && Lower("\"a")[0] == '\"';
    LowerConcat("[Y]", "\"=" + "dword:" + Numbers.Hex(1, 8));
    assert Tail() == "[Y]" + ("\"=" + "dword:" + Numbers.Hex(1, 8));
  }

  lemma ValueBefore()
    ensures Recorded(READER, BothSections()) == Some(1)
  {
    hide First, SectionEnd, Keys, Escape, DwordOf, BestIn, Matches;
    var lines := BothSections();
    PlainKeys();
    FirstLines();
    FirstIs(lines, 0, 3, Header("Y"), 1);
    RunLineReads(READER);
    RunLineMatches(READER);
    ValueLine(Named("v"), RunLine(READER));
    assert SectionEnd(lines, 2) == 3 by { EndOfText(lines); }
    OneLineIn(lines, 2, "v");
    assert BestOfKeys(lines, ["Y"], "v") == Larger(BestOfKeys(lines, [], "v"), Best(lines, "Y", "v")) by { assert ["Y"][..0] == []; }
  }

  lemma EndOfText(lines: seq<string>)
    requires |lines| >= 1 && !OpensSection(lines[|lines| - 1])
    ensures SectionEnd(lines, |lines| - 1) == |lines|
  {
  }

  lemma OneLineIn(lines: seq<string>, k: nat, name: string)
    requires k < |lines| && Matches(Prefix(Named(name)), lines[k])
    ensures BestIn(lines, k, k + 1, name) == DwordOf(lines[k])
  {
  }

  lemma WriterPlace()
    ensures Locate(BothSections(), "K", Named(WRITER.name)) == NoLine(1)
  {
    hide First, Escape, DwordOf, Matches, RunLine;
    var lines := BothSections();
    PlainKeys();
    FirstLines();
    FirstIs(lines, 0, 3, Header("K"), 0);
    NextOpens(lines, 1);
    assert ContentEnd(lines, 1, 1) == 1;
  }

  lemma WriterTarget(lines: seq<string>, stamp: string)
    ensures MarkAll(lines, Targets([WRITER]), stamp) == MarkOne(lines, WRITER, "K", stamp)
  {
    hide MarkOne, Keys, Escape, Header, Prefix;
    PlainKeys();
    assert [WRITER][..0] == [] && ["K"][..0] == [];
    assert TargetsOf(WRITER, ["K"]) == [] + [(WRITER, "K")];
    assert Targets([WRITER]) == [] + TargetsOf(WRITER, ["K"]) == [(WRITER, "K")];
    assert [(WRITER, "K")][..0] == [];
  }

  lemma MarkedHides(stamp: string)
    ensures MarkAll(BothSections(), Targets([WRITER]), stamp) == ["[K]", RunLine(WRITER), "[Y]", RunLine(READER)]
  {
    hide Locate, MarkAll, Targets, RunLine;
    var lines := BothSections();
    WriterPlace();
    WriterTarget(lines, stamp);
    assert MarkOne(lines, WRITER, "K", stamp) == lines[..1] + [RunLine(WRITER)] + lines[1..];
  }

  lemma NextOpens(lines: seq<string>, k: nat)
    requires k < |lines| && OpensSection(lines[k])
    ensures SectionEnd(lines, k) == k
  {
  }

  lemma WriterLine()
    ensures RunLine(WRITER) == "\"a" + "\n" + "[Y]\"=" + "dword:" + Numbers.Hex(1, 8)
  {
    hide Numbers.Hex;
    PlainKeys();
    hide Prefix;
    assert "\"a\n[Y]\"=" == "\"a" + "\n" + "[Y]\"=";
  }

  lemma TailIsOneLine()
    ensures '\n' !in Tail() && RunLine(WRITER) == "\"a" + "\n" + Tail()
  {
    var hex := Numbers.Hex(1, 8);
    hide Numbers.Hex, RunLine, Numbers.AreDigits;
    WriterLine();
    Numbers.HexReads(1, 8);
    NoBreakDigits(hex);
    SplitLine("\"a" + "\n", "[Y]\"=", "dword:", hex);
  }

  lemma SplitLine(a: string, b: string, c: string, d: string)
    ensures a + b + c + d == a + (b + c + d)
    ensures '\n' !in b && '\n' !in c && '\n' !in d ==> '\n' !in b + c + d
  {
  }

  lemma HiddenText(stamp: string)
    ensures Split(MarkedText([WRITER], Join(BothSections(), "\n"), stamp), '\n') == HiddenSections()
  {
    hide Join, Split, Keys, RunLine, Escape, MarkAll, Targets;
    PlainKeys();
    TailIsOneLine();
    OneLineTarget(READER, "Y");
    MarkedHides(stamp);
    SplitJoin(BothSections(), '\n');
    SplitJoin(HiddenSections(), '\n');
    SameText("[K]", "\"a", Tail(), "[Y]", RunLine(READER));
  }

  lemma SameText(a: string, b: string, c: string, d: string, e: string)
    ensures Join([a, b + "\n" + c, d, e], "\n") == Join([a, b, c, d, e], "\n")
  {
    assert Join([d, e], "\n") == d + "\n" + e;
    assert [a, b, c, d, e][1..] == [b, c, d, e] && [b, c, d, e][1..] == [c, d, e] && [c, d, e][1..] == [d, e];
    assert [a, b + "\n" + c, d, e][1..] == [b + "\n" + c, d, e] && [b + "\n" + c, d, e][1..] == [d, e];
    assert Join([c, d, e], "\n") == c + "\n" + Join([d, e], "\n");
    assert Join([b, c, d, e], "\n") == b + "\n" + Join([c, d, e], "\n");
    assert Join([b + "\n" + c, d, e], "\n") == b + "\n" + c + "\n" + Join([d, e], "\n");
  }

  lemma ValueAfter()
    ensures Recorded(READER, HiddenSections()) == None
  {
    hide First, SectionEnd, Keys, Escape, DwordOf, Matches, RunLine, Tail;
    var lines := HiddenSections();
    PlainKeys();
    FirstLines();
    FirstIs(lines, 0, 5, Header("Y"), 2);
    NextOpens(lines, 3);
    assert ["Y"][..0] == [];
    assert BestOfKeys(lines, ["Y"], "v") == Larger(BestOfKeys(lines, [], "v"), Best(lines, "Y", "v"));
  }

  /** Recording the first run hides the value of the second: the next reader takes the rest of the
      broken name for the section it looks for. */
  lemma BrokenNameHidesValues(stamp: string)
    ensures var text := Join(BothSections(), "\n");
      && Recorded(READER, Split(text, '\n')) == Some(1)
      && Recorded(READER, Split(MarkedText([WRITER], text, stamp), '\n')) == None
  {
    hide Recorded, MarkedText, Split, Join, RunLine;
    PlainKeys();
    OneLineTarget(READER, "Y");
    SplitJoin(BothSections(), '\n');
    ValueBefore();
    HiddenText(stamp);
    ValueAfter();
  }
}
