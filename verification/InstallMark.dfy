/** `SteamInstallScripts.mark`: every run's value raised to its minimum in a .reg text, and
    what that does to the values a later start reads. */
module InstallMark {
  import opened Text
  import opened RegistryLines
  import opened InstallRecords

  // ---------------------------------------------------------------- the method

  /** The first line for the run under this key holds at least its minimum. */
  predicate Enough(lines: seq<string>, run: Run, key: string) {
    match Locate(lines, key, Named(run.name))
    case At(i) => DwordOf(lines[i]).Some? && DwordOf(lines[i]).value >= run.value
    case _ => false
  }

  function MarkOne(lines: seq<string>, run: Run, key: string, stamp: string): seq<string> {
    if Enough(lines, run, key) then lines else Put(lines, EditFor(run, key), stamp)
  }

  function MarkAll(lines: seq<string>, targets: seq<(Run, string)>, stamp: string): seq<string> {
    if targets == [] then lines
    else
      var last := targets[|targets| - 1];
      MarkOne(MarkAll(lines, targets[..|targets| - 1], stamp), last.0, last.1, stamp)
  }

  /** How many values had to be written. */
  function MarkChanges(lines: seq<string>, targets: seq<(Run, string)>, stamp: string): nat {
    if targets == [] then 0
    else
      var init, last := targets[..|targets| - 1], targets[|targets| - 1];
      MarkChanges(lines, init, stamp) + (if Enough(MarkAll(lines, init, stamp), last.0, last.1) then 0 else 1)
  }

  method MarkKey(before: seq<string>, run: Run, key: string, stamp: string) returns (lines: seq<string>, changed: nat)
    ensures lines == MarkOne(before, run, key, stamp)
    ensures changed == if Enough(before, run, key) then 0 else 1
  {
    lines := before;
    var valueLine := RunLine(run);
    changed := 1;
    var start := First(lines, 0, |lines|, Header(key));
    if start < |lines| {
      var end := FindSectionEnd(lines, start);
      var index := First(lines, start + 1, end, Prefix(Named(run.name)));
      if index < end {
        assert Locate(before, key, Named(run.name)) == At(index);
        var current := DwordOf(lines[index]);
        if current.Some? && current.value >= run.value { return lines, 0; }
        lines := lines[index := valueLine];
      } else {
        var at := SkipBlanksBack(lines, start + 1, end);
        assert Locate(before, key, Named(run.name)) == NoLine(at);
        lines := lines[..at] + [valueLine] + lines[at..];
      }
    } else {
      var content := SkipBlanksBack(lines, 0, |lines|);
      lines := lines[..content];
      lines := lines + ["", Header(key) + stamp, valueLine, ""];
    }
  }

  lemma MarkNext(lines: seq<string>, done: seq<(Run, string)>, run: Run, keys: seq<string>, i: nat, stamp: string)
    requires i < |keys|
    ensures var before, after := done + TargetsOf(run, keys[..i]), done + TargetsOf(run, keys[..i + 1]);
      && MarkAll(lines, after, stamp) == MarkOne(MarkAll(lines, before, stamp), run, keys[i], stamp)
      && MarkChanges(lines, after, stamp) ==
           MarkChanges(lines, before, stamp) + (if Enough(MarkAll(lines, before, stamp), run, keys[i]) then 0 else 1)
  {
    assert keys[..i + 1][..i] == keys[..i];
    var before, after := done + TargetsOf(run, keys[..i]), done + TargetsOf(run, keys[..i + 1]);
    assert after == before + [(run, keys[i])];
    assert after[..|after| - 1] == before;
  }

  /** The loop over the keys of one run. */
  method MarkRun(before: seq<string>, ghost start: seq<string>, ghost done: seq<(Run, string)>, run: Run, stamp: string)
    returns (lines: seq<string>, changed: nat)
    requires before == MarkAll(start, done, stamp)
    ensures lines == MarkAll(start, done + TargetsOf(run, Keys(run)), stamp)
    ensures MarkChanges(start, done + TargetsOf(run, Keys(run)), stamp) == MarkChanges(start, done, stamp) + changed
  {
    var keys := Keys(run);
    lines, changed := before, 0;
    assert done + TargetsOf(run, keys[..0]) == done;
    for i := 0 to |keys|
      invariant lines == MarkAll(start, done + TargetsOf(run, keys[..i]), stamp)
      invariant MarkChanges(start, done + TargetsOf(run, keys[..i]), stamp) == MarkChanges(start, done, stamp) + changed
    {
      var more: nat;
      MarkNext(start, done, run, keys, i, stamp);
      lines, more := MarkKey(lines, run, keys[i], stamp);
      changed := changed + more;
    }
    assert keys[..|keys|] == keys;
  }

  /** The marked text. */
  function MarkedText(runs: seq<Run>, text: string, stamp: string): string {
    Join(MarkAll(Split(text, '\n'), Targets(runs), stamp), "\n")
  }

  /** `mark`: for every run, under each of its keys, the value is raised to the run's minimum
      when the first line for it holds less, holds no number, or does not exist. */
  method Mark(runs: seq<Run>, text: string, stamp: string) returns (out: string, changed: nat)
    ensures out == MarkedText(runs, text, stamp)
    ensures changed == MarkChanges(Split(text, '\n'), Targets(runs), stamp)
  {
    var lines := Split(text, '\n');
    ghost var start := lines;
    changed := 0;
    for i := 0 to |runs|
      invariant lines == MarkAll(start, Targets(runs[..i]), stamp)
      invariant changed == MarkChanges(start, Targets(runs[..i]), stamp)
    {
      var more: nat;
      lines, more := MarkRun(lines, start, Targets(runs[..i]), runs[i], stamp);
      changed := changed + more;
      TargetsNext(runs, i);
    }
    assert runs[..|runs|] == runs;
    out := Join(lines, "\n");
  }

  lemma TargetsNext(runs: seq<Run>, i: nat)
    requires i < |runs|
    ensures Targets(runs[..i + 1]) == Targets(runs[..i]) + TargetsOf(runs[i], Keys(runs[i]))
  {
    assert runs[..i + 1][..i] == runs[..i];
  }
}
