/** Recording one-time installs in a .reg text (`SteamInstallScripts.mark`) and reading them
    back (`DockInstallScripts.recorded`, `marked`). */
module InstallRecords {
  import opened Text
  import opened Numbers
  import opened RegistryLines

  type Word = x: nat | x < 0x1_0000_0000

  /** One "Run Process" entry of an install script. */
  datatype Run = Run(name: string, machine: bool, key: string, value: Word)

  // ---------------------------------------------------------------- keys and lines

  const SOFTWARE := "software\\"
  const WOW := "software\\wow6432node\\"

  /** The keys a run is recorded under: a machine key below Software is also written in the
      32-bit view. */
  function Keys(run: Run): (keys: seq<string>)
    ensures |keys| > 0 && keys[0] == run.key
  {
    var lower := Lower(run.key);
    if run.machine && SOFTWARE <= lower && !(WOW <= lower)
    then [run.key, "Software\\Wow6432Node\\" + run.key[|SOFTWARE|..]]
    else [run.key]
  }

  const DWORD := "=dword:"

  /** The number of a dword line: what follows the first "=dword:", letter case aside. */
  function DwordOf(line: string): Option<nat> {
    var at := Find(Lower(line), DWORD);
    if at == |line| then None else ParseUnsigned(Trim(line[at + |DWORD|..], true), Sixteen)
  }

  function RunLine(run: Run): string { Prefix(Named(run.name)) + "dword:" + Hex(run.value, 8) }

  function EditFor(run: Run, key: string): Edit { Edit(key, Named(run.name), RunLine(run)) }

  /** The runs with each of their keys, in writing order. */
  function Targets(runs: seq<Run>): seq<(Run, string)> {
    if runs == [] then []
    else
      var last := runs[|runs| - 1];
      Targets(runs[..|runs| - 1]) + TargetsOf(last, Keys(last))
  }

  function TargetsOf(run: Run, keys: seq<string>): seq<(Run, string)> {
    if keys == [] then [] else TargetsOf(run, keys[..|keys| - 1]) + [(run, keys[|keys| - 1])]
  }

  // ---------------------------------------------------------------- reading

  function Larger(a: Option<nat>, b: Option<nat>): Option<nat> {
    if a.None? then b else if b.None? then a else if a.value >= b.value then a else b
  }

  /** The largest number of the value's lines in lines[lo..hi]. */
  function BestIn(lines: seq<string>, lo: nat, hi: nat, name: string): Option<nat>
    requires lo <= hi <= |lines|
  {
    if lo == hi then None
    else
      var init := BestIn(lines, lo, hi - 1, name);
      if Matches(Prefix(Named(name)), lines[hi - 1]) then Larger(init, DwordOf(lines[hi - 1])) else init
  }

  /** The largest number a value has in the section of a key. */
  function Best(lines: seq<string>, key: string, name: string): Option<nat> {
    var start := Section(lines, key);
    if start == |lines| then None else BestIn(lines, start + 1, SectionEnd(lines, start + 1), name)
  }

  function BestOfKeys(lines: seq<string>, keys: seq<string>, name: string): Option<nat> {
    if keys == [] then None else Larger(BestOfKeys(lines, keys[..|keys| - 1], name), Best(lines, keys[|keys| - 1], name))
  }

  /** The value a run has in the text: the highest of both views. */
  function Recorded(run: Run, lines: seq<string>): Option<nat> { BestOfKeys(lines, Keys(run), run.name) }

  predicate Marked(run: Run, lines: seq<string>) {
    (match Recorded(run, lines) case Some(v) => v case None => 0) >= run.value
  }

  lemma LowerFind(line: string)
    ensures Find(Lower(Lower(line)), DWORD) == Find(Lower(line), DWORD)
  {
    LowerIdempotent(line);
  }

  lemma {:induction false} TrimLeftLower(s: string)
    ensures TrimLeft(Lower(s), true) == Lower(TrimLeft(s, true))
  {
    if s != "" {
      assert Lower(s)[1..] == Lower(s[1..]);
      TrimLeftLower(s[1..]);
    }
  }

  lemma {:induction false} TrimRightLower(s: string)
    ensures TrimRight(Lower(s), true) == Lower(TrimRight(s, true))
  {
    if s != "" {
      assert Lower(s)[..|s| - 1] == Lower(s[..|s| - 1]);
      TrimRightLower(s[..|s| - 1]);
    }
  }

  lemma {:induction false} DigitsLower(s: string)
    ensures Digits(Lower(s), Sixteen) == Digits(s, Sixteen)
  {
    if s != "" {
      assert Lower(s)[..|s| - 1] == Lower(s[..|s| - 1]);
      assert Lower(s)[|s| - 1] == LowerChar(s[|s| - 1]);
      DigitsLower(s[..|s| - 1]);
    }
  }

  lemma UnsignLower(s: string)
    ensures Unsign(Lower(s)).0 == Unsign(s).0 && Unsign(Lower(s)).1 == Lower(Unsign(s).1)
  {
    if s != "" {
      assert Lower(s)[1..] == Lower(s[1..]);
      assert Lower(s)[0] == LowerChar(s[0]);
    }
  }

  lemma ParseLower(s: string)
    ensures ParseUnsigned(Lower(s), Sixteen) == ParseUnsigned(s, Sixteen)
  {
    UnsignLower(s);
    DigitsLower(Unsign(s).1);
  }

  lemma TrimLower(s: string)
    ensures Trim(Lower(s), true) == Lower(Trim(s, true))
  {
    TrimLeftLower(s);
    TrimRightLower(TrimLeft(s, true));
  }

  /** `recorded` reads the lowercased line: the number is the same. */
  lemma DwordLower(line: string)
    ensures DwordOf(Lower(line)) == DwordOf(line)
  {
    hide Find, ParseUnsigned, Trim;
    LowerFind(line);
    var at := Find(Lower(line), DWORD);
    if at < |line| {
      var rest := line[at + |DWORD|..];
      assert Lower(line)[at + |DWORD|..] == Lower(rest);
      TrimLower(rest);
      ParseLower(Trim(rest, true));
    }
  }

  /** The inner loop of `recorded`: the lines of one section. */
  method ReadSection(lines: seq<string>, start: nat, name: string, before: Option<nat>) returns (best: Option<nat>)
    requires start < |lines|
    ensures best == Larger(before, BestIn(lines, start + 1, SectionEnd(lines, start + 1), name))
  {
    best := before;
    var prefix := Lower(Prefix(Named(name)));
    var index := start + 1;
    while index < |lines| && !OpensSection(lines[index])
      invariant start < index <= |lines|
      invariant SectionEnd(lines, index) == SectionEnd(lines, start + 1)
      invariant best == Larger(before, BestIn(lines, start + 1, index, name))
    {
      var line := Lower(lines[index]);
      if prefix <= line {
        DwordLower(lines[index]);
        best := Larger(best, DwordOf(line));
      }
      index := index + 1;
    }
  }

  lemma SectionIsFirst(lines: seq<string>, key: string, name: string)
    ensures Section(lines, key) == First(lines, 0, |lines|, Header(key))
    ensures Best(lines, key, name) == if Section(lines, key) == |lines| then None
      else BestIn(lines, Section(lines, key) + 1, SectionEnd(lines, Section(lines, key) + 1), name)
  {
    hide First, Header, BestIn, SectionEnd;
  }

  lemma NoLarger(a: Option<nat>)
    ensures Larger(a, None) == a
  {
  }

  /** `recorded`. */
  method ReadRecorded(run: Run, text: string) returns (best: Option<nat>)
    ensures best == Recorded(run, Split(text, '\n'))
  {
    hide Split, BestIn, SectionEnd, Larger, Header, First, Keys;
    var lines := Split(text, '\n');
    var keys := Keys(run);
    best := None;
    for i := 0 to |keys|
      invariant best == BestOfKeys(lines, keys[..i], run.name)
    {
      var start := First(lines, 0, |lines|, Header(keys[i]));
      assert keys[..i + 1][..i] == keys[..i];
      SectionIsFirst(lines, keys[i], run.name);
      NoLarger(best);
      if start < |lines| { best := ReadSection(lines, start, run.name, best); }
    }
    assert keys[..|keys|] == keys;
  }
}
