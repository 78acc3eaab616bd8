/** Which recorded lines read back: a name that holds "=dword:" hides its own number. */
module InstallDwords {
  import opened Text
  import opened Numbers
  import opened RegistryLines
  import opened Patterns
  import opened InstallRecords

  /** The text holds "=dword:", letter case aside. */
  predicate HoldsDword(s: string) { Find(Lower(s), DWORD) < |s| }

  lemma DwordIsPlain()
    ensures Plain(DWORD)
  {
  }

  // ---------------------------------------------------------------- a readable line

  lemma LowerDigits(s: string)
    requires AreDigits(s)
    ensures Lower(s) == s
  {
    forall i | 0 <= i < |s| ensures Lower(s)[i] == s[i] {
      assert s[i] in s;
    }
  }

  lemma Regroup(q: string, e: string, x: string, y: string, d: string)
    ensures q + (e + (q + x)) + y + d == q + e + (q + (x + y) + d)
  {
  }

  lemma LowerParts(q: string, e: string, tail: string)
    ensures Lower(q + e + tail) == Lower(q) + Lower(e) + Lower(tail)
  {
    LowerConcat(q + e, tail);
    LowerConcat(q, e);
  }

  lemma DwordLiterals()
    ensures "=" + "dword:" == DWORD && Lower("\"") == "\"" && Lower("\"" + DWORD) == "\"" + DWORD
  {
  }

  lemma LowerTail(data: string)
    requires AreDigits(data)
    ensures Lower("\"" + DWORD + data) == "\"" + DWORD + data
  {
    LowerDigits(data);
    LowerConcat("\"" + DWORD, data);
    DwordLiterals();
  }

  lemma RunLineIs(run: Run)
    ensures RunLine(run) == "\"" + Escape(run.name) + ("\"" + DWORD + Hex(run.value, 8))
  {
    hide Hex, Escape;
    Regroup("\"", Escape(run.name), "=", "dword:", Hex(run.value, 8));
    DwordLiterals();
  }

  lemma RunLineParts(run: Run)
    ensures RunLine(run) == "\"" + Escape(run.name) + ("\"" + DWORD + Hex(run.value, 8))
    ensures Lower(RunLine(run)) == "\"" + Escape(Lower(run.name)) + ("\"" + DWORD + Hex(run.value, 8))
  {
    RunLineIs(run);
    hide RunLine, Hex, Escape, Lower;
    HexReads(run.value, 8);
    LowerTail(Hex(run.value, 8));
    LowerEscape(run.name);
    DwordLiterals();
    LowerParts("\"", Escape(run.name), "\"" + DWORD + Hex(run.value, 8));
  }

  lemma EscapedHoldsNone(p: string, s: string)
    requires Plain(p) && Find(s, p) == |s|
    ensures Nowhere(p, Escape(s))
  {
    forall k | StandsAt(p, Escape(s), k) ensures false {
      var j := EscapeMakesNone(p, s, k);
      FindBefore(p, s, j);
    }
  }

  lemma DigitsReadBack(v: Word)
    ensures ParseUnsigned(Trim(Hex(v, 8), true), Sixteen) == Some(v)
  {
    var data := Hex(v, 8);
    HexReads(v, 8);
    assert data != "";
    assert data[0] in data && data[|data| - 1] in data;
    TrimKeeps(data, true);
    ParseHex(v, 8);
  }

  lemma OwnDword(run: Run)
    requires !HoldsDword(run.name)
    ensures Find(Lower(RunLine(run)), DWORD) == |Escape(run.name)| + 2
  {
    var tail := "\"" + DWORD + Hex(run.value, 8);
    assert Find(Lower(run.name), DWORD) == |Lower(run.name)|;
    hide RunLine, Hex, Escape, Lower, HoldsDword, Find;
    DwordIsPlain();
    RunLineParts(run);
    EscapedHoldsNone(DWORD, Lower(run.name));
    LowerEscape(run.name);
    TailOfLine(Hex(run.value, 8));
    FirstAfterQuote(DWORD, Escape(Lower(run.name)), tail);
  }

  lemma TailOfLine(data: string)
    ensures var tail := "\"" + DWORD + data; |tail| > 1 && tail[0] == '\"' && DWORD <= tail[1..]
  {
    assert ("\"" + DWORD + data)[1..] == DWORD + data;
  }

  lemma DataAfter(e: string, data: string)
    ensures ("\"" + e + ("\"" + DWORD + data))[|e| + 2 + |DWORD|..] == data
  {
  }

  /** The line written for a run reads back as its minimum. */
  lemma RunLineReads(run: Run)
    requires !HoldsDword(run.name)
    ensures DwordOf(RunLine(run)) == Some(run.value)
  {
    RunLineIs(run);
    OwnDword(run);
    DataAfter(Escape(run.name), Hex(run.value, 8));
    DigitsReadBack(run.value);
    hide RunLine, Hex, Escape, Lower, HoldsDword, ParseUnsigned, Trim, Find;
  }

  // ---------------------------------------------------------------- a line that hides its number

  lemma {:induction false} QuoteIsNoDigit(s: string)
    requires '\"' in s
    ensures Digits(s, Sixteen) == None
  {
    var init, last := s[..|s| - 1], s[|s| - 1];
    if last != '\"' {
      assert s == init + [last];
      QuoteIsNoDigit(init);
    }
  }

  lemma {:induction false} TrimLeftKeeps(s: string, c: char)
    requires c in s && !IsSpaceOrNewline(c)
    ensures c in TrimLeft(s, true)
  {
    if Trimmable(s[0], true) {
      assert s == [s[0]] + s[1..];
      TrimLeftKeeps(s[1..], c);
    }
  }

  lemma {:induction false} TrimRightKeeps(s: string, c: char)
    requires c in s && !IsSpaceOrNewline(c)
    ensures c in TrimRight(s, true)
  {
    if Trimmable(s[|s| - 1], true) {
      assert s == s[..|s| - 1] + [s[|s| - 1]];
      TrimRightKeeps(s[..|s| - 1], c);
    }
  }

  lemma QuoteNeverParses(rest: string)
    requires '\"' in rest
    ensures ParseUnsigned(Trim(rest, true), Sixteen) == None
  {
    TrimLeftKeeps(rest, '\"');
    TrimRightKeeps(TrimLeft(rest, true), '\"');
    var t := Trim(rest, true);
    assert t == [t[0]] + t[1..];
    QuoteIsNoDigit(Unsign(t).1);
  }

  /** A quote after an occurrence hides the number. */
  lemma QuoteHides(line: string, k: nat, q: nat)
    requires StandsAt(DWORD, Lower(line), k) && k + |DWORD| <= q < |line| && line[q] == '\"'
    ensures DwordOf(line) == None
  {
    FindBefore(DWORD, Lower(line), k);
    var at := Find(Lower(line), DWORD);
    var rest := line[at + |DWORD|..];
    assert rest[q - at - |DWORD|] == line[q];
    QuoteNeverParses(rest);
  }

  /** A value's line, lowercased: the quoted name and the rest. */
  lemma LineParts(name: string, line: string) returns (tail: string)
    requires Matches(Prefix(Named(name)), line)
    ensures Lower(line) == "\"" + (Escape(Lower(name)) + tail)
    ensures tail != "" && tail[0] == '\"' && |Escape(Lower(name))| == |Escape(name)|
  {
    LowerPrefix(name);
    LowerEscape(name);
    tail := Lower(line)[|Escape(name)| + 1..];
  }

  /** A pattern of a name stands in every line of that name, before the closing quote. */
  lemma NameStandsInLine(p: string, name: string, line: string) returns (k: nat)
    requires Plain(p) && Find(Lower(name), p) < |name| && Matches(Prefix(Named(name)), line)
    ensures StandsAt(p, Lower(line), k) && k + |p| <= |Escape(name)| + 1 < |line| && line[|Escape(name)| + 1] == '\"'
  {
    hide *;
    var inner, q := Escape(Lower(name)), |Escape(name)| + 1;
    var tail := LineParts(name, line);
    QuoteUnderLower(line, q);
    FindStands(p, Lower(name));
    var j := EscapeBreaksNone(p, Lower(name), Find(Lower(name), p));
    Earlier(p, inner, tail, j);
    Later(p, "\"", inner + tail, j);
    k := j + 1;
    StandsWithin(p, inner, j);
  }

  lemma QuoteUnderLower(line: string, q: nat)
    requires q < |line|
    ensures Lower(line)[q] == '\"' <==> line[q] == '\"'
  {
  }

  /** No line of a value whose name holds "=dword:" has a number. */
  lemma HiddenDword(name: string, line: string)
    requires HoldsDword(name) && Matches(Prefix(Named(name)), line)
    ensures DwordOf(line) == None
  {
    hide Matches, Prefix, Escape, Lower, DwordOf;
    DwordIsPlain();
    var k := NameStandsInLine(DWORD, name, line);
    QuoteHides(line, k, |Escape(name)| + 1);
  }
}
