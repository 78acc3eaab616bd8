/** The prefix extractor (`PrefixExtractor.c`): a tar stream read in blocks of 512 bytes into a
    tree of files. Bytes are characters; the decompressed stream is given. */
module PrefixArchive {
  import opened Text

  const BLOCK := 512
  const NUL: char := 0 as char
  const MAX_INT := 0x7FFF_FFFF

  // ---------------------------------------------------------------- the tree

  datatype Node = Dir | File(bytes: string)

  /** What lies below the destination folder, by path components. */
  type Tree = map<seq<string>, Node>

  predicate IsDir(tree: Tree, path: seq<string>) { path == [] || (path in tree && tree[path].Dir?) }

  /** `mkdir_p`: an existing name is no error, whatever it is; a name below a file is one. */
  function Mkdirs(tree: Tree, path: seq<string>): Option<Tree> {
    if path == [] then Some(tree)
    else
      var parent := path[..|path| - 1];
      match Mkdirs(tree, parent)
      case None => None
      case Some(t) => if path in t then Some(t) else if IsDir(t, parent) then Some(t[path := Dir]) else None
  }

  function NoDots(parts: seq<string>): seq<string> {
    if parts == [] then [] else (if parts[0] == "." then [] else [parts[0]]) + NoDots(parts[1..])
  }

  /** The components of a relative path. */
  function Components(path: string): seq<string> { NoDots(Pieces(path, '/')) }

  /** Everything before the last "/" of a relative path, and what follows it. */
  function ParentOf(path: string): seq<string> {
    var parts := Split(path, '/');
    NoDots(NonEmpty(parts[..|parts| - 1]))
  }

  function LastPart(path: string): string {
    var parts := Split(path, '/');
    parts[|parts| - 1]
  }

  /** Opening a file for writing after its parent was made, and writing its bytes. */
  function Store(tree: Tree, path: string, bytes: string): Option<Tree> {
    var parent, last := ParentOf(path), LastPart(path);
    if last == "" || last == "." then None
    else
      match Mkdirs(tree, parent)
      case None => None
      case Some(t) =>
        var full := parent + [last];
        if !IsDir(t, parent) || (full in t && t[full].Dir?) then None else Some(t[full := File(bytes)])
  }

  // ---------------------------------------------------------------- header fields

  /** A C string in a fixed field: what comes before the first NUL. */
  function CString(field: string): string {
    if field == "" || field[0] == NUL then "" else [field[0]] + CString(field[1..])
  }

  /** What `parse_octal` makes of a field: a number, or -1, or more than an int holds. */
  datatype Octal = Octal(value: int) | Overflow

  function ParseOctal(field: string, v: int): Octal {
    if field == "" || field[0] == NUL then Octal(v)
    else if field[0] == ' ' then ParseOctal(field[1..], v)
    else if field[0] < '0' || field[0] > '7' then Octal(-1)
    else
      var next := v * 8 + (field[0] - '0') as int;
      if next > MAX_INT then Overflow else ParseOctal(field[1..], next)
  }

  method ReadOctal(field: string) returns (r: Octal)
    ensures r == ParseOctal(field, 0)
  {
    var v := 0;
    var i := 0;
    while i < |field| && field[i] != NUL
      invariant 0 <= i <= |field|
      invariant ParseOctal(field[i..], v) == ParseOctal(field, 0)
    {
      assert field[i..][1..] == field[i + 1..];
      if field[i] == ' ' { i := i + 1; continue; }
      if field[i] < '0' || field[i] > '7' { return Octal(-1); }
      v := v * 8 + (field[i] - '0') as int;
      if v > MAX_INT { return Overflow; }
      i := i + 1;
    }
    return Octal(v);
  }

  /** The path below the destination: a leading "prefix/" goes. */
  function Relative(name: string): string {
    if "prefix/" <= name then name[7..] else if name == "prefix" then "" else name
  }

  predicate IsFolder(kind: char, name: string) {
    kind == '5' || (kind == NUL && name != "" && name[|name| - 1] == '/')
  }

  predicate IsFile(kind: char) { kind == '0' || kind == NUL }

  predicate IsExtension(kind: char) { kind == 'x' || kind == 'g' || kind == 'L' || kind == 'K' }

  predicate AllZero(block: string) { forall i :: 0 <= i < |block| ==> block[i] == NUL }

  function Blocks(size: int): nat { if size <= 0 then 0 else (size + (BLOCK - 1)) / BLOCK }

  // ---------------------------------------------------------------- the reader

  /** How an extraction ends. What the C code leaves undefined (an int that overflows, the last
      character of an empty name) and paths that leave the destination through ".." are not
      modelled any further. */
  datatype Outcome = Done(tree: Tree, files: nat, dirs: nat) | Failed | Unmodelled

  datatype Header = Header(name: string, size: Octal, kind: char)

  function HeaderOf(block: string): Header
    requires |block| == BLOCK
  {
    Header(CString(block[..100]), ParseOctal(block[124..136], 0), block[156])
  }

  predicate Undefined(h: Header) {
    || h.size.Overflow?
    || (h.kind == NUL && h.name == "")
    || ".." in Components(Relative(h.name))
    || (!IsFolder(h.kind, h.name) && !IsFile(h.kind) && h.size.value > MAX_INT - (BLOCK - 1))
  }

  /** What reading goes on with after an entry. */
  datatype Progress = Next(tree: Tree, files: nat, dirs: nat, rest: string) | Stop(outcome: Outcome)

  /** One entry: `rest` follows its header. */
  function Entry(h: Header, rest: string, tree: Tree, files: nat, dirs: nat): (p: Progress)
    requires !Undefined(h)
    ensures p.Next? ==> |p.rest| <= |rest|
  {
    var path, length := Relative(h.name), Blocks(h.size.value) * BLOCK;
    if IsFolder(h.kind, h.name) then
      if path == "" then Next(tree, files, dirs, rest)
      else
        var made := Mkdirs(tree, Components(path));
        if made.None? then Stop(Failed) else Next(made.value, files, dirs + 1, rest)
    else if IsFile(h.kind) then
      if |rest| < length then Stop(Failed)
      else
        var stored := Store(tree, path, if h.size.value <= 0 then "" else rest[..h.size.value]);
        if stored.None? then Stop(Failed) else Next(stored.value, files + 1, dirs, rest[length..])
    else if |rest| < length then Stop(if IsExtension(h.kind) then Failed else Done(tree, files, dirs))
    else Next(tree, files, dirs, rest[length..])
  }

  /** The block loop from a point of the stream on. */
  function Extract(s: string, tree: Tree, files: nat, dirs: nat): Outcome
    decreases |s|
  {
    if s == "" then Done(tree, files, dirs)
    else if |s| < BLOCK then Failed
    else if AllZero(s[..BLOCK]) then Done(tree, files, dirs)
    else
      var h := HeaderOf(s[..BLOCK]);
      if Undefined(h) then Unmodelled
      else
        match Entry(h, s[BLOCK..], tree, files, dirs)
        case Stop(outcome) => outcome
        case Next(t, f, d, rest) => Extract(rest, t, f, d)
  }

  /** `gzread` of one block. */
  function Take(s: string, at: nat): (block: string)
    requires at <= |s|
    ensures |block| <= BLOCK
  {
    if at + BLOCK <= |s| then s[at..at + BLOCK] else s[at..]
  }

  /** The copy loop: whole blocks are read, and the last one is written only as far as the size. */
  method CopyData(s: string, start: nat, size: int) returns (ok: bool, bytes: string, at: nat)
    requires start <= |s| && size <= MAX_INT
    ensures ok <==> start + Blocks(size) * BLOCK <= |s|
    ensures ok ==> at == start + Blocks(size) * BLOCK && bytes == if size <= 0 then "" else s[start..start + size]
  {
    ok, bytes, at := true, "", start;
    var remaining := size;
    ghost var k := 0;
    while remaining > 0
      invariant start <= at <= |s| && at == start + k * BLOCK
      invariant remaining > 0 ==> remaining == size - k * BLOCK && |bytes| == k * BLOCK
      invariant remaining <= 0 ==> k == Blocks(size) && |bytes| == if size <= 0 then 0 else size
      invariant start + |bytes| <= |s| && bytes == s[start..start + |bytes|]
      invariant 0 <= k <= Blocks(size)
      decreases remaining
    {
      var want := if remaining < BLOCK then remaining else BLOCK;
      var got := Take(s, at);
      if |got| != BLOCK { return false, bytes, at; }
      at := at + BLOCK;
      bytes := bytes + got[..want];
      remaining := remaining - want;
      k := k + 1;
    }
  }

  /** The skip loop. */
  method SkipData(s: string, start: nat, size: int) returns (ok: bool, at: nat)
    requires start <= |s| && size <= MAX_INT - (BLOCK - 1)
    ensures ok <==> start + Blocks(size) * BLOCK <= |s|
    ensures ok ==> at == start + Blocks(size) * BLOCK
  {
    ok, at := true, start;
    var pad := Blocks(size) * BLOCK;
    while pad > 0
      invariant start <= at <= |s| && pad >= 0 && pad % BLOCK == 0
      invariant at + pad == start + Blocks(size) * BLOCK
    {
      var got := Take(s, at);
      if |got| != BLOCK { return false, at; }
      at := at + BLOCK;
      pad := pad - BLOCK;
    }
  }

  method FirstNul(field: string) returns (name: string)
    ensures name == CString(field)
  {
    name := "";
    var i := 0;
    while i < |field| && field[i] != NUL
      invariant 0 <= i <= |field|
      invariant name + CString(field[i..]) == CString(field)
    {
      assert field[i..][1..] == field[i + 1..];
      name := name + [field[i]];
      i := i + 1;
    }
  }

  method ReadHeader(block: string) returns (h: Header)
    requires |block| == BLOCK
    ensures h == HeaderOf(block)
  {
    var name := FirstNul(block[..100]);
    var size := ReadOctal(block[124..136]);
    h := Header(name, size, block[156]);
  }

  /** The body of the block loop after the header. */
  method ReadEntry(s: string, at: nat, h: Header, tree: Tree, files: nat, dirs: nat) returns (p: Progress, next: nat)
    requires at <= |s| && !Undefined(h)
    requires h.size.value <= MAX_INT
    ensures p == Entry(h, s[at..], tree, files, dirs)
    ensures p.Next? ==> at <= next <= |s| && p.rest == s[next..]
  {
    hide Store, Mkdirs, Components, Relative, ParentOf;
    var path := Relative(h.name);
    next := at;
    if IsFolder(h.kind, h.name) {
      if path == "" { return Next(tree, files, dirs, s[at..]), at; }
      var made := Mkdirs(tree, Components(path));
      if made.None? { return Stop(Failed), at; }
      return Next(made.value, files, dirs + 1, s[at..]), at;
    } else if IsFile(h.kind) {
      var ok, bytes, after := CopyData(s, at, h.size.value);
      if !ok { return Stop(Failed), at; }
      assert h.size.value > 0 ==> s[at..][..h.size.value] == s[at..at + h.size.value];
      var stored := Store(tree, path, bytes);
      if stored.None? { return Stop(Failed), at; }
      assert s[at..][Blocks(h.size.value) * BLOCK..] == s[after..];
      return Next(stored.value, files + 1, dirs, s[after..]), after;
    } else {
      var ok, after := SkipData(s, at, h.size.value);
      if !ok { return Stop(if IsExtension(h.kind) then Failed else Done(tree, files, dirs)), at; }
      assert s[at..][Blocks(h.size.value) * BLOCK..] == s[after..];
      return Next(tree, files, dirs, s[after..]), after;
    }
  }

  lemma {:induction false} OctalFits(field: string, v: int)
    requires v <= MAX_INT
    ensures ParseOctal(field, v).Octal? ==> ParseOctal(field, v).value <= MAX_INT
  {
    if field != "" && field[0] != NUL {
      if field[0] == ' ' {
        OctalFits(field[1..], v);
      } else if '0' <= field[0] <= '7' {
        var next := v * 8 + (field[0] - '0') as int;
        if next <= MAX_INT { OctalFits(field[1..], next); }
      }
    }
  }

  /** `madeira_extract_prefix_tgz` on a decompressed stream and an empty destination. */
  method ExtractPrefix(archive: string) returns (outcome: Outcome)
    ensures outcome == Extract(archive, map[], 0, 0)
  {
    hide Entry, Undefined, HeaderOf, AllZero;
    var tree: Tree, files, dirs := map[], 0, 0;
    var at := 0;
    assert archive[0..] == archive;
    while true
      invariant at <= |archive|
      invariant Extract(archive[at..], tree, files, dirs) == Extract(archive, map[], 0, 0)
      decreases |archive| - at
    {
      var header := Take(archive, at);
      if |header| == 0 { return Done(tree, files, dirs); }
      if |header| != BLOCK { return Failed; }
      assert header == archive[at..][..BLOCK] && archive[at + BLOCK..] == archive[at..][BLOCK..];
      if AllZero(header) { return Done(tree, files, dirs); }
      var h := ReadHeader(header);
      if Undefined(h) { return Unmodelled; }
      SizeFits(header);
      var p, next := ReadEntry(archive, at + BLOCK, h, tree, files, dirs);
      match p {
        case Stop(result) => return result;
        case Next(t, f, d, _) => tree, files, dirs, at := t, f, d, next;
      }
    }
  }

  lemma SizeFits(block: string)
    requires |block| == BLOCK && !Undefined(HeaderOf(block))
    ensures HeaderOf(block).size.value <= MAX_INT
  {
    OctalFits(block[124..136], 0);
  }
}
