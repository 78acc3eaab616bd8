/** Extraction undoes writing: what a ustar archive (section "ustar Interchange Format" of the pax
    utility in IEEE Std 1003.1) holds is what the reader puts into the tree. */
module PrefixArchiveLaws {
  import opened Text
  import opened PrefixArchive

  // ---------------------------------------------------------------- archives

  /** What an archive holds. `kind` is the typeflag. */
  datatype Item = Folder(name: string, kind: char) | Plain(name: string, kind: char, bytes: string) | Other(name: string, kind: char, bytes: string)

  function Payload(item: Item): string { if item.Folder? then "" else item.bytes }

  /** A number in octal with leading zeros. */
  function OctalDigits(v: nat, width: nat): string {
    if width == 0 then "" else OctalDigits(v / 8, width - 1) + ['0' + (v % 8) as char]
  }

  /** A name in its field of 100 bytes, filled up with NULs; all 100 may be used. */
  predicate NameField(field: string, name: string) {
    && NUL !in name && |name| <= |field| && field[..|name|] == name
    && forall i :: |name| <= i < |field| ==> field[i] == NUL
  }

  /** A size in its field of 12 bytes: eleven digits and a NUL or a space. */
  predicate SizeField(field: string, size: nat) {
    |field| == 12 && field[..11] == OctalDigits(size, 11) && (field[11] == NUL || field[11] == ' ')
  }

  /** A header block of an item; every byte outside the name, size and typeflag is arbitrary. */
  predicate IsHeader(block: string, item: Item) {
    && |block| == BLOCK
    && NameField(block[..100], item.name)
    && SizeField(block[124..136], |Payload(item)|)
    && block[156] == item.kind
  }

  /** An item the writer can put down and the reader can take up. */
  predicate Valid(item: Item) {
    && item.name != ""
    && ".." !in Components(Relative(item.name))
    && match item
       case Folder(name, kind) => IsFolder(kind, name)
       case Plain(name, kind, bytes) => IsFile(kind) && !IsFolder(kind, name) && |bytes| <= MAX_INT && LastPart(Relative(name)) !in {"", "."}
       case Other(name, kind, bytes) => !IsFolder(kind, name) && !IsFile(kind) && |bytes| <= MAX_INT - (BLOCK - 1)
  }

  /** The stream is an archive of the items: each with its header block and its data in whole blocks,
      then the end of the stream or a block of zeros and anything after it. */
  predicate IsArchive(s: string, items: seq<Item>)
    decreases |items|
  {
    if items == [] then s == "" || (|s| >= BLOCK && AllZero(s[..BLOCK]))
    else
      var data, length := Payload(items[0]), Blocks(|Payload(items[0])|) * BLOCK;
      && |s| >= BLOCK + length
      && IsHeader(s[..BLOCK], items[0])
      && s[BLOCK..BLOCK + length][..|data|] == data
      && IsArchive(s[BLOCK + length..], items[1..])
  }

  // ---------------------------------------------------------------- what the tree should be

  function PathOf(item: Item): seq<string> {
    if item.Folder? then Components(Relative(item.name)) else ParentOf(Relative(item.name)) + [LastPart(Relative(item.name))]
  }

  predicate IsFilePath(items: seq<Item>, p: seq<string>) { exists i :: 0 <= i < |items| && items[i].Plain? && PathOf(items[i]) == p }

  /** A folder of its own or above another item. */
  predicate IsFolderPath(items: seq<Item>, p: seq<string>) {
    p != [] && exists i :: 0 <= i < |items| && ((items[i].Folder? && p <= PathOf(items[i])) || (items[i].Plain? && p < PathOf(items[i])))
  }

  /** What the last file item with this path holds. */
  function LastBytes(items: seq<Item>, p: seq<string>): string {
    if items == [] then ""
    else
      var last := items[|items| - 1];
      if last.Plain? && PathOf(last) == p then last.bytes else LastBytes(items[..|items| - 1], p)
  }

  /** No item needs a folder where another item has a file. */
  ghost predicate NoConflict(items: seq<Item>) { forall p :: IsFilePath(items, p) ==> !IsFolderPath(items, p) }

  /** The tree holds every file with its last bytes, every folder, and nothing else. */
  ghost predicate Holds(tree: Tree, items: seq<Item>) {
    && (forall p :: p in tree <==> IsFilePath(items, p) || IsFolderPath(items, p))
    && (forall p :: p in tree ==> tree[p] == if IsFilePath(items, p) then File(LastBytes(items, p)) else Dir)
  }

  function CountFiles(items: seq<Item>): nat {
    if items == [] then 0 else CountFiles(items[..|items| - 1]) + if items[|items| - 1].Plain? then 1 else 0
  }

  function CountFolders(items: seq<Item>): nat {
    if items == [] then 0
    else CountFolders(items[..|items| - 1]) + if items[|items| - 1].Folder? && Relative(items[|items| - 1].name) != "" then 1 else 0
  }

  // ---------------------------------------------------------------- fields

  lemma {:induction false} NameReads(field: string, name: string)
    requires NameField(field, name)
    ensures CString(field) == name
  {
    if name != "" {
      NameReads(field[1..], name[1..]);
      assert name == [name[0]] + name[1..];
      assert field[0] == field[..|name|][0] == name[0];
      assert field[..|name|][1..] == field[1..][..|name| - 1];
    }
  }

  function Power8(n: nat): nat { if n == 0 then 1 else 8 * Power8(n - 1) }

  lemma {:induction false} DigitsRead(v: nat, width: nat, tail: string)
    requires v <= MAX_INT && v < Power8(width)
    ensures ParseOctal(OctalDigits(v, width) + tail, 0) == ParseOctal(tail, v)
  {
    if width == 0 {
      assert OctalDigits(v, 0) + tail == tail;
    } else {
      var digit := '0' + (v % 8) as char;
      DigitsRead(v / 8, width - 1, [digit] + tail);
      assert OctalDigits(v, width) + tail == OctalDigits(v / 8, width - 1) + ([digit] + tail);
      assert ([digit] + tail)[1..] == tail;
      assert (digit - '0') as int == v % 8;
    }
  }

  lemma ElevenDigits()
    ensures MAX_INT < Power8(11)
  {
    assert Power8(11) == 8 * 8 * 8 * 8 * 8 * 8 * 8 * 8 * 8 * 8 * 8;
  }

  lemma SizeReads(field: string, size: nat)
    requires SizeField(field, size) && size <= MAX_INT
    ensures ParseOctal(field, 0) == Octal(size)
  {
    hide OctalDigits, Power8;
    ElevenDigits();
    DigitsRead(size, 11, field[11..]);
    assert field == field[..11] + field[11..];
    assert field[11..][1..] == "";
  }

  lemma HeaderReads(block: string, item: Item)
    requires IsHeader(block, item) && Valid(item)
    ensures HeaderOf(block) == Header(item.name, Octal(|Payload(item)|), item.kind) && !Undefined(HeaderOf(block))
    ensures !AllZero(block)
  {
    hide OctalDigits, Components, Relative, LastPart;
    NameReads(block[..100], item.name);
    SizeReads(block[124..136], |Payload(item)|);
    assert block[0] == block[..100][0] == block[..100][..|item.name|][0] == item.name[0];
    assert item.name[0] in item.name;
  }

  // ---------------------------------------------------------------- folders and files

  /** Making a path adds its prefixes as folders, unless a file is in the way. */
  lemma {:induction false} MkdirsAdds(tree: Tree, path: seq<string>)
    requires forall p :: p in tree && p <= path ==> tree[p].Dir?
    ensures Mkdirs(tree, path).Some?
    ensures var t := Mkdirs(tree, path).value;
      && (forall p :: p in t <==> p in tree || (p != [] && p <= path))
      && (forall p :: p in t ==> t[p] == if p in tree then tree[p] else Dir)
      && IsDir(t, path)
  {
    if path != [] {
      var parent := path[..|path| - 1];
      forall p | p in tree && p <= parent ensures tree[p].Dir? { PrefixOfLonger(p, path); }
      MkdirsAdds(tree, parent);
      var t := Mkdirs(tree, path).value;
      forall p ensures p in t <==> p in tree || (p != [] && p <= path) { PrefixOfLonger(p, path); }
    }
  }

  lemma PrefixOfLonger(p: seq<string>, path: seq<string>)
    requires path != []
    ensures p <= path <==> p <= path[..|path| - 1] || p == path
    ensures p < path <==> p <= path[..|path| - 1]
  {
    var parent := path[..|path| - 1];
    if p <= path && p != path { assert p == path[..|p|] == parent[..|p|]; }
    if p <= parent { assert p == parent[..|p|] == path[..|p|]; }
  }

  lemma FileThere(items: seq<Item>, item: Item)
    requires item.Plain?
    ensures IsFilePath(items + [item], PathOf(item))
  {
    hide PathOf;
    assert (items + [item])[|items|] == item;
  }

  /** Which paths one more item adds. */
  lemma PathsOfMore(items: seq<Item>, item: Item, p: seq<string>)
    ensures IsFilePath(items + [item], p) <==> IsFilePath(items, p) || (item.Plain? && PathOf(item) == p)
    ensures IsFolderPath(items + [item], p) <==>
      IsFolderPath(items, p) || (p != [] && ((item.Folder? && p <= PathOf(item)) || (item.Plain? && p < PathOf(item))))
    ensures LastBytes(items + [item], p) == if item.Plain? && PathOf(item) == p then item.bytes else LastBytes(items, p)
  {
    hide PathOf;
    var more := items + [item];
    assert more[..|items|] == items && more[|items|] == item;
    if IsFilePath(items, p) {
      var i :| 0 <= i < |items| && items[i].Plain? && PathOf(items[i]) == p;
      assert more[i] == items[i];
    }
    if IsFolderPath(items, p) {
      var i :| 0 <= i < |items| && ((items[i].Folder? && p <= PathOf(items[i])) || (items[i].Plain? && p < PathOf(items[i])));
      assert more[i] == items[i];
    }
  }

  lemma NoConflictBefore(items: seq<Item>, item: Item)
    requires NoConflict(items + [item])
    ensures NoConflict(items)
  {
    hide IsFilePath, IsFolderPath, PathOf;
    forall p | IsFilePath(items, p) ensures !IsFolderPath(items, p) { PathsOfMore(items, item, p); }
  }

  lemma FolderStep(tree: Tree, items: seq<Item>, item: Item)
    requires Holds(tree, items) && item.Folder? && NoConflict(items + [item])
    ensures Mkdirs(tree, PathOf(item)).Some? && Holds(Mkdirs(tree, PathOf(item)).value, items + [item])
  {
    hide IsFilePath, IsFolderPath, PathOf, LastBytes, Mkdirs;
    forall p | p in tree && p <= PathOf(item) ensures tree[p].Dir? {
      PathsOfMore(items, item, p);
      RootIsNoFile(items);
    }
    MkdirsAdds(tree, PathOf(item));
    forall p { PathsOfMore(items, item, p); }
    RootIsNoFile(items);
  }

  lemma RootIsNoFile(items: seq<Item>)
    ensures !IsFilePath(items, []) && !IsFolderPath(items, [])
  {
    hide ParentOf, LastPart, Components, Relative;
  }

  lemma FileStep(tree: Tree, items: seq<Item>, item: Item)
    requires Holds(tree, items) && item.Plain? && Valid(item) && NoConflict(items + [item])
    ensures Store(tree, Relative(item.name), item.bytes).Some?
    ensures Holds(Store(tree, Relative(item.name), item.bytes).value, items + [item])
  {
    hide IsFilePath, IsFolderPath, LastBytes, Mkdirs, Components, ParentOf, LastPart, Relative;
    var parent, path := ParentOf(Relative(item.name)), PathOf(item);
    assert path == parent + [LastPart(Relative(item.name))];
    assert path[..|path| - 1] == parent;
    forall p | p in tree && p <= parent ensures tree[p].Dir? {
      PrefixOfLonger(p, path);
      PathsOfMore(items, item, p);
      RootIsNoFile(items);
    }
    MkdirsAdds(tree, parent);
    var t := Mkdirs(tree, parent).value;
    FileThere(items, item);
    PathsOfMore(items, item, path);
    assert path in t ==> t[path].File?;
    var after := Store(tree, Relative(item.name), item.bytes).value;
    forall p ensures p in after <==> IsFilePath(items + [item], p) || IsFolderPath(items + [item], p) {
      PrefixOfLonger(p, path);
      PathsOfMore(items, item, p);
    }
    forall p | p in after ensures after[p] == if IsFilePath(items + [item], p) then File(LastBytes(items + [item], p)) else Dir {
      PrefixOfLonger(p, path);
      PathsOfMore(items, item, p);
    }
    RootIsNoFile(items);
  }

  // ---------------------------------------------------------------- the archive

  /** What follows an item of an archive: its data, then the rest. */
  lemma ItemParts(s: string, item: Item, later: seq<Item>) returns (rest: string)
    requires IsArchive(s, [item] + later) && Valid(item)
    ensures var data, length := Payload(item), Blocks(|Payload(item)|) * BLOCK;
      && |s| >= BLOCK + length && rest == s[BLOCK + length..]
      && HeaderOf(s[..BLOCK]) == Header(item.name, Octal(|data|), item.kind) && !Undefined(HeaderOf(s[..BLOCK])) && !AllZero(s[..BLOCK])
      && |s[BLOCK..]| >= length >= |data| && s[BLOCK..][..|data|] == data && s[BLOCK..][length..] == rest
    ensures IsArchive(rest, later)
  {
    hide IsHeader, Undefined, HeaderOf, AllZero, Blocks, Valid;
    var items := [item] + later;
    assert items[1..] == later && items[0] == item;
    var data, length := Payload(item), Blocks(|Payload(item)|) * BLOCK;
    HeaderReads(s[..BLOCK], item);
    BlocksHold(|data|);
    rest := s[BLOCK + length..];
    assert s[BLOCK..][length..] == rest;
    assert s[BLOCK..BLOCK + length][..|data|] == s[BLOCK..][..|data|];
  }

  /** The reader's step over an item. */
  lemma EntryReads(item: Item, rest: string, before: seq<Item>, tree: Tree, files: nat, dirs: nat) returns (t: Tree)
    requires Valid(item) && Holds(tree, before) && NoConflict(before + [item])
    requires var data, length := Payload(item), Blocks(|Payload(item)|) * BLOCK; |rest| >= length >= |data| && rest[..|data|] == data
    requires !Undefined(Header(item.name, Octal(|Payload(item)|), item.kind))
    ensures Holds(t, before + [item])
    ensures Entry(Header(item.name, Octal(|Payload(item)|), item.kind), rest, tree, files, dirs)
      == Next(t, files + (if item.Plain? then 1 else 0), dirs + (if item.Folder? && Relative(item.name) != "" then 1 else 0), rest[Blocks(|Payload(item)|) * BLOCK..])
  {
    hide Holds, NoConflict, Store, Mkdirs, PathOf, Undefined, Blocks, Components, Relative;
    BlocksHold(|Payload(item)|);
    match item
    case Folder(name, kind) =>
      FolderStep(tree, before, item);
      FolderPath(item);
      t := Mkdirs(tree, PathOf(item)).value;
      assert rest[0..] == rest;
      if Relative(name) == "" { RootFolder(tree, item); }
    case Plain(name, kind, bytes) =>
      FileStep(tree, before, item);
      t := Store(tree, Relative(name), bytes).value;
    case Other(name, kind, bytes) =>
      t := tree;
      OtherStep(tree, before, item);
  }

  /** The next item of an archive is taken up whole: its header block and its data blocks. */
  lemma ItemReads(s: string, item: Item, later: seq<Item>, before: seq<Item>, tree: Tree, files: nat, dirs: nat) returns (t: Tree, rest: string)
    requires IsArchive(s, [item] + later) && Valid(item)
    requires Holds(tree, before) && NoConflict(before + [item])
    ensures Holds(t, before + [item]) && IsArchive(rest, later)
    ensures |rest| == |s| - BLOCK - Blocks(|Payload(item)|) * BLOCK
    ensures Extract(s, tree, files, dirs)
      == Extract(rest, t, files + (if item.Plain? then 1 else 0), dirs + if item.Folder? && Relative(item.name) != "" then 1 else 0)
  {
    hide Valid, Holds, NoConflict, Undefined, HeaderOf, AllZero, Blocks, Entry, IsArchive, Relative, Payload;
    rest := ItemParts(s, item, later);
    t := EntryReads(item, s[BLOCK..], before, tree, files, dirs);
  }

  lemma BlocksHold(n: nat)
    ensures Blocks(n) * BLOCK >= n && (n == 0 ==> Blocks(n) == 0)
  {
  }

  lemma FolderPath(item: Item)
    requires item.Folder?
    ensures PathOf(item) == Components(Relative(item.name))
  {
  }

  lemma RootFolder(tree: Tree, item: Item)
    requires item.Folder? && Relative(item.name) == ""
    ensures Mkdirs(tree, PathOf(item)) == Some(tree)
  {
    assert Split("", '/') == [""];
    assert NonEmpty([""]) == [];
  }

  lemma OtherStep(tree: Tree, items: seq<Item>, item: Item)
    requires Holds(tree, items) && item.Other?
    ensures Holds(tree, items + [item])
  {
    hide IsFilePath, IsFolderPath, PathOf, LastBytes;
    forall p { PathsOfMore(items, item, p); }
  }

  lemma CountsOfMore(items: seq<Item>, item: Item)
    ensures CountFiles(items + [item]) == CountFiles(items) + if item.Plain? then 1 else 0
    ensures CountFolders(items + [item]) == CountFolders(items) + if item.Folder? && Relative(item.name) != "" then 1 else 0
  {
    hide Relative;
    assert (items + [item])[..|items|] == items;
  }

  lemma {:induction false} NoConflictPrefix(items: seq<Item>, later: seq<Item>)
    requires NoConflict(items + later)
    ensures NoConflict(items)
    decreases |later|
  {
    hide NoConflict;
    if later == [] {
      assert items + later == items;
    } else {
      var init, last := later[..|later| - 1], later[|later| - 1];
      assert items + later == items + init + [last];
      NoConflictBefore(items + init, last);
      NoConflictPrefix(items, init);
    }
  }

  lemma EndReads(s: string, tree: Tree, files: nat, dirs: nat)
    requires IsArchive(s, [])
    ensures Extract(s, tree, files, dirs) == Done(tree, files, dirs)
  {
  }

  lemma {:induction false} RestReads(s: string, before: seq<Item>, later: seq<Item>, tree: Tree) returns (t: Tree)
    requires IsArchive(s, later) && Holds(tree, before) && NoConflict(before + later)
    requires forall i :: 0 <= i < |later| ==> Valid(later[i])
    ensures Holds(t, before + later)
    ensures Extract(s, tree, CountFiles(before), CountFolders(before)) == Done(t, CountFiles(before + later), CountFolders(before + later))
    decreases |later|
  {
    hide *;
    if later == [] {
      t := tree;
      assert before + later == before;
      EndReads(s, tree, CountFiles(before), CountFolders(before));
    } else {
      var item, more := later[0], later[1..];
      assert later == [item] + more;
      assert before + later == before + [item] + more;
      NoConflictPrefix(before + [item], more);
      var next, rest := ItemReads(s, item, more, before, tree, CountFiles(before), CountFolders(before));
      CountsOfMore(before, item);
      t := RestReads(rest, before + [item], more, next);
    }
  }

  /** Extraction undoes writing: from any archive of valid items that do not put a file where another
      item needs a folder, in any order and with files written more than once, the reader's tree holds
      each file's last bytes under its stripped path, each folder, and nothing else, and it counts the
      entries. It never meets an int that overflows, and what follows the first block of zeros makes
      no difference. */
  lemma ExtractionUndoesWriting(s: string, items: seq<Item>) returns (tree: Tree)
    requires IsArchive(s, items) && NoConflict(items) && forall i :: 0 <= i < |items| ==> Valid(items[i])
    ensures Holds(tree, items)
    ensures Extract(s, map[], 0, 0) == Done(tree, CountFiles(items), CountFolders(items))
  {
    assert [] + items == items;
    NothingHolds();
    tree := RestReads(s, [], items, map[]);
  }

  lemma NothingHolds()
    ensures Holds(map[], [])
  {
  }

  // ---------------------------------------------------------------- a writer

  function Zeros(n: nat): string { seq(n, i => NUL) }

  /** The parts of a ustar header that the reader does not look at: mode, uid and gid; mtime and
      checksum; link name, magic, version, owner names, device numbers, prefix and padding. */
  datatype Rest = Rest(owner: string, stamp: string, tail: string)

  /** The header block of an item. */
  function HeaderBlock(item: Item, rest: Rest): string
    requires |item.name| <= 100
  {
    (item.name + Zeros(100 - |item.name|)) + rest.owner + (OctalDigits(|Payload(item)|, 11) + [NUL]) + rest.stamp + [item.kind] + rest.tail
  }

  /** The data in whole blocks, filled up with NULs. */
  function DataBlocks(bytes: string): string {
    BlocksHold(|bytes|);
    bytes + Zeros(Blocks(|bytes|) * BLOCK - |bytes|)
  }

  function Written(items: seq<Item>, rest: Rest): string
    requires forall i :: 0 <= i < |items| ==> |items[i].name| <= 100
  {
    if items == [] then Zeros(BLOCK) + Zeros(BLOCK)
    else HeaderBlock(items[0], rest) + DataBlocks(Payload(items[0])) + Written(items[1..], rest)
  }

  lemma {:induction false} OctalLength(v: nat, width: nat)
    ensures |OctalDigits(v, width)| == width
  {
    if width > 0 { OctalLength(v / 8, width - 1); }
  }

  lemma HeaderIsHeader(item: Item, rest: Rest)
    requires 0 < |item.name| <= 100 && NUL !in item.name
    requires |rest.owner| == 24 && |rest.stamp| == 20 && |rest.tail| == 355
    ensures IsHeader(HeaderBlock(item, rest), item)
  {
    hide OctalDigits, Payload;
    OctalLength(|Payload(item)|, 11);
    var block := HeaderBlock(item, rest);
    var name, size := item.name + Zeros(100 - |item.name|), OctalDigits(|Payload(item)|, 11) + [NUL];
    assert block[..100] == name;
    assert block[124..136] == size;
    assert size[..11] == OctalDigits(|Payload(item)|, 11);
  }

  /** What the writer puts down is an archive of its items. */
  lemma {:induction false} WriterWritesArchives(items: seq<Item>, rest: Rest)
    requires forall i :: 0 <= i < |items| ==> 0 < |items[i].name| <= 100 && NUL !in items[i].name
    requires |rest.owner| == 24 && |rest.stamp| == 20 && |rest.tail| == 355
    ensures IsArchive(Written(items, rest), items)
  {
    hide IsHeader, HeaderBlock, Blocks, DataBlocks, Payload;
    if items == [] {
      assert (Zeros(BLOCK) + Zeros(BLOCK))[..BLOCK] == Zeros(BLOCK);
    } else {
      WriterWritesArchives(items[1..], rest);
      HeaderIsHeader(items[0], rest);
      HeaderSize(items[0], rest);
      DataAre(Payload(items[0]));
      var header, data, tail := HeaderBlock(items[0], rest), DataBlocks(Payload(items[0])), Written(items[1..], rest);
      BlocksHold(|Payload(items[0])|);
      var s, length := Written(items, rest), Blocks(|Payload(items[0])|) * BLOCK;
      assert s == header + (data + tail) && |data| == length;
      assert s[..BLOCK] == header;
      assert s[BLOCK..BLOCK + length] == data;
      assert s[BLOCK + length..] == tail;
    }
  }

  lemma DataAre(bytes: string)
    ensures |DataBlocks(bytes)| == Blocks(|bytes|) * BLOCK && bytes <= DataBlocks(bytes)
  {
    BlocksHold(|bytes|);
  }

  lemma HeaderSize(item: Item, rest: Rest)
    requires |item.name| <= 100 && |rest.owner| == 24 && |rest.stamp| == 20 && |rest.tail| == 355
    ensures |HeaderBlock(item, rest)| == BLOCK
  {
    OctalLength(|Payload(item)|, 11);
  }
}
