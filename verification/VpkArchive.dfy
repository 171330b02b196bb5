/**
 A Source VPK archive from the side that packs it: a header of its version, the printed tree, and behind
 them the data of the files that are kept in the archive itself. Reading a packed file gives its preload
 and then its own bytes, out of the archive or out of a numbered one.
 */
module VpkArchive {
  import opened Options
  import opened LittleEndian
  import opened VpkTree
  import opened VpkOverlay

  /** Version 2 has four more words between the tree's size and the tree. */
  datatype Package = Package(version2: bool, sections: Bytes, tree: seq<Extension>, end: Bytes, data: Bytes)

  ghost predicate IsArchive(a: Package) {
    && IsTree(a.tree) && IsEnd(a.end) && |a.sections| == (if a.version2 then 16 else 0)
    && |PrintTree(a.tree, a.end)| <= 64 * 1024 * 1024
  }

  function PrintHeader(a: Package): Bytes {
    [0x34, 0x12, 0xAA, 0x55]
    + (Encode(if a.version2 then 2 else 1, 4) + (Encode(|PrintTree(a.tree, a.end)|, 4) + a.sections))
  }

  function PrintArchive(a: Package): Bytes {
    PrintHeader(a) + (PrintTree(a.tree, a.end) + a.data)
  }

  lemma {:induction false} TreeIsNotEmpty(t: seq<Extension>, end: Bytes)
    ensures |PrintTree(t, end)| > 0
  {
  }

  lemma SignatureReads(rest: Bytes)
    ensures Load([0x34, 0x12, 0xAA, 0x55] + rest, 0, 4) == SIGNATURE
  {
    var s: Bytes := [0x34, 0x12, 0xAA, 0x55];
    assert (s + rest)[0..4] == s;
    assert s[1..] == [0x12, 0xAA, 0x55] && s[1..][1..] == [0xAA, 0x55] && s[1..][1..][1..] == [0x55];
    assert s[1..][1..][1..][1..] == [];
    assert Decode([0x55]) == 0x55;
    assert Decode([0xAA, 0x55]) == 0x55AA;
    assert Decode([0x12, 0xAA, 0x55]) == 0x55_AA12;
  }

  /** The words of a printed header, and where tree and data lie behind it. */
  lemma HeaderReads(a: Package)
    requires IsArchive(a)
    ensures var s := PrintArchive(a);
            var h := if a.version2 then 28 else 12;
            var size := |PrintTree(a.tree, a.end)|;
            && |s| == h + size + |a.data| && 0 < size
            && Load(s, 0, 4) == SIGNATURE && Load(s, 4, 4) == (if a.version2 then 2 else 1) && Load(s, 8, 4) == size
            && s[h..h + size] == PrintTree(a.tree, a.end) && s[h + size..] == a.data
  {
    TreeIsNotEmpty(a.tree, a.end);
    CapacityOfWord();
    var tree := PrintTree(a.tree, a.end);
    var version := if a.version2 then 2 else 1;
    hide IsTree, PrintTree, Encode, Load, Capacity;
    var m: Bytes := [0x34, 0x12, 0xAA, 0x55];
    var v, z, rest := Encode(version, 4), Encode(|tree|, 4), a.sections + (tree + a.data);
    assert PrintArchive(a) == m + (v + (z + rest)) == (m + v) + (z + rest);
    SignatureReads(v + (z + rest));
    LoadPrinted(PrintArchive(a), m, version, 4, z + rest);
    LoadPrinted(PrintArchive(a), m + v, |tree|, 4, rest);
  }

  /** What the directory of a packed archive says: every file of its tree, and where the data begins. */
  function DirectoryOf(names: Names, dir: Path, a: Package): Archive {
    Archive(dir, if a.version2 then 28 else 12, |PrintTree(a.tree, a.end)|, AddTree(names.logical(dir), a.tree, map[]))
  }

  lemma TreeIsRead(key: KeyOf, a: Package, tree: Bytes)
    requires IsArchive(a) && tree == PrintTree(a.tree, a.end)
    ensures ParseTree(key, tree, map[]) == Ok((AddTree(key, a.tree, map[]), []))
  {
    hide PrintTree, ParseTree, AddTree;
    ParsePrintedTree(key, a.tree, a.end, [], map[]);
    assert tree + [] == tree;
  }

  /** A header that reads so, in front of a tree that parses. */
  lemma ParsesDirectory(base: Base, names: Names, dir: Path, s: Bytes, version2: bool, tree: Bytes, entries: Entries)
    requires base.file(dir) == Some(s) && 0 < |tree| <= MAX_TREE && |s| >= 12
    requires Load(s, 0, 4) == SIGNATURE && Load(s, 4, 4) == (if version2 then 2 else 1) && Load(s, 8, 4) == |tree|
    requires var h := if version2 then 28 else 12; h + |tree| <= |s| && s[h..h + |tree|] == tree
    requires ParseTree(names.logical(dir), tree, map[]) == Ok((entries, []))
    ensures ParseDirectory(base, names, dir) == Ok(Archive(dir, if version2 then 28 else 12, |tree|, entries))
  {
    hide ParseTree, Load;
  }

  lemma SignatureBytes(w: Bytes)
    requires |w| == 4
    requires Decode(w) == SIGNATURE
    ensures w == [0x34, 0x12, 0xAA, 0x55]
  {
    var x, y, z := w[1..], w[2..], w[3..];
    assert x[1..] == y && y[1..] == z && z[1..] == [];
    assert Decode(z) == w[3];
    assert w[0] == 0x34 && Decode(x) == 0x55_AA12;
    assert x[0] == 0x12 && Decode(y) == 0x55AA;
    assert y[0] == 0xAA && Decode(z) == 0x55;
  }

  lemma SignatureIsFour(s: Bytes)
    requires |s| >= 4
    ensures Load(s, 0, 4) == SIGNATURE <==> s[..4] == [0x34, 0x12, 0xAA, 0x55]
  {
    var m: Bytes := [0x34, 0x12, 0xAA, 0x55];
    if s[..4] == m {
      SignatureReads(s[4..]);
      assert s == m + s[4..];
    }
    assert s[0..4] == s[..4];
    if Load(s, 0, 4) == SIGNATURE {
      SignatureBytes(s[..4]);
    }
  }

  /** What can be wrong with an archive before its tree is looked at, in the order it is found out. */
  function HeaderError(file: Option<Bytes>): Option<Error> {
    match file
    case None => Some(NotLinked)
    case Some(s) =>
      if |s| < 12 || s[..4] != [0x34, 0x12, 0xAA, 0x55] then Some(NotVpk)
      else if Load(s, 4, 4) !in {1, 2} then Some(UnsupportedVersion)
      else if Load(s, 8, 4) == 0 || Load(s, 8, 4) > 64 * 1024 * 1024 then Some(BadTreeSize)
      else None
  }

  /** Any other archive ends as its tree does. */
  lemma HeaderErrors(base: Base, names: Names, dir: Path)
    ensures var e := HeaderError(base.file(dir));
            var r := ParseDirectory(base, names, dir);
            if e.Some? then r == Err(e.value)
            else
              var s := base.file(dir).value;
              var h := if Load(s, 4, 4) == 2 then 28 else 12;
              var t := ParseTree(names.logical(dir), Slice(s, h, h + Load(s, 8, 4)), map[]);
              if t.Err? then r == Err(t.error) else r == Ok(Archive(dir, h, Load(s, 8, 4), t.value.0))
  {
    if base.file(dir).Some? && |base.file(dir).value| >= 12 {
      SignatureIsFour(base.file(dir).value);
    }
    hide Load, ParseTree, Slice;
  }

  /** A packed archive's directory is read back. */
  lemma DirectoryIsRead(base: Base, names: Names, dir: Path, a: Package)
    requires IsArchive(a) && base.file(dir) == Some(PrintArchive(a))
    ensures ParseDirectory(base, names, dir) == Ok(DirectoryOf(names, dir, a))
  {
    HeaderReads(a);
    var tree := PrintTree(a.tree, a.end);
    TreeIsRead(names.logical(dir), a, tree);
    assert |tree| <= MAX_TREE;
    hide PrintArchive, PrintTree, ParseTree, AddTree, Load, IsArchive, ParseDirectory;
    ParsesDirectory(base, names, dir, PrintArchive(a), a.version2, tree, AddTree(names.logical(dir), a.tree, map[]));
  }

  /** Where a file's payload comes from: the archive's own data, or a numbered file. */
  function SourceOf(base: Base, names: Names, dir: Path, a: Package, e: Entry): Option<Bytes> {
    if e.archive == 0x7FFF then Some(a.data) else base.file(names.payload(dir, e.archive))
  }

  lemma SliceBehind(s: Bytes, at: nat, data: Bytes, from: nat, n: nat)
    requires at <= |s| && s[at..] == data
    ensures |Slice(s, at + from, at + from + n)| == n <==> from + n <= |data| || n == 0
    ensures from + n <= |data| ==> Slice(s, at + from, at + from + n) == data[from..from + n]
  {
    if from + n <= |data| {
      assert s[at..][from..from + n] == s[at + from..at + from + n];
    }
  }

  lemma PayloadFrom(base: Base, names: Names, f: Found, at: nat, file: Option<Bytes>)
    requires f.entry.length > 0
    requires if f.entry.archive == ARCHIVE_SELF
             then at == f.archive.headerSize + f.archive.treeSize && file == base.file(f.archive.dir)
             else at == 0 && file == base.file(names.payload(f.archive.dir, f.entry.archive))
    requires file.Some? ==> at <= |file.value|
    ensures Payload(base, names, f) ==
              match file
              case None => Err(MissingArchive)
              case Some(s) =>
                if f.entry.offset + f.entry.length > |s[at..]| then Err(ShortRead)
                else Ok(s[at..][f.entry.offset..f.entry.offset + f.entry.length])
  {
    hide Slice;
    if file.Some? {
      SliceBehind(file.value, at, file.value[at..], f.entry.offset, f.entry.length);
    }
  }

  lemma PayloadIs(base: Base, names: Names, dir: Path, a: Package, e: Entry)
    requires IsArchive(a) && base.file(dir) == Some(PrintArchive(a)) && e.length > 0
    ensures Payload(base, names, Found(DirectoryOf(names, dir, a), e)) ==
              match SourceOf(base, names, dir, a, e)
              case None => Err(MissingArchive)
              case Some(s) => if e.offset + e.length > |s| then Err(ShortRead) else Ok(s[e.offset..e.offset + e.length])
  {
    HeaderReads(a);
    var own := e.archive == 0x7FFF;
    var at := if own then (if a.version2 then 28 else 12) + |PrintTree(a.tree, a.end)| else 0;
    hide PrintArchive, PrintTree, AddTree, Load, IsArchive, Payload;
    var file := if own then base.file(dir) else base.file(names.payload(dir, e.archive));
    assert !own && file.Some? ==> file.value[0..] == file.value;
    PayloadFrom(base, names, Found(DirectoryOf(names, dir, a), e), at, file);
  }

  /**
   The bytes of a packed file: its preload, and behind it, if it has a payload, that range of its source.
   A source that is not there or ends too soon is an error, and nothing else is.
   */
  lemma PackedFileIsWhole(base: Base, names: Names, dir: Path, a: Package, e: Entry)
    requires IsArchive(a) && base.file(dir) == Some(PrintArchive(a))
    ensures Whole(base, names, Found(DirectoryOf(names, dir, a), e)) ==
              if e.length == 0 then Ok(e.preload)
              else
                match SourceOf(base, names, dir, a, e)
                case None => Err(MissingArchive)
                case Some(s) =>
                  if e.offset + e.length > |s| then Err(ShortRead) else Ok(e.preload + s[e.offset..e.offset + e.length])
  {
    hide PrintArchive, PrintTree, AddTree, IsArchive, SourceOf, DirectoryOf;
    assert e.preload + [] == e.preload;
    if e.length > 0 {
      PayloadIs(base, names, dir, a, e);
      hide Payload;
    }
  }

  /**
   Looked up in a packed archive, a file of its tree is found under its logical path, and a path that is
   no file's is not there.
   */
  lemma PackedFileIsFound(base: Base, names: Names, dir: Path, a: Package, path: Path)
    requires IsArchive(a) && base.file(dir) == Some(PrintArchive(a)) && !base.has(path)
    ensures var d := DirectoryOf(names, dir, a);
            Resolution(base, names, [dir], path) ==
              Ok(if names.lower(path) in d.entries then Packed(Found(d, d.entries[names.lower(path)])) else Nowhere)
  {
    DirectoryIsRead(base, names, dir, a);
    hide ParseDirectory, DirectoryOf, IsArchive, PrintArchive;
    var dirs := [dir];
    assert Representative(names, dirs, 0) == 0;
    assert Lookup(base, names, dirs, names.lower(path), 1) == Ok(None);
  }
}
