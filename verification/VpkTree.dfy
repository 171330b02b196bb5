/**
 The directory tree of a Source VPK archive: extensions, under each its paths, under each its
 names with their entries, every list ended by a string that decodes to nothing. The printer is the
 format; the parser is parseDirectory of source-vpk-source.js.
 */
module VpkTree {
  import opened LittleEndian

  type Bytes = seq<byte>

  datatype Entry = Entry(crc: nat, archive: nat, offset: nat, length: nat, preload: Bytes)

  datatype File = File(name: Bytes, entry: Entry)
  /** end is how the list of files, or of folders, is ended. */
  datatype Folder = Folder(path: Bytes, files: seq<File>, end: Bytes)
  datatype Extension = Extension(ext: Bytes, folders: seq<Folder>, end: Bytes)

  datatype Error =
    | Unterminated | UnexpectedEnd | BadTerminator | BadPreload
    | NotLinked | NotVpk | UnsupportedVersion | BadTreeSize
    | NotFound | MissingArchive | ShortRead

  datatype Result<T> = Ok(value: T) | Err(error: Error)

  /** What a parse has collected, by logical path. */
  type Entries = map<Bytes, Entry>

  /** logicalPath of three decoded strings, with the archive's root folder already in it. */
  type KeyOf = (Bytes, Bytes, Bytes) -> Bytes

  const ENTRY_SIZE := 18

  // ---- the format ----

  /** The byte-order mark of UTF-8, which a TextDecoder drops from the start of what it decodes. */
  function Mark(): Bytes {
    [0xEF, 0xBB, 0xBF]
  }

  /** What is left to decode; how the rest becomes text is the key's business. */
  function Decoded(s: Bytes): Bytes {
    if Mark() <= s then s[3..] else s
  }

  /** What a list item may be called: something that does not decode to nothing, and no zero byte in it. */
  predicate IsName(s: Bytes) {
    0 !in s && Decoded(s) != []
  }

  predicate IsEnd(s: Bytes) {
    0 !in s && Decoded(s) == []
  }

  lemma EndsAre(s: Bytes)
    ensures IsEnd(s) <==> s == [] || s == [0xEF, 0xBB, 0xBF]
    ensures Mark() == [0xEF, 0xBB, 0xBF]
  {
    if Mark() <= s {
      assert s == Mark() + s[3..];
    }
  }

  predicate IsEntry(e: Entry) {
    && e.crc < Capacity(4) && e.offset < Capacity(4) && e.length < Capacity(4)
    && e.archive < Capacity(2) && |e.preload| < Capacity(2)
  }

  predicate IsFiles(fs: seq<File>) {
    forall f :: f in fs ==> IsName(f.name) && IsEntry(f.entry)
  }

  predicate IsFolders(ds: seq<Folder>) {
    forall d :: d in ds ==> IsName(d.path) && IsFiles(d.files) && IsEnd(d.end)
  }

  predicate IsTree(t: seq<Extension>) {
    forall x :: x in t ==> IsName(x.ext) && IsFolders(x.folders) && IsEnd(x.end)
  }

  function PrintEntry(e: Entry): Bytes {
    Encode(e.crc, 4) + (Encode(|e.preload|, 2) + (Encode(e.archive, 2) + (Encode(e.offset, 4) + (Encode(e.length, 4)
    + ([0xFF, 0xFF] + e.preload)))))
  }

  function PrintFiles(fs: seq<File>, end: Bytes): Bytes {
    if fs == [] then end + [0] else fs[0].name + ([0] + (PrintEntry(fs[0].entry) + PrintFiles(fs[1..], end)))
  }

  function PrintFolders(ds: seq<Folder>, end: Bytes): Bytes {
    if ds == [] then end + [0]
    else ds[0].path + ([0] + (PrintFiles(ds[0].files, ds[0].end) + PrintFolders(ds[1..], end)))
  }

  function PrintTree(t: seq<Extension>, end: Bytes): Bytes {
    if t == [] then end + [0]
    else t[0].ext + ([0] + (PrintFolders(t[0].folders, t[0].end) + PrintTree(t[1..], end)))
  }

  // ---- what a tree means ----

  /** Every file of the tree under its key, in order: of two with one key the later wins. */
  function AddFiles(key: KeyOf, ext: Bytes, path: Bytes, fs: seq<File>, m: Entries): Entries {
    if fs == [] then m else AddFiles(key, ext, path, fs[1..], m[key(Decoded(path), Decoded(fs[0].name), Decoded(ext)) := fs[0].entry])
  }

  function AddFolders(key: KeyOf, ext: Bytes, ds: seq<Folder>, m: Entries): Entries {
    if ds == [] then m else AddFolders(key, ext, ds[1..], AddFiles(key, ext, ds[0].path, ds[0].files, m))
  }

  function AddTree(key: KeyOf, t: seq<Extension>, m: Entries): Entries {
    if t == [] then m else AddTree(key, t[1..], AddFolders(key, t[0].ext, t[0].folders, m))
  }

  // ---- what has been collected ----

  /** A file of a tree, with the path and the extension it is listed under. */
  datatype Leaf = Leaf(path: Bytes, name: Bytes, ext: Bytes, entry: Entry)

  function LeavesOfFiles(ext: Bytes, path: Bytes, fs: seq<File>): (r: seq<Leaf>)
    ensures |r| == |fs| && forall i :: 0 <= i < |fs| ==> r[i] == Leaf(path, fs[i].name, ext, fs[i].entry)
  {
    if fs == [] then [] else [Leaf(path, fs[0].name, ext, fs[0].entry)] + LeavesOfFiles(ext, path, fs[1..])
  }

  function LeavesOfFolders(ext: Bytes, ds: seq<Folder>): seq<Leaf> {
    if ds == [] then [] else LeavesOfFiles(ext, ds[0].path, ds[0].files) + LeavesOfFolders(ext, ds[1..])
  }

  /** All files of a tree in the order they are printed. */
  function Leaves(t: seq<Extension>): seq<Leaf> {
    if t == [] then [] else LeavesOfFolders(t[0].ext, t[0].folders) + Leaves(t[1..])
  }

  ghost predicate HasKey(key: KeyOf, leaf: Leaf, k: Bytes) {
    key(Decoded(leaf.path), Decoded(leaf.name), Decoded(leaf.ext)) == k
  }

  /** The files of leaves from the i-th on do not have that key. */
  ghost predicate NoneHas(key: KeyOf, leaves: seq<Leaf>, k: Bytes, i: nat) {
    forall j :: i <= j < |leaves| ==> !HasKey(key, leaves[j], k)
  }

  ghost predicate IsLast(key: KeyOf, leaves: seq<Leaf>, k: Bytes, i: nat) {
    i < |leaves| && HasKey(key, leaves[i], k) && NoneHas(key, leaves, k, i + 1)
  }

  /** The leaves have been added to m: under the key is the last that has it. */
  ghost predicate Collects(key: KeyOf, leaves: seq<Leaf>, m: Entries, r: Entries, k: Bytes) {
    && (NoneHas(key, leaves, k, 0) ==> (k in r <==> k in m) && (k in m ==> r[k] == m[k]))
    && (forall i: nat :: IsLast(key, leaves, k, i) ==> k in r && r[k] == leaves[i].entry)
  }

  lemma NoneHasBoth(key: KeyOf, a: seq<Leaf>, b: seq<Leaf>, k: Bytes, i: nat)
    ensures i <= |a| ==> (NoneHas(key, a + b, k, i) <==> NoneHas(key, a, k, i) && NoneHas(key, b, k, 0))
    ensures i >= |a| ==> (NoneHas(key, a + b, k, i) <==> NoneHas(key, b, k, i - |a|))
  {
    hide HasKey;
    var ab := a + b;
    assert forall j :: 0 <= j < |a| ==> ab[j] == a[j];
    assert forall j :: 0 <= j < |b| ==> ab[|a| + j] == b[j];
    if NoneHas(key, ab, k, i) {
      forall j | 0 <= j < |b| && j >= i - |a|
        ensures !HasKey(key, b[j], k)
      {
        assert ab[|a| + j] == b[j];
      }
    }
  }

  lemma LastOfBoth(key: KeyOf, a: seq<Leaf>, b: seq<Leaf>, k: Bytes, i: nat)
    requires IsLast(key, a + b, k, i)
    ensures if i < |a| then IsLast(key, a, k, i) && NoneHas(key, b, k, 0) else IsLast(key, b, k, i - |a|)
  {
    hide HasKey;
    NoneHasBoth(key, a, b, k, i + 1);
    hide NoneHas;
    assert (a + b)[i] == if i < |a| then a[i] else b[i - |a|];
  }

  lemma CollectsBoth(key: KeyOf, a: seq<Leaf>, b: seq<Leaf>, m: Entries, r: Entries, r': Entries, k: Bytes)
    requires Collects(key, a, m, r, k) && Collects(key, b, r, r', k)
    ensures Collects(key, a + b, m, r', k)
  {
    hide NoneHas, IsLast;
    NoneHasBoth(key, a, b, k, 0);
    forall i: nat | IsLast(key, a + b, k, i)
      ensures i < |a + b| && k in r' && r'[k] == (a + b)[i].entry
    {
      LastOfBoth(key, a, b, k, i);
      hide HasKey;
      if i < |a| {
        LastIsLeaf(key, a, k, i);
      } else {
        LastIsLeaf(key, b, k, i - |a|);
      }
    }
  }

  lemma LastIsLeaf(key: KeyOf, leaves: seq<Leaf>, k: Bytes, i: nat)
    requires IsLast(key, leaves, k, i)
    ensures i < |leaves| && HasKey(key, leaves[i], k) && !NoneHas(key, leaves, k, 0)
  {
  }

  lemma OneCollects(key: KeyOf, leaf: Leaf, m: Entries, k: Bytes)
    ensures Collects(key, [leaf], m, m[key(Decoded(leaf.path), Decoded(leaf.name), Decoded(leaf.ext)) := leaf.entry], k)
  {
    hide Decoded;
    var one := [leaf];
    assert one[0] == leaf;
    if NoneHas(key, one, k, 0) {
      assert !HasKey(key, one[0], k);
    }
  }

  lemma {:induction false} FilesCollect(key: KeyOf, ext: Bytes, path: Bytes, fs: seq<File>, m: Entries, k: Bytes)
    ensures Collects(key, LeavesOfFiles(ext, path, fs), m, AddFiles(key, ext, path, fs, m), k)
  {
    if fs != [] {
      var one := [Leaf(path, fs[0].name, ext, fs[0].entry)];
      var r := m[key(Decoded(path), Decoded(fs[0].name), Decoded(ext)) := fs[0].entry];
      hide Decoded;
      OneCollects(key, one[0], m, k);
      FilesCollect(key, ext, path, fs[1..], r, k);
      CollectsBoth(key, one, LeavesOfFiles(ext, path, fs[1..]), m, r, AddFiles(key, ext, path, fs[1..], r), k);
    }
  }

  lemma {:induction false} FoldersCollect(key: KeyOf, ext: Bytes, ds: seq<Folder>, m: Entries, k: Bytes)
    ensures Collects(key, LeavesOfFolders(ext, ds), m, AddFolders(key, ext, ds, m), k)
  {
    hide AddFiles, LeavesOfFiles, Decoded;
    if ds != [] {
      var r := AddFiles(key, ext, ds[0].path, ds[0].files, m);
      FilesCollect(key, ext, ds[0].path, ds[0].files, m, k);
      FoldersCollect(key, ext, ds[1..], r, k);
      CollectsBoth(key, LeavesOfFiles(ext, ds[0].path, ds[0].files), LeavesOfFolders(ext, ds[1..]), m, r,
                   AddFolders(key, ext, ds[1..], r), k);
    }
  }

  /**
   What adding a tree leaves under a key: the entry of the last of its files whose decoded path, name and
   extension have that key, and what was there before if none has.
   */
  lemma {:induction false} LastFileWins(key: KeyOf, t: seq<Extension>, m: Entries, k: Bytes)
    ensures Collects(key, Leaves(t), m, AddTree(key, t, m), k)
  {
    hide AddFolders, LeavesOfFolders, Decoded;
    if t != [] {
      var r := AddFolders(key, t[0].ext, t[0].folders, m);
      FoldersCollect(key, t[0].ext, t[0].folders, m, k);
      LastFileWins(key, t[1..], r, k);
      CollectsBoth(key, LeavesOfFolders(t[0].ext, t[0].folders), Leaves(t[1..]), m, r, AddTree(key, t[1..], r), k);
    }
  }

  // ---- the parser, on what is left of the tree ----

  /** readCString: up to the first zero byte, and what is behind it. */
  function ReadName(s: Bytes): (r: Result<(Bytes, Bytes)>)
    ensures r.Ok? ==> |r.value.1| < |s| && s == r.value.0 + [0] + r.value.1 && 0 !in r.value.0
  {
    if s == [] then Err(Unterminated)
    else if s[0] == 0 then Ok(([], s[1..]))
    else
      match ReadName(s[1..])
      case Err(e) => Err(e)
      case Ok((name, rest)) => Ok(([s[0]] + name, rest))
  }

  function ReadEntry(s: Bytes): (r: Result<(Entry, Bytes)>)
    ensures r.Ok? ==> |r.value.1| < |s|
  {
    if |s| < ENTRY_SIZE then Err(UnexpectedEnd)
    else
      var preload := Load(s, 4, 2);
      if Load(s, 16, 2) != 0xFFFF then Err(BadTerminator)
      else if ENTRY_SIZE + preload > |s| then Err(BadPreload)
      else
        Ok((Entry(Load(s, 0, 4), Load(s, 6, 2), Load(s, 8, 4), Load(s, 12, 4), s[ENTRY_SIZE..ENTRY_SIZE + preload]),
            s[ENTRY_SIZE + preload..]))
  }

  function ParseFiles(key: KeyOf, ext: Bytes, path: Bytes, s: Bytes, m: Entries): (r: Result<(Entries, Bytes)>)
    ensures r.Ok? ==> |r.value.1| < |s|
    decreases |s|
  {
    match ReadName(s)
    case Err(e) => Err(e)
    case Ok((name, rest)) =>
      if Decoded(name) == [] then Ok((m, rest))
      else
        match ReadEntry(rest)
        case Err(e) => Err(e)
        case Ok((entry, more)) => ParseFiles(key, ext, path, more, m[key(Decoded(path), Decoded(name), Decoded(ext)) := entry])
  }

  function ParseFolders(key: KeyOf, ext: Bytes, s: Bytes, m: Entries): (r: Result<(Entries, Bytes)>)
    ensures r.Ok? ==> |r.value.1| < |s|
    decreases |s|
  {
    match ReadName(s)
    case Err(e) => Err(e)
    case Ok((path, rest)) =>
      if Decoded(path) == [] then Ok((m, rest))
      else
        match ParseFiles(key, ext, path, rest, m)
        case Err(e) => Err(e)
        case Ok((m1, more)) => ParseFolders(key, ext, more, m1)
  }

  function ParseTree(key: KeyOf, s: Bytes, m: Entries): (r: Result<(Entries, Bytes)>)
    ensures r.Ok? ==> |r.value.1| < |s|
    decreases |s|
  {
    match ReadName(s)
    case Err(e) => Err(e)
    case Ok((ext, rest)) =>
      if Decoded(ext) == [] then Ok((m, rest))
      else
        match ParseFolders(key, ext, rest, m)
        case Err(e) => Err(e)
        case Ok((m1, more)) => ParseTree(key, more, m1)
  }

  // ---- parsing undoes printing ----

  lemma {:induction false} ReadPrintedName(name: Bytes, rest: Bytes)
    requires 0 !in name
    ensures ReadName(name + ([0] + rest)) == Ok((name, rest))
  {
    var s := name + ([0] + rest);
    if name == [] {
      assert s[1..] == rest;
    } else {
      assert s[1..] == name[1..] + ([0] + rest);
      assert name[0] in name && forall b :: b in name[1..] ==> b in name;
      ReadPrintedName(name[1..], rest);
      assert [name[0]] + name[1..] == name;
    }
  }

  lemma LoadPrinted(s: Bytes, before: Bytes, v: nat, n: nat, rest: Bytes)
    requires v < Capacity(n) && s == before + (Encode(v, n) + rest)
    ensures |s| >= |before| + n && Load(s, |before|, n) == v
  {
    assert s[|before|..|before| + n] == Encode(v, n);
    DecodeEncode(v, n);
    FitsInBytes(v, n);
  }

  lemma TerminatorReads(before: Bytes, rest: Bytes)
    ensures Load(before + ([0xFF, 0xFF] + rest), |before|, 2) == 0xFFFF
  {
    var s := before + ([0xFF, 0xFF] + rest);
    var t: Bytes := [0xFF, 0xFF];
    assert s[|before|..|before| + 2] == t;
    assert t[1..] == [0xFF] && t[1..][1..] == [];
    assert Decode(t[1..]) == 0xFF;
  }

  lemma Regroup(a: Bytes, b: Bytes, c: Bytes, d: Bytes, f: Bytes, tail: Bytes)
    ensures var s := a + (b + (c + (d + (f + tail))));
            && s == [] + (a + (b + (c + (d + (f + tail)))))
            && s == (a + b) + (c + (d + (f + tail)))
            && s == (a + b + c) + (d + (f + tail))
            && s == (a + b + c + d) + (f + tail)
            && s == (a + b + c + d + f) + tail
  {
  }

  lemma EntryBytes(e: Entry, rest: Bytes)
    ensures PrintEntry(e) + rest
            == Encode(e.crc, 4) + (Encode(|e.preload|, 2) + (Encode(e.archive, 2) + (Encode(e.offset, 4) + (Encode(e.length, 4)
               + ([0xFF, 0xFF] + (e.preload + rest))))))
  {
    hide Encode;
  }

  /** The fixed fields of a printed entry. */
  lemma EntryFields(e: Entry, s: Bytes, rest: Bytes)
    requires IsEntry(e) && s == PrintEntry(e) + rest
    ensures |s| == ENTRY_SIZE + |e.preload| + |rest|
    ensures Load(s, 0, 4) == e.crc && Load(s, 4, 2) == |e.preload| && Load(s, 6, 2) == e.archive
    ensures Load(s, 8, 4) == e.offset && Load(s, 12, 4) == e.length && Load(s, 16, 2) == 0xFFFF
    ensures s[ENTRY_SIZE..ENTRY_SIZE + |e.preload|] == e.preload && s[ENTRY_SIZE + |e.preload|..] == rest
  {
    hide Load, Encode, Capacity, PrintEntry;
    var a, b, c, d, f := Encode(e.crc, 4), Encode(|e.preload|, 2), Encode(e.archive, 2), Encode(e.offset, 4), Encode(e.length, 4);
    var tail := [0xFF, 0xFF] + (e.preload + rest);
    EntryBytes(e, rest);
    Regroup(a, b, c, d, f, tail);
    LoadPrinted(s, [], e.crc, 4, b + (c + (d + (f + tail))));
    LoadPrinted(s, a, |e.preload|, 2, c + (d + (f + tail)));
    LoadPrinted(s, a + b, e.archive, 2, d + (f + tail));
    LoadPrinted(s, a + b + c, e.offset, 4, f + tail);
    LoadPrinted(s, a + b + c + d, e.length, 4, tail);
    TerminatorReads(a + b + c + d + f, e.preload + rest);
    PreloadSlices(a + b + c + d + f, e.preload, rest);
  }

  lemma ReadPrintedEntry(e: Entry, rest: Bytes)
    requires IsEntry(e)
    ensures ReadEntry(PrintEntry(e) + rest) == Ok((e, rest))
  {
    hide Load, PrintEntry;
    EntryFields(e, PrintEntry(e) + rest, rest);
  }

  /** A list item and the rest of its list, in front of what follows. */
  lemma ItemFirst(name: Bytes, item: Bytes, list: Bytes, rest: Bytes)
    ensures (name + ([0] + (item + list))) + rest == name + ([0] + (item + (list + rest)))
    ensures (name + [0] + (item + (list + rest))) == (name + ([0] + (item + list))) + rest
  {
  }

  lemma PreloadSlices(head: Bytes, preload: Bytes, rest: Bytes)
    ensures var s := head + ([0xFF, 0xFF] + (preload + rest));
            && |s| == |head| + 2 + |preload| + |rest|
            && s[|head| + 2..|head| + 2 + |preload|] == preload && s[|head| + 2 + |preload|..] == rest
  {
  }

  lemma EndFirst(end: Bytes, rest: Bytes)
    ensures (end + [0]) + rest == end + ([0] + rest)
  {
  }

  lemma {:induction false} ParsePrintedFiles(
    key: KeyOf, ext: Bytes, path: Bytes, fs: seq<File>, end: Bytes, rest: Bytes, m: Entries)
    requires IsFiles(fs) && IsEnd(end)
    ensures ParseFiles(key, ext, path, PrintFiles(fs, end) + rest, m) == Ok((AddFiles(key, ext, path, fs, m), rest))
  {
    hide IsEntry, ReadName, PrintEntry, ReadEntry, Decoded;
    if fs == [] {
      EndFirst(end, rest);
      ReadPrintedName(end, rest);
    } else {
      var f := fs[0];
      assert f in fs && forall g :: g in fs[1..] ==> g in fs;
      var more := PrintFiles(fs[1..], end) + rest;
      ItemFirst(f.name, PrintEntry(f.entry), PrintFiles(fs[1..], end), rest);
      ReadPrintedName(f.name, PrintEntry(f.entry) + more);
      ReadPrintedEntry(f.entry, more);
      ParsePrintedFiles(key, ext, path, fs[1..], end, rest, m[key(Decoded(path), Decoded(f.name), Decoded(ext)) := f.entry]);
    }
  }

  lemma {:induction false} ParsePrintedFolders(key: KeyOf, ext: Bytes, ds: seq<Folder>, end: Bytes, rest: Bytes, m: Entries)
    requires IsFolders(ds) && IsEnd(end)
    ensures ParseFolders(key, ext, PrintFolders(ds, end) + rest, m) == Ok((AddFolders(key, ext, ds, m), rest))
  {
    hide ReadName, IsFiles, PrintFiles, ParseFiles, AddFiles, Decoded;
    if ds == [] {
      EndFirst(end, rest);
      ReadPrintedName(end, rest);
    } else {
      var d := ds[0];
      assert d in ds && forall g :: g in ds[1..] ==> g in ds;
      var more := PrintFolders(ds[1..], end) + rest;
      ItemFirst(d.path, PrintFiles(d.files, d.end), PrintFolders(ds[1..], end), rest);
      ReadPrintedName(d.path, PrintFiles(d.files, d.end) + more);
      ParsePrintedFiles(key, ext, d.path, d.files, d.end, more, m);
      ParsePrintedFolders(key, ext, ds[1..], end, rest, AddFiles(key, ext, d.path, d.files, m));
    }
  }

  /** Parsing a printed tree gives its last-wins fold, and stops right behind it. */
  lemma {:induction false} ParsePrintedTree(key: KeyOf, t: seq<Extension>, end: Bytes, rest: Bytes, m: Entries)
    requires IsTree(t) && IsEnd(end)
    ensures ParseTree(key, PrintTree(t, end) + rest, m) == Ok((AddTree(key, t, m), rest))
  {
    hide ReadName, IsFolders, PrintFolders, ParseFolders, AddFolders, Decoded;
    if t == [] {
      EndFirst(end, rest);
      ReadPrintedName(end, rest);
    } else {
      var x := t[0];
      assert x in t && forall g :: g in t[1..] ==> g in t;
      var more := PrintTree(t[1..], end) + rest;
      ItemFirst(x.ext, PrintFolders(x.folders, x.end), PrintTree(t[1..], end), rest);
      ReadPrintedName(x.ext, PrintFolders(x.folders, x.end) + more);
      ParsePrintedFolders(key, x.ext, x.folders, x.end, more, m);
      ParsePrintedTree(key, t[1..], end, rest, AddFolders(key, x.ext, x.folders, m));
    }
  }

  // ---- names that decode to nothing ----

  lemma {:induction false} FirstWith<T>(s: seq<T>, p: T -> bool) returns (k: nat)
    ensures k <= |s| && (k < |s| ==> p(s[k])) && forall x :: x in s[..k] ==> !p(x)
  {
    k := 0;
    if s != [] && !p(s[0]) {
      k := FirstWith(s[1..], p);
      assert s[..k + 1] == [s[0]] + s[1..][..k];
      k := k + 1;
    }
  }

  lemma PrintedFile(fs: seq<File>, end: Bytes)
    ensures |PrintFiles(fs, end)| > 0
  {
  }

  lemma PrintedFolder(ds: seq<Folder>, end: Bytes)
    ensures |PrintFolders(ds, end)| > 0
  {
  }

  /** A file name that is nothing but a byte-order mark ends its list: its entry and all behind it is left over. */
  lemma {:induction false} MarkEndsFiles(
    key: KeyOf, ext: Bytes, path: Bytes, fs: seq<File>, marked: File, later: seq<File>, end: Bytes, rest: Bytes, m: Entries)
    requires IsFiles(fs) && IsEnd(marked.name)
    ensures ParseFiles(key, ext, path, PrintFiles(fs + ([marked] + later), end) + rest, m)
            == Ok((AddFiles(key, ext, path, fs, m), PrintEntry(marked.entry) + (PrintFiles(later, end) + rest)))
  {
    hide IsEntry, ReadName, PrintEntry, ReadEntry, Decoded;
    var all := fs + ([marked] + later);
    if fs == [] {
      assert all == [marked] + later && all[0] == marked && all[1..] == later;
      ItemFirst(marked.name, PrintEntry(marked.entry), PrintFiles(later, end), rest);
      ReadPrintedName(marked.name, PrintEntry(marked.entry) + (PrintFiles(later, end) + rest));
    } else {
      var f := fs[0];
      assert all[0] == f && all[1..] == fs[1..] + ([marked] + later);
      assert f in fs && forall g :: g in fs[1..] ==> g in fs;
      var more := PrintFiles(all[1..], end) + rest;
      ItemFirst(f.name, PrintEntry(f.entry), PrintFiles(all[1..], end), rest);
      ReadPrintedName(f.name, PrintEntry(f.entry) + more);
      ReadPrintedEntry(f.entry, more);
      MarkEndsFiles(key, ext, path, fs[1..], marked, later, end, rest,
                    m[key(Decoded(path), Decoded(f.name), Decoded(ext)) := f.entry]);
    }
  }

  /** A folder path that is nothing but a byte-order mark ends its list likewise. */
  lemma {:induction false} MarkEndsFolders(
    key: KeyOf, ext: Bytes, ds: seq<Folder>, marked: Folder, later: seq<Folder>, end: Bytes, rest: Bytes, m: Entries)
    requires IsFolders(ds) && IsEnd(marked.path)
    ensures ParseFolders(key, ext, PrintFolders(ds + ([marked] + later), end) + rest, m)
            == Ok((AddFolders(key, ext, ds, m), PrintFiles(marked.files, marked.end) + (PrintFolders(later, end) + rest)))
  {
    hide ReadName, IsFiles, PrintFiles, ParseFiles, AddFiles, Decoded;
    var all := ds + ([marked] + later);
    if ds == [] {
      assert all == [marked] + later && all[0] == marked && all[1..] == later;
      ItemFirst(marked.path, PrintFiles(marked.files, marked.end), PrintFolders(later, end), rest);
      ReadPrintedName(marked.path, PrintFiles(marked.files, marked.end) + (PrintFolders(later, end) + rest));
    } else {
      var d := ds[0];
      assert all[0] == d && all[1..] == ds[1..] + ([marked] + later);
      assert d in ds && forall g :: g in ds[1..] ==> g in ds;
      var more := PrintFolders(all[1..], end) + rest;
      ItemFirst(d.path, PrintFiles(d.files, d.end), PrintFolders(all[1..], end), rest);
      ReadPrintedName(d.path, PrintFiles(d.files, d.end) + more);
      ParsePrintedFiles(key, ext, d.path, d.files, d.end, more, m);
      MarkEndsFolders(key, ext, ds[1..], marked, later, end, rest, AddFiles(key, ext, d.path, d.files, m));
    }
  }

  /** An extension that is nothing but a byte-order mark ends the tree: it and all behind it is not read. */
  lemma {:induction false} MarkEndsTree(
    key: KeyOf, t: seq<Extension>, marked: Extension, later: seq<Extension>, end: Bytes, rest: Bytes, m: Entries)
    requires IsTree(t) && IsEnd(marked.ext)
    ensures ParseTree(key, PrintTree(t + ([marked] + later), end) + rest, m)
            == Ok((AddTree(key, t, m), PrintFolders(marked.folders, marked.end) + (PrintTree(later, end) + rest)))
  {
    hide ReadName, IsFolders, PrintFolders, ParseFolders, AddFolders, Decoded;
    var all := t + ([marked] + later);
    if t == [] {
      assert all == [marked] + later && all[0] == marked && all[1..] == later;
      ItemFirst(marked.ext, PrintFolders(marked.folders, marked.end), PrintTree(later, end), rest);
      ReadPrintedName(marked.ext, PrintFolders(marked.folders, marked.end) + (PrintTree(later, end) + rest));
    } else {
      var x := t[0];
      assert all[0] == x && all[1..] == t[1..] + ([marked] + later);
      assert x in t && forall g :: g in t[1..] ==> g in t;
      var more := PrintTree(all[1..], end) + rest;
      ItemFirst(x.ext, PrintFolders(x.folders, x.end), PrintTree(all[1..], end), rest);
      ReadPrintedName(x.ext, PrintFolders(x.folders, x.end) + more);
      ParsePrintedFolders(key, x.ext, x.folders, x.end, more, m);
      MarkEndsTree(key, t[1..], marked, later, end, rest, AddFolders(key, x.ext, x.folders, m));
    }
  }

  /** A list of files is read back up to its end exactly when none of its names decodes to nothing. */
  lemma FilesRoundTripExactly(key: KeyOf, ext: Bytes, path: Bytes, fs: seq<File>, end: Bytes, rest: Bytes, m: Entries)
    requires forall f :: f in fs ==> 0 !in f.name && IsEntry(f.entry)
    requires IsEnd(end)
    ensures ParseFiles(key, ext, path, PrintFiles(fs, end) + rest, m) == Ok((AddFiles(key, ext, path, fs, m), rest))
            <==> forall f :: f in fs ==> Decoded(f.name) != []
  {
    var k := FirstWith(fs, (f: File) => Decoded(f.name) == []);
    if k < |fs| {
      assert fs == fs[..k] + ([fs[k]] + fs[k + 1..]);
      assert fs[k] in fs && forall f :: f in fs[..k] ==> f in fs;
      MarkEndsFiles(key, ext, path, fs[..k], fs[k], fs[k + 1..], end, rest, m);
      PrintedFile(fs[k + 1..], end);
      assert |PrintEntry(fs[k].entry) + (PrintFiles(fs[k + 1..], end) + rest)| > |rest|;
    } else {
      assert fs[..k] == fs;
      ParsePrintedFiles(key, ext, path, fs, end, rest, m);
    }
  }

  /** A list of folders exactly when none of its paths does. */
  lemma FoldersRoundTripExactly(key: KeyOf, ext: Bytes, ds: seq<Folder>, end: Bytes, rest: Bytes, m: Entries)
    requires forall d :: d in ds ==> 0 !in d.path && IsFiles(d.files) && IsEnd(d.end)
    requires IsEnd(end)
    ensures ParseFolders(key, ext, PrintFolders(ds, end) + rest, m) == Ok((AddFolders(key, ext, ds, m), rest))
            <==> forall d :: d in ds ==> Decoded(d.path) != []
  {
    hide IsFiles;
    var k := FirstWith(ds, (d: Folder) => Decoded(d.path) == []);
    if k < |ds| {
      assert ds == ds[..k] + ([ds[k]] + ds[k + 1..]);
      assert ds[k] in ds && forall d :: d in ds[..k] ==> d in ds;
      MarkEndsFolders(key, ext, ds[..k], ds[k], ds[k + 1..], end, rest, m);
      PrintedFile(ds[k].files, ds[k].end);
      assert |PrintFiles(ds[k].files, ds[k].end) + (PrintFolders(ds[k + 1..], end) + rest)| > |rest|;
    } else {
      assert ds[..k] == ds;
      ParsePrintedFolders(key, ext, ds, end, rest, m);
    }
  }

  /**
   Of a tree of extensions that could be printed at all, the parser gives back everything exactly
   when no extension decodes to nothing.
   */
  lemma RoundTripsExactly(key: KeyOf, t: seq<Extension>, end: Bytes, rest: Bytes, m: Entries)
    requires forall x :: x in t ==> 0 !in x.ext && IsFolders(x.folders) && IsEnd(x.end)
    requires IsEnd(end)
    ensures ParseTree(key, PrintTree(t, end) + rest, m) == Ok((AddTree(key, t, m), rest))
            <==> forall x :: x in t ==> Decoded(x.ext) != []
  {
    var k := FirstWith(t, (x: Extension) => Decoded(x.ext) == []);
    if k < |t| {
      assert t == t[..k] + ([t[k]] + t[k + 1..]);
      assert t[k] in t && forall x :: x in t[..k] ==> x in t;
      MarkEndsTree(key, t[..k], t[k], t[k + 1..], end, rest, m);
      var unread := PrintFolders(t[k].folders, t[k].end) + (PrintTree(t[k + 1..], end) + rest);
      PrintedFolder(t[k].folders, t[k].end);
      assert |unread| > |rest|;
    } else {
      assert t[..k] == t;
      ParsePrintedTree(key, t, end, rest, m);
    }
  }

  /** An entry whose bytes read as the rest of a list of folders and one more extension. */
  function ReadAlike(): Entry {
    Entry(0x70707070, 0, 0x71717171, 0x71717171, [0, 0x70, 0])
  }

  lemma EncodedMore(b: byte, v: nat, n: nat)
    ensures Encode(b as nat + 256 * v, n + 1) == [b] + Encode(v, n)
  {
    var w := b as nat + 256 * v;
    assert w / 256 == v && w % 256 == b as nat;
  }

  lemma EncodedFour(b: byte)
    ensures Encode(b as nat * 0x101_0101, 4) == [b, b, b, b]
  {
    hide Encode;
    var v := b as nat;
    EncodedMore(b, v * 0x1_0101, 3);
    EncodedMore(b, v * 0x101, 2);
    EncodedMore(b, v, 1);
    EncodedMore(b, 0, 0);
    EncodedNone(0);
  }

  lemma EncodedNone(v: nat)
    ensures Encode(v, 0) == []
  {
  }

  lemma EncodedTwo(b: byte)
    ensures Encode(b as nat, 2) == [b, 0]
  {
    hide Encode;
    EncodedMore(b, 0, 1);
    EncodedMore(0, 0, 0);
    EncodedNone(0);
  }

  lemma EncodedReadAlike()
    ensures PrintEntry(ReadAlike())
            == [0x70, 0x70, 0x70, 0x70, 3, 0, 0, 0, 0x71, 0x71, 0x71, 0x71, 0x71, 0x71, 0x71, 0x71, 0xFF, 0xFF, 0, 0x70, 0]
  {
    hide Encode;
    EncodedFour(0x70);
    EncodedFour(0x71);
    EncodedTwo(3);
    EncodedTwo(0);
  }

  /** A folder without files, alone in its list. */
  function EmptyFolder(path: Bytes): seq<Folder> {
    [Folder(path, [], [])]
  }

  lemma EmptyFolderIs(key: KeyOf, ext: Bytes, path: Bytes, m: Entries)
    ensures PrintFolders(EmptyFolder(path), []) == path + [0, 0, 0] && AddFolders(key, ext, EmptyFolder(path), m) == m
    ensures PrintTree([Extension(ext, EmptyFolder(path), [])], []) == ext + ([0] + (path + [0, 0, 0, 0]))
    ensures AddTree(key, [Extension(ext, EmptyFolder(path), [])], m) == m
  {
    assert EmptyFolder(path)[1..] == [] && PrintFolders([], []) == [0] && PrintFiles([], []) == [0];
    assert PrintFolders(EmptyFolder(path), []) == path + [0, 0, 0];
    hide PrintFolders, AddFolders;
    var t := [Extension(ext, EmptyFolder(path), [])];
    assert t[1..] == [] && PrintTree([], []) == [0];
    assert (path + [0, 0, 0]) + [0] == path + [0, 0, 0, 0];
  }

  lemma ReadAlikeBytes(path: Bytes, ext: Bytes, rest: Bytes)
    requires path == [0x70, 0x70, 0x70, 0x70, 3]
    requires ext == [0x71, 0x71, 0x71, 0x71, 0x71, 0x71, 0x71, 0x71, 0xFF, 0xFF]
    ensures PrintEntry(ReadAlike()) + ([0] + ([0] + ([0] + rest)))
            == (path + [0, 0, 0]) + ((ext + ([0] + ([0x70] + [0, 0, 0, 0]))) + rest)
  {
    EncodedReadAlike();
    hide PrintEntry;
  }

  /** Behind the mark its entry is read as something else, and nothing is missed. */
  lemma ReadAlikeParses(key: KeyOf, ext: Bytes, rest: Bytes, m: Entries)
    ensures var r := ParseFolders(key, ext, PrintEntry(ReadAlike()) + ([0] + ([0] + ([0] + rest))), m);
            r.Ok? && r.value.0 == m && ParseTree(key, r.value.1, m) == Ok((m, rest))
  {
    hide PrintFolders, AddFolders, PrintTree, AddTree, ParseFolders, ParseTree, PrintEntry;
    var path: Bytes := [0x70, 0x70, 0x70, 0x70, 3];
    var next: Bytes := [0x71, 0x71, 0x71, 0x71, 0x71, 0x71, 0x71, 0x71, 0xFF, 0xFF];
    ReadAlikeBytes(path, next, rest);
    EmptyFolderIs(key, ext, path, m);
    EmptyFolderIs(key, next, [0x70], m);
    var t := [Extension(next, EmptyFolder([0x70]), [])];
    ParsePrintedFolders(key, ext, EmptyFolder(path), [], PrintTree(t, []) + rest, m);
    ParsePrintedTree(key, t, [], rest, m);
  }

  lemma MarkedInFolder(key: KeyOf, ext: Bytes, path: Bytes, entry: Entry, rest: Bytes, m: Entries)
    requires IsName(path)
    ensures ParseFolders(key, ext, PrintFolders([Folder(path, [File(Mark(), entry)], [])], []) + rest, m)
            == ParseFolders(key, ext, PrintEntry(entry) + ([0] + ([0] + rest)), m)
  {
    hide PrintEntry, ReadName, Decoded, Mark, ParseFiles;
    var fs := [File(Mark(), entry)];
    var ds := [Folder(path, fs, [])];
    assert ds[1..] == [] && PrintFolders([], []) == [0] && PrintFiles([], []) == [0];
    ItemFirst(path, PrintFiles(fs, []), [0], rest);
    ReadPrintedName(path, PrintFiles(fs, []) + ([0] + rest));
    EndsAre(Mark());
    assert [] + ([fs[0]] + []) == fs;
    MarkEndsFiles(key, ext, path, [], fs[0], [], [], [0] + rest, m);
  }

  /**
   In a whole tree a marked name may go unnoticed: with this entry behind it everything is read to the
   end, the file alone left out. That comes to the tree that was printed just when the file was known.
   */
  lemma MarkedNameIsDropped(key: KeyOf, ext: Bytes, path: Bytes, rest: Bytes, m: Entries)
    requires IsName(ext) && IsName(path)
    ensures var t := [Extension(ext, [Folder(path, [File(Mark(), ReadAlike())], [])], [])];
            var last := key(Decoded(path), [], Decoded(ext));
            && ParseTree(key, PrintTree(t, []) + rest, m) == Ok((m, rest))
            && AddTree(key, t, m) == m[last := ReadAlike()]
            && (ParseTree(key, PrintTree(t, []) + rest, m) == Ok((AddTree(key, t, m), rest))
                <==> last in m && m[last] == ReadAlike())
  {
    hide PrintEntry, ReadName, PrintFolders, ParseFolders, ReadAlike;
    var fs := [File(Mark(), ReadAlike())];
    var ds := [Folder(path, fs, [])];
    var t := [Extension(ext, ds, [])];
    assert t[1..] == [] && ds[1..] == [] && fs[1..] == [] && PrintTree([], []) == [0];
    EndsAre(Mark());
    assert AddFiles(key, ext, path, fs, m) == m[key(Decoded(path), [], Decoded(ext)) := ReadAlike()];
    assert AddFolders(key, ext, ds, m) == AddFiles(key, ext, path, fs, m);
    ItemFirst(ext, PrintFolders(ds, []), [0], rest);
    ReadPrintedName(ext, PrintFolders(ds, []) + ([0] + rest));
    MarkedInFolder(key, ext, path, ReadAlike(), [0] + rest, m);
    ReadAlikeParses(key, ext, rest, m);
    var last := key(Decoded(path), [], Decoded(ext));
    assert last in m && m[last] == ReadAlike() ==> m[last := ReadAlike()] == m;
  }

  // ---- and only printed trees parse ----

  lemma {:induction false} EncodeDecode(s: Bytes)
    ensures Encode(Decode(s), |s|) == s
  {
    if s != [] {
      var v := Decode(s);
      EncodeDecode(s[1..]);
      assert v % 256 == s[0] && v / 256 == Decode(s[1..]);
      assert s == [s[0]] + s[1..];
    }
  }

  lemma LoadedPrints(s: Bytes, at: nat, n: nat)
    requires at + n <= |s|
    ensures Encode(Load(s, at, n), n) == s[at..at + n]
  {
    EncodeDecode(s[at..at + n]);
  }

  lemma EntrySlices(s: Bytes, p: nat)
    requires ENTRY_SIZE + p <= |s|
    ensures s == (s[0..4] + (s[4..6] + (s[6..8] + (s[8..12] + (s[12..16] + (s[16..18] + s[18..18 + p])))))) + s[18 + p..]
  {
  }

  lemma EncodedTerminator()
    ensures Encode(0xFFFF, 2) == [0xFF, 0xFF]
  {
    assert Encode(0xFF, 1) == [0xFF];
  }

  lemma EntryReadPrints(s: Bytes)
    requires ReadEntry(s).Ok?
    ensures IsEntry(ReadEntry(s).value.0)
    ensures s == PrintEntry(ReadEntry(s).value.0) + ReadEntry(s).value.1
  {
    hide Load, Encode, Capacity;
    LoadedPrints(s, 0, 4);
    LoadedPrints(s, 4, 2);
    LoadedPrints(s, 6, 2);
    LoadedPrints(s, 8, 4);
    LoadedPrints(s, 12, 4);
    LoadedPrints(s, 16, 2);
    EncodedTerminator();
    EntrySlices(s, Load(s, 4, 2));
  }

  lemma {:induction false} FilesParsedPrint(key: KeyOf, ext: Bytes, path: Bytes, s: Bytes, m: Entries)
    returns (fs: seq<File>, end: Bytes)
    requires ParseFiles(key, ext, path, s, m).Ok?
    ensures IsFiles(fs) && IsEnd(end) && s == PrintFiles(fs, end) + ParseFiles(key, ext, path, s, m).value.1
    ensures ParseFiles(key, ext, path, s, m).value.0 == AddFiles(key, ext, path, fs, m)
    decreases |s|
  {
    hide ReadEntry, PrintEntry, IsEntry, Decoded;
    var (name, rest) := ReadName(s).value;
    if Decoded(name) == [] {
      fs, end := [], name;
    } else {
      var (entry, more) := ReadEntry(rest).value;
      EntryReadPrints(rest);
      var later;
      later, end := FilesParsedPrint(key, ext, path, more, m[key(Decoded(path), Decoded(name), Decoded(ext)) := entry]);
      fs := [File(name, entry)] + later;
      assert fs[1..] == later;
      ItemFirst(name, PrintEntry(entry), PrintFiles(later, end), ParseFiles(key, ext, path, s, m).value.1);
    }
  }

  lemma {:induction false} FoldersParsedPrint(key: KeyOf, ext: Bytes, s: Bytes, m: Entries)
    returns (ds: seq<Folder>, end: Bytes)
    requires ParseFolders(key, ext, s, m).Ok?
    ensures IsFolders(ds) && IsEnd(end) && s == PrintFolders(ds, end) + ParseFolders(key, ext, s, m).value.1
    ensures ParseFolders(key, ext, s, m).value.0 == AddFolders(key, ext, ds, m)
    decreases |s|
  {
    hide ParseFiles, PrintFiles, AddFiles, IsFiles, Decoded;
    var (path, rest) := ReadName(s).value;
    if Decoded(path) == [] {
      ds, end := [], path;
    } else {
      var (m1, more) := ParseFiles(key, ext, path, rest, m).value;
      var fs, fileEnd := FilesParsedPrint(key, ext, path, rest, m);
      var later;
      later, end := FoldersParsedPrint(key, ext, more, m1);
      ds := [Folder(path, fs, fileEnd)] + later;
      assert ds[1..] == later;
      ItemFirst(path, PrintFiles(fs, fileEnd), PrintFolders(later, end), ParseFolders(key, ext, s, m).value.1);
    }
  }

  /** Whatever parses is a printed tree, up to where the parser stops; so the format is all the parser accepts. */
  lemma {:induction false} TreeParsedPrints(key: KeyOf, s: Bytes, m: Entries) returns (t: seq<Extension>, end: Bytes)
    requires ParseTree(key, s, m).Ok?
    ensures IsTree(t) && IsEnd(end) && s == PrintTree(t, end) + ParseTree(key, s, m).value.1
    ensures ParseTree(key, s, m).value.0 == AddTree(key, t, m)
    decreases |s|
  {
    hide ParseFolders, PrintFolders, AddFolders, IsFolders, Decoded;
    var (ext, rest) := ReadName(s).value;
    if Decoded(ext) == [] {
      t, end := [], ext;
    } else {
      var (m1, more) := ParseFolders(key, ext, rest, m).value;
      var ds, folderEnd := FoldersParsedPrint(key, ext, rest, m);
      var later;
      later, end := TreeParsedPrints(key, more, m1);
      t := [Extension(ext, ds, folderEnd)] + later;
      assert t[1..] == later;
      ItemFirst(ext, PrintFolders(ds, folderEnd), PrintTree(later, end), ParseTree(key, s, m).value.1);
    }
  }
}
