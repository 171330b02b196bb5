/**
 Reading files out of linked VPK archives: the directory parser as it is written, with an offset
 that advances through the tree; and the overlay that parses each archive once, remembers every
 lookup, and reads a file's preload and payload.
 */
module VpkOverlay {
  import opened Options
  import opened LittleEndian
  import opened VpkTree

  type Path = Bytes

  const SIGNATURE := 0x55AA_1234
  const ARCHIVE_SELF := 0x7FFF
  const MAX_TREE := 0x400_0000

  /** The linked folder: which files it has under their own path, the bytes of a file, and its own ranged read. */
  datatype Base = Base(
    has: Path -> bool,
    file: Path -> Option<Bytes>,
    read: (Path, int, Option<int>) -> Result<Bytes>)

  /** Path arithmetic: normal form, lower case, the logical path of a tree entry, the numbered payload archive. */
  datatype Names = Names(normal: Path -> Path, lower: Path -> Path, logical: Path -> KeyOf, payload: (Path, nat) -> Path)

  datatype Archive = Archive(dir: Path, headerSize: nat, treeSize: nat, entries: Entries)

  datatype Found = Found(archive: Archive, entry: Entry)

  // ---- one archive ----

  /** file.slice: what there is of a range. */
  function Slice(s: Bytes, from: nat, to: nat): (r: Bytes)
    ensures from <= to <= |s| ==> r == s[from..to]
  {
    var a := if from < |s| then from else |s|;
    var b := if to < |s| then to else |s|;
    if a <= b then s[a..b] else []
  }

  function ParseDirectory(base: Base, names: Names, dir: Path): Result<Archive> {
    match base.file(dir)
    case None => Err(NotLinked)
    case Some(file) =>
      if |file| < 12 || Load(file, 0, 4) != SIGNATURE then Err(NotVpk)
      else
        var version, treeSize := Load(file, 4, 4), Load(file, 8, 4);
        if version != 1 && version != 2 then Err(UnsupportedVersion)
        else
          var headerSize := if version == 2 then 28 else 12;
          if treeSize == 0 || treeSize > MAX_TREE then Err(BadTreeSize)
          else
            match ParseTree(names.logical(dir), Slice(file, headerSize, headerSize + treeSize), map[])
            case Err(e) => Err(e)
            case Ok((entries, _)) => Ok(Archive(dir, headerSize, treeSize, entries))
  }

  // ---- the parser with an offset ----

  lemma {:induction false} ReadNameIs(s: Bytes, n: nat)
    requires n < |s| && s[n] == 0 && 0 !in s[..n]
    ensures ReadName(s) == Ok((s[..n], s[n + 1..]))
    decreases n
  {
    if n > 0 {
      var t := s[1..];
      assert s[..n][0] == s[0] && t[..n - 1] == s[..n][1..];
      assert forall b :: b in t[..n - 1] ==> b in s[..n];
      ReadNameIs(t, n - 1);
      assert [s[0]] + t[..n - 1] == s[..n] && t[n..] == s[n + 1..];
    }
  }

  lemma {:induction false} ReadNameFails(s: Bytes)
    requires 0 !in s
    ensures ReadName(s) == Err(Unterminated)
  {
    if s != [] {
      assert s[0] in s && forall b :: b in s[1..] ==> b in s;
      ReadNameFails(s[1..]);
    }
  }

  /** readCString: the string at an offset and the offset behind its zero byte. */
  method ReadCString(bytes: Bytes, at: nat) returns (r: Result<(Bytes, nat)>)
    requires at <= |bytes|
    ensures match r
            case Err(e) => ReadName(bytes[at..]) == Err(e)
            case Ok((name, next)) => at < next <= |bytes| && ReadName(bytes[at..]) == Ok((name, bytes[next..]))
  {
    var end := at;
    while end < |bytes| && bytes[end] != 0
      invariant at <= end <= |bytes| && 0 !in bytes[at..end]
    {
      end := end + 1;
    }
    if end >= |bytes| {
      assert bytes[at..end] == bytes[at..];
      ReadNameFails(bytes[at..]);
      return Err(Unterminated);
    }
    assert bytes[at..][..end - at] == bytes[at..end];
    ReadNameIs(bytes[at..], end - at);
    assert bytes[at..][end - at + 1..] == bytes[end + 1..];
    return Ok((bytes[at..end], end + 1));
  }

  lemma LoadFrom(bytes: Bytes, at: nat, i: nat, n: nat)
    requires at + i + n <= |bytes|
    ensures Load(bytes[at..], i, n) == Load(bytes, at + i, n)
  {
    assert bytes[at..][i..i + n] == bytes[at + i..at + i + n];
  }

  /** The fixed fields one after the other, then the preload. */
  method ReadEntryAt(bytes: Bytes, at: nat) returns (r: Result<(Entry, nat)>)
    requires at <= |bytes|
    ensures match r
            case Err(e) => ReadEntry(bytes[at..]) == Err(e)
            case Ok((entry, next)) => at < next <= |bytes| && ReadEntry(bytes[at..]) == Ok((entry, bytes[next..]))
  {
    hide Load;
    var offset := at;
    if offset + 4 > |bytes| { return Err(UnexpectedEnd); }
    var crc := Load(bytes, offset, 4);
    offset := offset + 4;
    if offset + 2 > |bytes| { return Err(UnexpectedEnd); }
    var preloadBytes := Load(bytes, offset, 2);
    offset := offset + 2;
    if offset + 2 > |bytes| { return Err(UnexpectedEnd); }
    var archive := Load(bytes, offset, 2);
    offset := offset + 2;
    if offset + 4 > |bytes| { return Err(UnexpectedEnd); }
    var entryOffset := Load(bytes, offset, 4);
    offset := offset + 4;
    if offset + 4 > |bytes| { return Err(UnexpectedEnd); }
    var length := Load(bytes, offset, 4);
    offset := offset + 4;
    if offset + 2 > |bytes| { return Err(UnexpectedEnd); }
    var terminator := Load(bytes, offset, 2);
    offset := offset + 2;
    LoadFrom(bytes, at, 0, 4);
    LoadFrom(bytes, at, 4, 2);
    LoadFrom(bytes, at, 6, 2);
    LoadFrom(bytes, at, 8, 4);
    LoadFrom(bytes, at, 12, 4);
    LoadFrom(bytes, at, 16, 2);
    if terminator != 0xFFFF {
      return Err(BadTerminator);
    }
    if offset + preloadBytes > |bytes| {
      return Err(BadPreload);
    }
    var preload := bytes[offset..offset + preloadBytes];
    assert bytes[at..][ENTRY_SIZE..ENTRY_SIZE + preloadBytes] == preload;
    offset := offset + preloadBytes;
    assert bytes[at..][ENTRY_SIZE + preloadBytes..] == bytes[offset..];
    return Ok((Entry(crc, archive, entryOffset, length, preload), offset));
  }

  /** The innermost loop: the files of one folder. */
  method ReadFiles(key: KeyOf, ext: Bytes, path: Bytes, bytes: Bytes, at: nat, m: Entries) returns (r: Result<(Entries, nat)>)
    requires at <= |bytes|
    ensures match r
            case Err(e) => ParseFiles(key, ext, path, bytes[at..], m) == Err(e)
            case Ok((m1, next)) => at < next <= |bytes| && ParseFiles(key, ext, path, bytes[at..], m) == Ok((m1, bytes[next..]))
  {
    hide ReadEntry, ReadName;
    var offset, entries := at, m;
    while true
      invariant at <= offset <= |bytes|
      invariant ParseFiles(key, ext, path, bytes[offset..], entries) == ParseFiles(key, ext, path, bytes[at..], m)
      decreases |bytes| - offset
    {
      var name := ReadCString(bytes, offset);
      if name.Err? { return Err(name.error); }
      if Decoded(name.value.0) == [] { return Ok((entries, name.value.1)); }
      var entry := ReadEntryAt(bytes, name.value.1);
      if entry.Err? { return Err(entry.error); }
      entries := entries[key(Decoded(path), Decoded(name.value.0), Decoded(ext)) := entry.value.0];
      offset := entry.value.1;
    }
  }

  method ReadFolders(key: KeyOf, ext: Bytes, bytes: Bytes, at: nat, m: Entries) returns (r: Result<(Entries, nat)>)
    requires at <= |bytes|
    ensures match r
            case Err(e) => ParseFolders(key, ext, bytes[at..], m) == Err(e)
            case Ok((m1, next)) => at < next <= |bytes| && ParseFolders(key, ext, bytes[at..], m) == Ok((m1, bytes[next..]))
  {
    hide ReadName, ParseFiles;
    var offset, entries := at, m;
    while true
      invariant at <= offset <= |bytes|
      invariant ParseFolders(key, ext, bytes[offset..], entries) == ParseFolders(key, ext, bytes[at..], m)
      decreases |bytes| - offset
    {
      var path := ReadCString(bytes, offset);
      if path.Err? { return Err(path.error); }
      if Decoded(path.value.0) == [] { return Ok((entries, path.value.1)); }
      var files := ReadFiles(key, ext, path.value.0, bytes, path.value.1, entries);
      if files.Err? { return Err(files.error); }
      entries, offset := files.value.0, files.value.1;
    }
  }

  /** The whole tree: what is collected is the parse of the bytes, found with one advancing offset. */
  method ReadTree(key: KeyOf, bytes: Bytes) returns (r: Result<Entries>)
    ensures match r
            case Err(e) => ParseTree(key, bytes, map[]) == Err(e)
            case Ok(m) => ParseTree(key, bytes, map[]).Ok? && ParseTree(key, bytes, map[]).value.0 == m
  {
    hide ReadName, ParseFolders;
    var offset: nat, entries: Entries := 0, map[];
    assert bytes[0..] == bytes;
    while true
      invariant offset <= |bytes|
      invariant ParseTree(key, bytes[offset..], entries) == ParseTree(key, bytes, map[])
      decreases |bytes| - offset
    {
      var ext := ReadCString(bytes, offset);
      if ext.Err? { return Err(ext.error); }
      if Decoded(ext.value.0) == [] { return Ok(entries); }
      var folders := ReadFolders(key, ext.value.0, bytes, ext.value.1, entries);
      if folders.Err? { return Err(folders.error); }
      entries, offset := folders.value.0, folders.value.1;
    }
  }

  method ReadDirectory(base: Base, names: Names, dir: Path) returns (r: Result<Archive>)
    ensures r == ParseDirectory(base, names, dir)
  {
    hide Load, ParseTree;
    var linked := base.file(dir);
    if linked.None? {
      return Err(NotLinked);
    }
    var file := linked.value;
    if |file| < 12 || Load(file, 0, 4) != SIGNATURE {
      return Err(NotVpk);
    }
    var version, treeSize := Load(file, 4, 4), Load(file, 8, 4);
    if version != 1 && version != 2 {
      return Err(UnsupportedVersion);
    }
    var headerSize := if version == 2 then 28 else 12;
    if treeSize == 0 || treeSize > MAX_TREE {
      return Err(BadTreeSize);
    }
    var entries := ReadTree(names.logical(dir), Slice(file, headerSize, headerSize + treeSize));
    if entries.Err? {
      return Err(entries.error);
    }
    return Ok(Archive(dir, headerSize, treeSize, entries.value));
  }

  // ---- the overlay ----

  datatype Item = Direct(path: Path) | Packed(found: Found) | Nowhere

  /** The first archive whose path has the same lower case: the one whose parse is remembered for both. */
  function Representative(names: Names, dirs: seq<Path>, i: nat): (j: nat)
    requires i < |dirs|
    ensures j <= i && names.lower(dirs[j]) == names.lower(dirs[i])
    ensures forall k :: 0 <= k < j ==> names.lower(dirs[k]) != names.lower(dirs[i])
  {
    FirstAlike(names, dirs, i, 0)
  }

  function FirstAlike(names: Names, dirs: seq<Path>, i: nat, from: nat): (j: nat)
    requires from <= i < |dirs|
    requires forall k :: 0 <= k < from ==> names.lower(dirs[k]) != names.lower(dirs[i])
    ensures j <= i && names.lower(dirs[j]) == names.lower(dirs[i])
    ensures forall k :: 0 <= k < j ==> names.lower(dirs[k]) != names.lower(dirs[i])
    decreases i - from
  {
    if names.lower(dirs[from]) == names.lower(dirs[i]) then from else FirstAlike(names, dirs, i, from + 1)
  }

  /** The first archive from i on, in rank order, that has the key; an archive that does not parse stops the search. */
  function Lookup(base: Base, names: Names, dirs: seq<Path>, key: Path, i: nat): Result<Option<Found>>
    requires i <= |dirs|
    decreases |dirs| - i
  {
    if i == |dirs| then Ok(None)
    else
      match ParseDirectory(base, names, dirs[Representative(names, dirs, i)])
      case Err(e) => Err(e)
      case Ok(a) => if key in a.entries then Ok(Some(Found(a, a.entries[key]))) else Lookup(base, names, dirs, key, i + 1)
  }

  function Resolution(base: Base, names: Names, dirs: seq<Path>, path: Path): Result<Item> {
    if base.has(path) then Ok(Direct(names.normal(path)))
    else
      match Lookup(base, names, dirs, names.lower(path), 0)
      case Err(e) => Err(e)
      case Ok(None) => Ok(Nowhere)
      case Ok(Some(found)) => Ok(Packed(found))
  }

  /** The payload of a file, from its own archive or a numbered one. */
  function Payload(base: Base, names: Names, f: Found): Result<Bytes> {
    if f.entry.length == 0 then Ok([])
    else
      var own := f.entry.archive == ARCHIVE_SELF;
      match base.file(if own then f.archive.dir else names.payload(f.archive.dir, f.entry.archive))
      case None => Err(MissingArchive)
      case Some(file) =>
        var from := f.entry.offset + if own then f.archive.headerSize + f.archive.treeSize else 0;
        var payload := Slice(file, from, from + f.entry.length);
        if |payload| != f.entry.length then Err(ShortRead) else Ok(payload)
  }

  function Whole(base: Base, names: Names, f: Found): Result<Bytes> {
    match Payload(base, names, f)
    case Err(e) => Err(e)
    case Ok(payload) => Ok(f.entry.preload + payload)
  }

  class Overlay {
    const base: Base
    const names: Names
    const dirs: seq<Path>
    var parsed: map<Path, Result<Archive>>
    var resolved: map<Path, Result<Option<Found>>>

    constructor (base: Base, names: Names, dirs: seq<Path>)
      ensures this.base == base && this.names == names && this.dirs == dirs && Consistent()
    {
      this.base, this.names, this.dirs := base, names, dirs;
      parsed, resolved := map[], map[];
    }

    /** What is remembered is what parsing and searching would give. */
    ghost predicate Consistent()
      reads this
    {
      && (forall i :: 0 <= i < |dirs| && names.lower(dirs[i]) in parsed ==>
            parsed[names.lower(dirs[i])] == ParseDirectory(base, names, dirs[Representative(names, dirs, i)]))
      && (forall key :: key in resolved ==> resolved[key] == Lookup(base, names, dirs, key, 0))
    }

    /** The i-th archive, parsed at most once; those before it have been looked at already. */
    method Directory(i: nat) returns (r: Result<Archive>)
      requires Consistent() && i < |dirs|
      requires forall j :: 0 <= j < i ==> names.lower(dirs[j]) in parsed
      modifies `parsed
      ensures Consistent() && r == ParseDirectory(base, names, dirs[Representative(names, dirs, i)])
      ensures forall j :: 0 <= j <= i ==> names.lower(dirs[j]) in parsed
    {
      hide Representative, FirstAlike, ParseDirectory;
      var key := names.lower(dirs[i]);
      if key !in parsed {
        var archive := ReadDirectory(base, names, dirs[i]);
        assert Representative(names, dirs, i) == i;
        forall j | 0 <= j < |dirs| && names.lower(dirs[j]) == key
          ensures Representative(names, dirs, j) == i
        {
          SameRepresentative(names, dirs, i, j);
        }
        parsed := parsed[key := archive];
      }
      return parsed[key];
    }

    method Search(key: Path) returns (r: Result<Option<Found>>)
      requires Consistent()
      modifies `parsed
      ensures Consistent() && r == Lookup(base, names, dirs, key, 0)
    {
      hide ParseDirectory, Consistent;
      for i := 0 to |dirs|
        invariant Consistent() && forall j :: 0 <= j < i ==> names.lower(dirs[j]) in parsed
        invariant Lookup(base, names, dirs, key, i) == Lookup(base, names, dirs, key, 0)
      {
        var archive := Directory(i);
        if archive.Err? { return Err(archive.error); }
        if key in archive.value.entries {
          return Ok(Some(Found(archive.value, archive.value.entries[key])));
        }
      }
      return Ok(None);
    }

    /** Whatever was looked up before, a path resolves to its own file or the first archive in rank order that has it. */
    method Resolve(path: Path) returns (r: Result<Item>)
      requires Consistent()
      modifies this
      ensures Consistent() && r == Resolution(base, names, dirs, path)
    {
      hide Lookup;
      if base.has(path) {
        return Ok(Direct(names.normal(path)));
      }
      var key := names.lower(path);
      if key !in resolved {
        var found := Search(key);
        resolved := resolved[key := found];
      }
      match resolved[key]
      case Err(e) => return Err(e);
      case Ok(None) => return Ok(Nowhere);
      case Ok(Some(found)) => return Ok(Packed(found));
    }

    /**
     A ranged read: the folder's own for a file it has, otherwise the part of preload and payload
     that the range covers.
     */
    method Read(path: Path, offset: int, length: Option<int>) returns (r: Result<Bytes>)
      requires Consistent()
      modifies this
      ensures Consistent()
      ensures base.has(path) ==> r == base.read(path, offset, length)
      ensures !base.has(path) ==>
                match Resolution(base, names, dirs, path)
                case Err(e) => r == Err(e)
                case Ok(Packed(found)) => r == Ranged(Whole(base, names, found), offset, length)
                case Ok(_) => r == Err(NotFound)
    {
      hide Lookup, Consistent, Slice, AtMost;
      if base.has(path) {
        return base.read(path, offset, length);
      }
      ResolvesPacked(base, names, dirs, path);
      var item := Resolve(path);
      if item.Err? { return Err(item.error); }
      if !item.value.Packed? { return Err(NotFound); }
      var f := item.value.found;
      var payload: Bytes := [];
      if f.entry.length != 0 {
        var own := f.entry.archive == ARCHIVE_SELF;
        var from := f.entry.offset;
        var archive := f.archive.dir;
        if own {
          from := from + f.archive.headerSize + f.archive.treeSize;
        } else {
          archive := names.payload(f.archive.dir, f.entry.archive);
        }
        var file := base.file(archive);
        if file.None? { return Err(MissingArchive); }
        payload := Slice(file.value, from, from + f.entry.length);
        if |payload| != f.entry.length { return Err(ShortRead); }
      }
      var all := f.entry.preload + payload;
      var start := if offset < 0 then 0 else offset;
      var end := if length.None? then |all| else AtMost(|all|, start + if length.value < 0 then 0 else length.value);
      return Ok(Slice(all, start, end));
    }
  }

  lemma SameRepresentative(names: Names, dirs: seq<Path>, i: nat, j: nat)
    requires i < |dirs| && j < |dirs| && names.lower(dirs[i]) == names.lower(dirs[j])
    ensures Representative(names, dirs, i) == Representative(names, dirs, j)
  {
    var a, b := Representative(names, dirs, i), Representative(names, dirs, j);
    assert names.lower(dirs[a]) == names.lower(dirs[j]) && names.lower(dirs[b]) == names.lower(dirs[i]);
  }

  lemma ResolvesPacked(base: Base, names: Names, dirs: seq<Path>, path: Path)
    requires !base.has(path)
    ensures Resolution(base, names, dirs, path).Ok? ==> !Resolution(base, names, dirs, path).value.Direct?
  {
    hide Lookup;
  }

  function AtMost(a: nat, b: nat): nat {
    if b < a then b else a
  }

  /** The bytes a range covers, cut to what there is. */
  function Ranged(whole: Result<Bytes>, offset: int, length: Option<int>): Result<Bytes> {
    match whole
    case Err(e) => Err(e)
    case Ok(all) =>
      var start := if offset < 0 then 0 else offset;
      var end := if length.None? then |all| else AtMost(|all|, start + if length.value < 0 then 0 else length.value);
      Ok(Slice(all, start, end))
  }

  // ---- what that means ----

  /** A range has the bytes from its offset on, as many as were asked for and are there; before the start it begins at the start. */
  lemma RangeIs(all: Bytes, offset: int, length: Option<int>)
    ensures var r := Ranged(Ok(all), offset, length).value;
            var from: nat := if offset < 0 then 0 else offset;
            && (|r| == if from >= |all| then 0
                       else if length.None? || length.value > |all| - from then |all| - from
                       else if length.value < 0 then 0 else length.value)
            && forall i :: 0 <= i < |r| ==> r[i] == all[from + i]
  {
  }

  /** Reading a file in two pieces is reading it at once, wherever the cut and however long the pieces. */
  lemma RangesJoin(all: Bytes, offset: nat, a: nat, b: nat)
    ensures Ranged(Ok(all), offset, Some(a)).value + Ranged(Ok(all), offset + a, Some(b)).value
            == Ranged(Ok(all), offset, Some(a + b)).value
    ensures Ranged(Ok(all), 0, None) == Ok(all)
  {
    assert all[0..|all|] == all;
  }

  /**
   With no two archives alike but for case, a key is found in the first archive that has it, all
   before it having parsed without it.
   */
  lemma {:induction false} LookupIsFirst(base: Base, names: Names, dirs: seq<Path>, key: Path, i: nat) returns (at: nat)
    requires i <= |dirs|
    requires forall j, k :: 0 <= j < k < |dirs| ==> names.lower(dirs[j]) != names.lower(dirs[k])
    ensures i <= at <= |dirs|
    ensures forall j :: i <= j < at ==>
              var p := ParseDirectory(base, names, dirs[j]); p.Ok? && key !in p.value.entries
    ensures Lookup(base, names, dirs, key, i) ==
            if at == |dirs| then Ok(None)
            else
              match ParseDirectory(base, names, dirs[at])
              case Err(e) => Err(e)
              case Ok(a) => if key in a.entries then Ok(Some(Found(a, a.entries[key]))) else Ok(None)
    ensures at < |dirs| ==>
              var p := ParseDirectory(base, names, dirs[at]); p.Err? || key in p.value.entries
    decreases |dirs| - i
  {
    hide ParseDirectory;
    if i == |dirs| {
      at := i;
    } else {
      assert Representative(names, dirs, i) == i;
      var p := ParseDirectory(base, names, dirs[i]);
      if p.Ok? && key !in p.value.entries {
        at := LookupIsFirst(base, names, dirs, key, i + 1);
      } else {
        at := i;
      }
    }
  }
}
