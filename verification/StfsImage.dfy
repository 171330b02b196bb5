/**
 A whole STFS package as its writer prints it: the header with its volume descriptor, directory
 records in the blocks of the file table, and the volume of StfsVolume.dfy. Mounting the print lists
 the records that were printed, and opening it gives the printed title.
 */
module StfsImage {
  import opened Options
  import opened LittleEndian
  import opened StfsLayout
  import E = StfsExtraction
  import C = StfsContents
  import opened StfsMount
  import opened StfsMountContents
  import opened StfsPackage
  import opened StfsVolume

  function BigEndian(v: nat, n: nat): (r: seq<byte>)
    ensures |r| == n
  {
    if n == 0 then [] else BigEndian(v / 256, n - 1) + [v % 256]
  }

  function Ascii(s: string): (r: seq<byte>)
    requires forall i :: 0 <= i < |s| ==> s[i] < 128 as char
    ensures |r| == |s|
  {
    seq(|s|, i requires 0 <= i < |s| => s[i] as int)
  }

  // ---- directory records ----

  /** A directory record; spare and times are bytes nobody looks at. */
  datatype Listed = Listed(
    name: seq<byte>,
    spare: seq<byte>,
    directory: bool,
    contiguous: bool,
    validBlocks: nat,
    allocatedBlocks: nat,
    startBlock: nat,
    parent: nat,
    length: nat,
    times: seq<byte>)

  ghost predicate GoodListed(l: Listed) {
    && 0 < |l.name| <= 40 && l.name[0] != 0 && |l.spare| == 40 - |l.name|
    && l.validBlocks < 0x100_0000 && l.allocatedBlocks < 0x100_0000 && l.startBlock < 0x100_0000
    && l.parent < 0x1_0000 && l.length < 0x1_0000_0000 && |l.times| == 8
  }

  function FlagsOf(l: Listed): (r: byte)
    requires GoodListed(l)
  {
    |l.name| + (if l.contiguous then 64 else 0) + (if l.directory then 128 else 0)
  }

  function PrintListed(l: Listed): (r: seq<byte>)
    requires GoodListed(l)
    ensures |r| == 64
  {
    (l.name + l.spare)
    + ([FlagsOf(l)] + (Encode(l.validBlocks, 3) + (Encode(l.allocatedBlocks, 3) + (Encode(l.startBlock, 3)
    + (BigEndian(l.parent, 2) + (BigEndian(l.length, 4) + l.times))))))
  }

  /** The record a printed entry is read back as. */
  function RecordOf(l: Listed): Record
    requires GoodListed(l)
  {
    Record(l.name, FlagsOf(l), l.validBlocks, l.allocatedBlocks, l.startBlock, l.parent, l.length)
  }

  lemma ReadsLe24(s: seq<byte>, at: nat, v: nat)
    requires at + 3 <= |s| && v < 0x100_0000 && s[at..at + 3] == Encode(v, 3)
    ensures Le24(s, at) == v
  {
    assert Encode(v, 3) == [v % 256] + Encode(v / 256, 2);
    assert Encode(v / 256, 2) == [v / 256 % 256] + Encode(v / 256 / 256, 1);
    assert Encode(v / 256 / 256, 1) == [v / 256 / 256 % 256] + Encode(v / 256 / 256 / 256, 0);
    assert s[at..at + 3][0] == s[at] && s[at..at + 3][1] == s[at + 1] && s[at..at + 3][2] == s[at + 2];
  }

  lemma ReadsBe16(s: seq<byte>, at: nat, v: nat)
    requires at + 2 <= |s| && v < 0x1_0000 && s[at..at + 2] == BigEndian(v, 2)
    ensures Be16(s, at) == v
  {
    assert BigEndian(v, 2) == BigEndian(v / 256, 1) + [v % 256];
    assert BigEndian(v / 256, 1) == BigEndian(v / 256 / 256, 0) + [v / 256 % 256];
    assert s[at..at + 2][0] == s[at] && s[at..at + 2][1] == s[at + 1];
  }

  lemma ReadsBe32(s: seq<byte>, at: nat, v: nat)
    requires at + 4 <= |s| && v < 0x1_0000_0000 && s[at..at + 4] == BigEndian(v, 4)
    ensures E.Be32(s, at) == v
  {
    var w := v / 256;
    var x := w / 256;
    var y := x / 256;
    assert BigEndian(v, 4) == BigEndian(w, 3) + [v % 256];
    assert BigEndian(w, 3) == BigEndian(x, 2) + [w % 256];
    assert BigEndian(x, 2) == BigEndian(y, 1) + [x % 256];
    assert BigEndian(y, 1) == BigEndian(y / 256, 0) + [y % 256];
    assert s[at..at + 4][0] == s[at] && s[at..at + 4][1] == s[at + 1];
    assert s[at..at + 4][2] == s[at + 2] && s[at..at + 4][3] == s[at + 3];
  }

  lemma ListedPieces(l: Listed)
    requires GoodListed(l)
    ensures var p := PrintListed(l);
            && p[..|l.name|] == l.name && p[0x28] == FlagsOf(l)
            && p[0x29..0x2C] == Encode(l.validBlocks, 3) && p[0x2C..0x2F] == Encode(l.allocatedBlocks, 3)
            && p[0x2F..0x32] == Encode(l.startBlock, 3) && p[0x32..0x34] == BigEndian(l.parent, 2)
            && p[0x34..0x38] == BigEndian(l.length, 4)
  {
    hide Encode, BigEndian, FlagsOf;
  }

  /** Part of a part. */
  lemma Within(s: seq<byte>, at: nat, p: seq<byte>, from: nat, to: nat)
    requires at + |p| <= |s| && s[at..at + |p|] == p && from <= to <= |p|
    ensures s[at + from..at + to] == p[from..to]
  {
    var part := s[at..at + |p|];
    forall k | 0 <= k < |part|
      ensures part[k] == s[at + k]
    {
    }
  }

  lemma ReadsFields(bytes: seq<byte>, at: nat, l: Listed)
    requires GoodListed(l) && at + 64 <= |bytes| && bytes[at..at + 64] == PrintListed(l)
    ensures bytes[at..at + |l.name|] == l.name && bytes[at] == l.name[0] && bytes[at + 0x28] == FlagsOf(l)
    ensures Le24(bytes, at + 0x29) == l.validBlocks && Le24(bytes, at + 0x2C) == l.allocatedBlocks
    ensures Le24(bytes, at + 0x2F) == l.startBlock && Be16(bytes, at + 0x32) == l.parent
    ensures E.Be32(bytes, at + 0x34) == l.length
  {
    ListedPieces(l);
    var p := PrintListed(l);
    hide PrintListed, Le24, Be16, E.Be32, Encode, BigEndian, FlagsOf;
    Within(bytes, at, p, 0, |l.name|);
    Within(bytes, at, p, 0x29, 0x2C);
    Within(bytes, at, p, 0x2C, 0x2F);
    Within(bytes, at, p, 0x2F, 0x32);
    Within(bytes, at, p, 0x32, 0x34);
    Within(bytes, at, p, 0x34, 0x38);
    ReadsLe24(bytes, at + 0x29, l.validBlocks);
    ReadsLe24(bytes, at + 0x2C, l.allocatedBlocks);
    ReadsLe24(bytes, at + 0x2F, l.startBlock);
    ReadsBe16(bytes, at + 0x32, l.parent);
    ReadsBe32(bytes, at + 0x34, l.length);
    assert bytes[at..at + 64][0x28] == bytes[at + 0x28];
  }

  /** A printed record, wherever it is in a block, is read back field by field. */
  lemma ReadsListed(bytes: seq<byte>, i: nat, l: Listed)
    requires GoodListed(l) && i < ENTRIES_PER_BLOCK && |bytes| >= BLOCK_SIZE
    requires bytes[64 * i..64 * i + 64] == PrintListed(l)
    ensures bytes[i * DIRECTORY_ENTRY_SIZE] != 0 && WellNamed(bytes, i) && RecordAt(bytes, i) == RecordOf(l)
  {
    assert i * DIRECTORY_ENTRY_SIZE == 64 * i;
    ReadsFields(bytes, 64 * i, l);
    hide PrintListed, Le24, Be16, E.Be32, Encode, BigEndian;
    assert NameLength(bytes, i) == |l.name|;
  }

  /** What an extraction is told of the file. */
  lemma FlagsSay(l: Listed)
    requires GoodListed(l)
    ensures IsDirectory(RecordOf(l)) == l.directory
    ensures EntryOf(RecordOf(l))
            == E.Entry(l.directory, l.contiguous, l.validBlocks, l.allocatedBlocks, l.startBlock, l.length)
  {
  }

  // ---- directory blocks ----

  ghost predicate AllGood(ls: seq<Listed>) {
    forall l :: l in ls ==> GoodListed(l)
  }

  function PrintAll(ls: seq<Listed>): (r: seq<byte>)
    requires AllGood(ls)
    ensures |r| == 64 * |ls|
  {
    if ls == [] then [] else PrintListed(ls[0]) + PrintAll(ls[1..])
  }

  function RecordsFor(ls: seq<Listed>): (r: seq<Record>)
    requires AllGood(ls)
    ensures |r| == |ls| && forall k :: 0 <= k < |ls| ==> r[k] == RecordOf(ls[k])
  {
    if ls == [] then [] else [RecordOf(ls[0])] + RecordsFor(ls[1..])
  }

  /** A block of the file table: up to 64 records, then a zero byte where a name would start. */
  ghost predicate IsTableBlock(block: Block, ls: seq<Listed>) {
    && AllGood(ls) && |ls| <= 64
    && block[..64 * |ls|] == PrintAll(ls)
    && (|ls| < 64 ==> block[64 * |ls|] == 0)
  }

  lemma {:induction false} PrintedAt(ls: seq<Listed>, k: nat)
    requires AllGood(ls) && k < |ls|
    ensures PrintAll(ls)[64 * k..64 * k + 64] == PrintListed(ls[k])
  {
    hide PrintListed, GoodListed;
    if k > 0 {
      PrintedAt(ls[1..], k - 1);
      var rest := PrintAll(ls[1..]);
      assert rest[64 * (k - 1)..64 * (k - 1) + 64] == PrintAll(ls)[64 * k..64 * k + 64];
    }
  }

  /** A record of a printed block of the file table is read back. */
  lemma ReadsOneOfBlock(block: Block, ls: seq<Listed>, i: nat)
    requires IsTableBlock(block, ls) && i < |ls|
    ensures block[i * DIRECTORY_ENTRY_SIZE] != 0 && WellNamed(block, i) && RecordAt(block, i) == RecordsFor(ls)[i]
  {
    hide PrintListed, GoodListed, RecordOf, RecordAt, WellNamed, PrintAll, RecordsFor;
    assert ls[i] in ls && RecordsFor(ls)[i] == RecordOf(ls[i]);
    PrintedAt(ls, i);
    assert block[0..0 + |PrintAll(ls)|] == PrintAll(ls);
    hide *;
    Within(block, 0, PrintAll(ls), 64 * i, 64 * i + 64);
    ReadsListed(block, i, ls[i]);
  }

  lemma {:induction false} ReadsTableBlock(block: Block, ls: seq<Listed>, i: nat)
    requires IsTableBlock(block, ls) && i <= |ls|
    ensures RecordsFrom(block, i) == RecordsFor(ls)[i..]
    decreases |ls| - i
  {
    hide GoodListed, RecordAt, WellNamed, PrintAll, RecordsFor;
    assert i * DIRECTORY_ENTRY_SIZE == 64 * i;
    if i < |ls| {
      ReadsOneOfBlock(block, ls, i);
      ReadsTableBlock(block, ls, i + 1);
      hide IsTableBlock;
    }
  }

  /** A printed block of the file table adds its records to a listing that has room for them. */
  lemma AddsTableBlock(block: Block, ls: seq<Listed>, entries: seq<Record>)
    requires IsTableBlock(block, ls) && |entries| + |ls| <= MAX_ENTRIES
    ensures Added(block, entries) == (None, entries + RecordsFor(ls))
  {
    ReadsTableBlock(block, ls, 0);
    hide PrintAll, GoodListed, RecordOf, RecordAt;
    assert |ls| * DIRECTORY_ENTRY_SIZE == 64 * |ls|;
  }

  // ---- the listing ----

  lemma LookupOnce(pkg: E.Package, file: seq<byte>, i: nat, level: nat, second: nat)
    requires |file| == pkg.fileSize && level <= 2 && E.InFile(pkg, E.HashOffset(pkg, i, level) + second, BLOCK_SIZE)
    requires WordAt(pkg, i, level, second) + 4 <= |file|
    ensures var word := E.Be32(file, WordAt(pkg, i, level, second));
            Lookup(pkg, file, i, level, second)
            == if level > 0 then Lookup(pkg, file, i, level - 1, E.ActiveOffset(word)) else Some(E.NextInChain(word))
  {
    hide E.HashOffset, E.Be32, E.Record, E.ActiveOffset, E.NextInChain;
  }

  lemma {:induction false} LookupFromLevel(
    vol: Volume, head: seq<byte>, n: nat, pkg: E.Package, file: seq<byte>, i: nat, level: nat)
    requires IsImage(vol, head, n, pkg, file) && i < vol.total && level <= TopLevel(vol)
    ensures Lookup(pkg, file, i, level, CurrentOffset(vol, level, TableIndex(i, level))) == Some(vol.next(i))
    decreases level
  {
    assert |file| == pkg.fileSize && level <= 2;
    hide *;
    WordIsThere(vol, head, n, pkg, file, i, level);
    LookupOnce(pkg, file, i, level, CurrentOffset(vol, level, TableIndex(i, level)));
    if level > 0 {
      LookupFromLevel(vol, head, n, pkg, file, i, level - 1);
    }
  }

  /** The blocks of a file table announced to have so many: the chain, up to its end. */
  function TableChain(vol: Volume, start: nat, announced: nat): (r: seq<nat>)
    ensures announced > 0 ==> 0 < |r| <= announced && r[0] == start
    decreases announced
  {
    if announced == 0 then []
    else
      [start] + if announced > 1 && vol.next(start) != 0xFF_FFFF then TableChain(vol, vol.next(start), announced - 1) else []
  }

  /** The k-th block of the chain holds the k-th list of records. */
  ghost predicate HoldsLists(vol: Volume, chain: seq<nat>, lists: seq<seq<Listed>>) {
    && |lists| == |chain|
    && forall k :: 0 <= k < |chain| ==> chain[k] < vol.total && IsTableBlock(vol.data(chain[k]), lists[k])
  }

  function Flat(lists: seq<seq<Listed>>): seq<Listed> {
    if lists == [] then [] else lists[0] + Flat(lists[1..])
  }

  lemma {:induction false} FlatIsGood(vol: Volume, chain: seq<nat>, lists: seq<seq<Listed>>)
    requires HoldsLists(vol, chain, lists)
    ensures AllGood(Flat(lists))
  {
    hide IsTableBlock, GoodListed;
    if lists != [] {
      assert IsTableBlock(vol.data(chain[0]), lists[0]);
      assert AllGood(lists[0]) by { TableBlockIsGood(vol.data(chain[0]), lists[0]); }
      assert forall k :: 0 <= k < |chain[1..]| ==> chain[1..][k] == chain[k + 1] && lists[1..][k] == lists[k + 1];
      FlatIsGood(vol, chain[1..], lists[1..]);
    }
  }

  lemma TableBlockIsGood(block: Block, ls: seq<Listed>)
    requires IsTableBlock(block, ls)
    ensures AllGood(ls)
  {
  }

  lemma RecordsForBoth(a: seq<Listed>, b: seq<Listed>)
    requires AllGood(a) && AllGood(b)
    ensures AllGood(a + b) && RecordsFor(a + b) == RecordsFor(a) + RecordsFor(b)
  {
    assert forall l :: l in a + b ==> l in a || l in b;
    hide GoodListed, RecordOf, RecordsFor;
    assert AllGood(a + b);
    assert RecordsFor(a + b) == RecordsFor(a) + RecordsFor(b);
  }

  /** A readable block of the file table, and what comes behind it. */
  lemma ListingOnce(pkg: E.Package, file: seq<byte>, i: nat, left: nat, entries: seq<Record>, block: Block, ls: seq<Listed>)
    requires |file| == pkg.fileSize && left > 0 && IsTableBlock(block, ls) && |entries| + |ls| <= MAX_ENTRIES
    requires i < pkg.totalBlocks && E.InFile(pkg, E.DataOffset(pkg, i), BLOCK_SIZE)
    requires file[E.DataOffset(pkg, i)..E.DataOffset(pkg, i) + BLOCK_SIZE] == block
    ensures var all := entries + RecordsFor(ls);
            Listing(pkg, file, i, left, entries) ==
              if left == 1 then Finished(pkg, all, Mounted)
              else Onward(pkg, file, Lookup(pkg, file, i, E.FirstLevel(pkg), RootOffset(pkg)), left - 1, all)
  {
    AddsTableBlock(block, ls, entries);
    hide E.DataOffset, Added, Lookup, E.FirstLevel, RecordsFor, IsTableBlock, Finished;
  }

  lemma OnwardOnce(pkg: E.Package, file: seq<byte>, next: nat, left: nat, entries: seq<Record>)
    requires |file| == pkg.fileSize && left > 0 && |entries| <= MAX_ENTRIES
    ensures Onward(pkg, file, Some(next), left, entries) ==
              if next == E.END_OF_CHAIN then Finished(pkg, entries, MountedPartial) else Listing(pkg, file, next, left, entries)
  {
    hide Listing, Finished;
  }

  lemma LooksUpNext(vol: Volume, head: seq<byte>, n: nat, pkg: E.Package, file: seq<byte>, i: nat)
    requires IsImage(vol, head, n, pkg, file) && i < vol.total
    ensures Lookup(pkg, file, i, E.FirstLevel(pkg), RootOffset(pkg)) == Some(vol.next(i))
  {
    hide Lookup, Blocks;
    LookupFromLevel(vol, head, n, pkg, file, i, E.FirstLevel(pkg));
  }

  /** The first list and the others. */
  lemma ListsSplit(vol: Volume, chain: seq<nat>, lists: seq<seq<Listed>>)
    requires HoldsLists(vol, chain, lists) && chain != []
    ensures chain[0] < vol.total && IsTableBlock(vol.data(chain[0]), lists[0]) && HoldsLists(vol, chain[1..], lists[1..])
    ensures AllGood(lists[0]) && AllGood(Flat(lists[1..])) && AllGood(Flat(lists))
    ensures |Flat(lists)| == |lists[0]| + |Flat(lists[1..])|
    ensures RecordsFor(Flat(lists)) == RecordsFor(lists[0]) + RecordsFor(Flat(lists[1..]))
  {
    FlatIsGood(vol, chain, lists);
    TableBlockIsGood(vol.data(chain[0]), lists[0]);
    hide IsTableBlock, GoodListed, RecordsFor;
    assert forall k :: 0 <= k < |chain[1..]| ==> chain[1..][k] == chain[k + 1] && lists[1..][k] == lists[k + 1];
    FlatIsGood(vol, chain[1..], lists[1..]);
    RecordsForBoth(lists[0], Flat(lists[1..]));
  }

  /** One printed block of the file table: the listing goes on where the volume says, with its records added. */
  lemma ListingGoesOn(
    vol: Volume, head: seq<byte>, n: nat, pkg: E.Package, file: seq<byte>, i: nat, left: nat, ls: seq<Listed>, entries: seq<Record>)
    requires IsImage(vol, head, n, pkg, file) && i < vol.total && left > 0 && IsTableBlock(vol.data(i), ls)
    requires |entries| + |ls| <= MAX_ENTRIES
    ensures AllGood(ls)
    ensures var all := entries + RecordsFor(ls);
            Listing(pkg, file, i, left, entries) ==
              if left == 1 then Finished(pkg, all, Mounted)
              else if vol.next(i) == E.END_OF_CHAIN then Finished(pkg, all, MountedPartial)
              else Listing(pkg, file, vol.next(i), left - 1, all)
  {
    TableBlockIsGood(vol.data(i), ls);
    DataIsThere(vol, head, n, pkg, file, i);
    LooksUpNext(vol, head, n, pkg, file, i);
    hide E.DataOffset, IsTableBlock, RecordsFor, Listing, Onward, Finished, Lookup, Blocks, DataBlock, RootOffset, E.FirstLevel;
    ListingOnce(pkg, file, i, left, entries, vol.data(i), ls);
    if left > 1 {
      OnwardOnce(pkg, file, vol.next(i), left - 1, entries + RecordsFor(ls));
    }
  }

  lemma Regroup(a: seq<Record>, b: seq<Record>, c: seq<Record>)
    ensures a + (b + c) == (a + b) + c && a + (b + []) == a + b
  {
  }

  /** The lists of a file table: those of its first block, and those of the table that starts with the next, if any. */
  lemma TableSplits(vol: Volume, i: nat, left: nat, lists: seq<seq<Listed>>, entries: seq<Record>)
    requires left > 0 && HoldsLists(vol, TableChain(vol, i, left), lists)
    ensures i < vol.total && lists != [] && IsTableBlock(vol.data(i), lists[0]) && AllGood(lists[0])
    ensures AllGood(Flat(lists)) && AllGood(Flat(lists[1..])) && |Flat(lists)| == |lists[0]| + |Flat(lists[1..])|
    ensures entries + RecordsFor(Flat(lists)) == (entries + RecordsFor(lists[0])) + RecordsFor(Flat(lists[1..]))
    ensures if left > 1 && vol.next(i) != E.END_OF_CHAIN
            then HoldsLists(vol, TableChain(vol, vol.next(i), left - 1), lists[1..])
            else |lists| == 1 && (entries + RecordsFor(lists[0])) + RecordsFor(Flat(lists[1..])) == entries + RecordsFor(lists[0])
  {
    var chain := TableChain(vol, i, left);
    var more := left > 1 && vol.next(i) != E.END_OF_CHAIN;
    assert chain[1..] == if more then TableChain(vol, vol.next(i), left - 1) else [];
    assert |lists| == |chain|;
    ListsSplit(vol, chain, lists);
    if !more {
      NoLists(vol, lists[1..]);
    }
    Regroup(entries, RecordsFor(lists[0]), RecordsFor(Flat(lists[1..])));
    hide *;
  }

  /** Reading the printed file table from block i on. */
  lemma {:induction false} ListingIsPrinted(
    vol: Volume, head: seq<byte>, n: nat, pkg: E.Package, file: seq<byte>, i: nat, left: nat, lists: seq<seq<Listed>>,
    entries: seq<Record>)
    requires IsImage(vol, head, n, pkg, file) && left > 0 && HoldsLists(vol, TableChain(vol, i, left), lists)
    requires |entries| + |Flat(lists)| <= MAX_ENTRIES
    ensures AllGood(Flat(lists))
    ensures Listing(pkg, file, i, left, entries)
            == Finished(pkg, entries + RecordsFor(Flat(lists)), if |lists| == left then Mounted else MountedPartial)
    decreases left
  {
    hide *;
    TableSplits(vol, i, left, lists, entries);
    ListingGoesOn(vol, head, n, pkg, file, i, left, lists[0], entries);
    if left > 1 && vol.next(i) != E.END_OF_CHAIN {
      ListingIsPrinted(vol, head, n, pkg, file, vol.next(i), left - 1, lists[1..], entries + RecordsFor(lists[0]));
    }
  }

  lemma NoLists(vol: Volume, lists: seq<seq<Listed>>)
    requires HoldsLists(vol, [], lists)
    ensures lists == [] && Flat(lists) == [] && AllGood(Flat(lists)) && RecordsFor(Flat(lists)) == []
  {
  }

  // ---- the header ----

  /** The header with its volume descriptor; everything not named here is bytes the mount does not look at. */
  datatype Header = Header(
    magic: seq<byte>,
    identity: seq<byte>,
    headerSize: nat,
    content: seq<byte>,
    version: byte,
    otherFlags: nat,
    tableBlocks: nat,
    tableStart: nat,
    topHash: seq<byte>,
    free: seq<byte>,
    files: seq<byte>,
    rest: seq<byte>)

  ghost predicate GoodHeader(h: Header) {
    && h.magic in {Ascii("LIVE"), Ascii("PIRS"), Ascii("CON ")}
    && |h.identity| == 0x33C && |h.content| == 0x35 && |h.topHash| == 0x14 && |h.free| == 4 && |h.files| == 12
    && 0x344 <= h.headerSize < 0x1_0000_0000 && h.otherFlags < 64
    && 0 < h.tableBlocks < 0x1_0000 && h.tableStart < 0x100_0000
  }

  /** The descriptor: its own length, a version, the flags, the file table, and so on up to the free blocks. */
  function PrintDescriptor(h: Header, vol: Volume): (r: seq<byte>)
    requires GoodHeader(h)
    ensures |r| == 0x24
  {
    [0x24, h.version, h.otherFlags * 4 + (if vol.rootSecond then 2 else 0) + (if vol.readOnly then 1 else 0)]
    + (Encode(h.tableBlocks, 2) + (Encode(h.tableStart, 3) + (h.topHash + (BigEndian(vol.total, 4) + h.free))))
  }

  /** A zero volume type, which says STFS, and the rest behind it. */
  function PrintHeader(h: Header, vol: Volume): (r: seq<byte>)
    requires GoodHeader(h)
    ensures |r| == 0x3AD + |h.rest|
  {
    (h.magic + (h.identity + (BigEndian(h.headerSize, 4) + h.content)))
    + (PrintDescriptor(h, vol) + (h.files + (BigEndian(0, 4) + h.rest)))
  }

  lemma ReadsLe16(s: seq<byte>, at: nat, v: nat)
    requires at + 2 <= |s| && v < 0x1_0000 && s[at..at + 2] == Encode(v, 2)
    ensures Le16(s, at) == v
  {
    assert Encode(v, 2) == [v % 256] + Encode(v / 256, 1);
    assert Encode(v / 256, 1) == [v / 256 % 256] + Encode(v / 256 / 256, 0);
    assert s[at..at + 2][0] == s[at] && s[at..at + 2][1] == s[at + 1];
  }

  lemma HeaderPieces(h: Header, vol: Volume)
    requires GoodHeader(h)
    ensures var p := PrintHeader(h, vol);
            && p[..4] == h.magic && p[0x340..0x344] == BigEndian(h.headerSize, 4)
            && p[0x379..0x39D] == PrintDescriptor(h, vol) && p[0x3A9..0x3AD] == BigEndian(0, 4)
  {
    hide BigEndian, PrintDescriptor, Ascii;
    assert |h.magic| == 4;
  }

  lemma DescriptorPieces(h: Header, vol: Volume)
    requires GoodHeader(h)
    ensures var p := PrintDescriptor(h, vol);
            && p[0] == 0x24
            && p[2] == h.otherFlags * 4 + (if vol.rootSecond then 2 else 0) + (if vol.readOnly then 1 else 0)
            && p[3..5] == Encode(h.tableBlocks, 2) && p[5..8] == Encode(h.tableStart, 3)
            && p[0x1C..0x20] == BigEndian(vol.total, 4)
  {
    hide BigEndian, Encode;
  }

  lemma MagicIsKnown(bytes: seq<byte>, magic: seq<byte>)
    requires magic in {Ascii("LIVE"), Ascii("PIRS"), Ascii("CON ")}
    requires 4 <= |bytes| <= E.IO_CAPACITY && bytes[..4] == magic
    ensures IsPackage(bytes)
  {
    assert Ascii("LIVE") == [0x4C, 0x49, 0x56, 0x45];
    assert Ascii("PIRS") == [0x50, 0x49, 0x52, 0x53];
    assert Ascii("CON ") == [0x43, 0x4F, 0x4E, 0x20];
    assert bytes[..3] == bytes[..4][..3];
  }

  lemma DescriptorInHeader(bytes: seq<byte>, h: Header, vol: Volume)
    requires GoodHeader(h) && |bytes| >= 0x3AD && bytes[0x379..0x39D] == PrintDescriptor(h, vol)
    ensures bytes[0x379] == 0x24 && bytes[0x37B] % 2 == (if vol.readOnly then 1 else 0)
    ensures bytes[0x37B] / 2 % 2 == (if vol.rootSecond then 1 else 0)
    ensures bytes[0x37C..0x37E] == Encode(h.tableBlocks, 2) && bytes[0x37E..0x381] == Encode(h.tableStart, 3)
    ensures bytes[0x395..0x399] == BigEndian(vol.total, 4)
  {
    DescriptorPieces(h, vol);
    var d := PrintDescriptor(h, vol);
    hide PrintDescriptor, BigEndian, Encode;
    Within(bytes, 0x379, d, 3, 5);
    Within(bytes, 0x379, d, 5, 8);
    Within(bytes, 0x379, d, 0x1C, 0x20);
    assert bytes[0x379..0x39D][0] == bytes[0x379] && bytes[0x379..0x39D][2] == bytes[0x37B];
  }

  lemma HeaderInFile(bytes: seq<byte>, h: Header, vol: Volume)
    requires GoodHeader(h) && |bytes| >= 0x3AD && bytes[..0x3AD] == PrintHeader(h, vol)[..0x3AD]
    ensures bytes[..4] == h.magic && bytes[0x340..0x344] == BigEndian(h.headerSize, 4)
    ensures bytes[0x379..0x39D] == PrintDescriptor(h, vol) && bytes[0x3A9..0x3AD] == BigEndian(0, 4)
  {
    HeaderPieces(h, vol);
    var p := PrintHeader(h, vol)[..0x3AD];
    hide PrintHeader, PrintDescriptor, BigEndian;
    Within(bytes, 0, p, 0, 4);
    Within(bytes, 0, p, 0x340, 0x344);
    Within(bytes, 0, p, 0x379, 0x39D);
    Within(bytes, 0, p, 0x3A9, 0x3AD);
  }

  /** What the mount reads out of a printed header. */
  lemma ReadsHeader(bytes: seq<byte>, h: Header, vol: Volume, fileSize: nat)
    requires GoodHeader(h) && vol.total < 0x1_0000_0000
    requires |bytes| == HEADER_STRUCT_SIZE && bytes[..0x3AD] == PrintHeader(h, vol)[..0x3AD]
    ensures IsPackage(bytes) && bytes[0x379] == VOLUME_DESCRIPTOR_SIZE && E.Be32(bytes, 0x3A9) == 0
    ensures TableBlocks(bytes) == h.tableBlocks && TableStart(bytes) == h.tableStart
    ensures HeaderPackage(fileSize, bytes) == E.Package(fileSize, h.headerSize, vol.total, vol.readOnly, vol.rootSecond)
  {
    HeaderInFile(bytes, h, vol);
    DescriptorInHeader(bytes, h, vol);
    hide PrintHeader, PrintDescriptor, BigEndian, Encode, E.Be32, Le24, Le16, IsPackage;
    MagicIsKnown(bytes, h.magic);
    ReadsBe32(bytes, 0x340, h.headerSize);
    ReadsBe32(bytes, 0x3A9, 0);
    ReadsLe16(bytes, 0x37C, h.tableBlocks);
    ReadsLe24(bytes, 0x37E, h.tableStart);
    ReadsBe32(bytes, 0x395, vol.total);
  }

  // ---- which packages are mounted ----

  lemma Magics()
    ensures Ascii("XEX1") == [0x58, 0x45, 0x58, 0x31] && Ascii("XEX2") == [0x58, 0x45, 0x58, 0x32]
    ensures Ascii("LIVE") == [0x4C, 0x49, 0x56, 0x45] && Ascii("PIRS") == [0x50, 0x49, 0x52, 0x53]
    ensures Ascii("CON") == [0x43, 0x4F, 0x4E]
  {
  }

  lemma ThreeOfFour(bytes: seq<byte>)
    requires |bytes| >= 4
    ensures bytes[..3] == bytes[..4][..3] && bytes[..4] == bytes[..3] + [bytes[3]]
  {
  }

  /** A container is known by its first letters, the three of a console's own and four of any other. */
  lemma KindSays(bytes: seq<byte>)
    requires 4 <= |bytes| <= 0x80_0000
    ensures IsPackage(bytes) <==> bytes[..4] in {Ascii("LIVE"), Ascii("PIRS")} || bytes[..3] == Ascii("CON")
    ensures Classify(bytes) == 1 <==> bytes[..4] == Ascii("XEX1")
    ensures Classify(bytes) == 2 <==> bytes[..4] == Ascii("XEX2")
  {
    Magics();
    ThreeOfFour(bytes);
    hide Ascii;
    if bytes[..4] == Ascii("XEX1") || bytes[..4] == Ascii("XEX2") {
      assert bytes[..3][0] == 0x58 && Ascii("CON")[0] == 0x43;
    }
  }

  /** The probe of a title warns unless it begins as an executable does, and ends the mount either way. */
  lemma ProbeSays(st: State, bytes: seq<byte>)
    requires 4 <= |bytes| <= 0x80_0000
    ensures var st' := ParseDefaultXexProbe(st, bytes);
            && (st'.warnings.notXex <==> st.warnings.notXex || bytes[..4] !in {Ascii("XEX1"), Ascii("XEX2")})
            && st'.request.None? && st'.entries == st.entries
            && st'.status == if st.warnings.terminal then MountedPartial else Mounted
  {
    KindSays(bytes);
    hide Classify, Ascii;
  }

  /** What can be wrong with the header, in the order it is found out. */
  function HeaderError(file: seq<byte>): Option<Status> {
    if |file| < 0x971A then Some(ErrorTooSmall)
    else if file[..4] !in {Ascii("LIVE"), Ascii("PIRS")} && file[..3] != Ascii("CON") then Some(ErrorMagic)
    else if !(0x344 <= E.Be32(file, 0x340) <= |file|) then Some(ErrorHeader)
    else if E.Be32(file, 0x3A9) != 0 then Some(ErrorUnsupportedVolume)
    else if file[0x379] != 0x24 then Some(ErrorHeader)
    else if Le16(file, 0x37C) > 0 && 0 < E.Be32(file, 0x395) <= Le24(file, 0x37E) then Some(ErrorHeader)
    else None
  }

  lemma FrontAlike(file: seq<byte>, at: nat, n: nat)
    requires at + 4 <= n <= |file|
    ensures E.Be32(file[..n], at) == E.Be32(file, at)
    ensures Le16(file[..n], at) == Le16(file, at) && Le24(file[..n], at) == Le24(file, at)
  {
  }

  /** What the mount takes from the front of a file, said of the file. */
  lemma HeaderOf(file: seq<byte>)
    requires |file| >= HEADER_STRUCT_SIZE
    ensures var front := file[..HEADER_STRUCT_SIZE];
            && HeaderPackage(|file|, front) == E.Package(|file|, E.Be32(file, 0x340), E.Be32(file, 0x395),
                                                         file[0x37B] % 2 == 1, file[0x37B] / 2 % 2 == 1)
            && TableBlocks(front) == Le16(file, 0x37C) && TableStart(front) == Le24(file, 0x37E)
            && E.Be32(front, 0x3A9) == E.Be32(file, 0x3A9) && front[0x379] == file[0x379]
            && front[..4] == file[..4] && front[..3] == file[..3]
  {
    hide E.Be32, Le16, Le24;
    FrontAlike(file, 0x340, HEADER_STRUCT_SIZE);
    FrontAlike(file, 0x37C, HEADER_STRUCT_SIZE);
    FrontAlike(file, 0x37E, HEADER_STRUCT_SIZE);
    FrontAlike(file, 0x395, HEADER_STRUCT_SIZE);
    FrontAlike(file, 0x3A9, HEADER_STRUCT_SIZE);
  }

  /** A package is refused for its header exactly when it has one of these faults; any other ends as its table says. */
  lemma HeaderErrors(file: seq<byte>)
    ensures if HeaderError(file).Some? then MountOf(file) == Final(HeaderError(file).value, [])
            else
              var pkg := E.Package(|file|, E.Be32(file, 0x340), E.Be32(file, 0x395),
                                   file[0x37B] % 2 == 1, file[0x37B] / 2 % 2 == 1);
              MountOf(file) == if Le16(file, 0x37C) == 0 then Final(Mounted, [])
                               else Listing(pkg, file, Le24(file, 0x37E), Le16(file, 0x37C), [])
  {
    hide Listing, Ascii, E.Be32, Le16, Le24, IsPackage, HeaderPackage, TableBlocks, TableStart;
    if |file| >= 0x971A {
      HeaderOf(file);
      KindSays(file[..HEADER_STRUCT_SIZE]);
    }
  }

  // ---- whole packages ----

  /** A printed package: header, volume, and a file table whose blocks hold these lists of records. */
  ghost predicate IsPrinted(h: Header, vol: Volume, n: nat, lists: seq<seq<Listed>>, pkg: E.Package, file: seq<byte>) {
    && GoodHeader(h) && pkg.headerSize == h.headerSize
    && IsImage(vol, PrintHeader(h, vol), n, pkg, file) && |file| >= HEADER_STRUCT_SIZE
    && HoldsLists(vol, TableChain(vol, h.tableStart, h.tableBlocks), lists) && |Flat(lists)| <= 2048
  }

  /** A header that reads so leads to the listing. */
  lemma MountLists(file: seq<byte>, pkg: E.Package, start: nat, blocks: nat)
    requires |file| >= HEADER_STRUCT_SIZE
    requires var bytes := file[..HEADER_STRUCT_SIZE];
             && IsPackage(bytes) && bytes[0x379] == VOLUME_DESCRIPTOR_SIZE && E.Be32(bytes, 0x3A9) == 0
             && TableBlocks(bytes) == blocks && TableStart(bytes) == start && HeaderPackage(|file|, bytes) == pkg
    requires 0x344 <= pkg.headerSize <= |file| && 0 < blocks && start < pkg.totalBlocks
    ensures MountOf(file) == Listing(pkg, file, start, blocks, [])
  {
    hide Listing, E.Be32, TableBlocks, TableStart, HeaderPackage, IsPackage;
  }

  lemma HeaderOfImage(h: Header, vol: Volume, n: nat, pkg: E.Package, file: seq<byte>)
    requires GoodHeader(h) && pkg.headerSize == h.headerSize && |file| >= HEADER_STRUCT_SIZE
    requires IsImage(vol, PrintHeader(h, vol), n, pkg, file)
    ensures file[..HEADER_STRUCT_SIZE][..0x3AD] == PrintHeader(h, vol)[..0x3AD]
    ensures pkg == E.Package(|file|, h.headerSize, vol.total, vol.readOnly, vol.rootSecond) && h.headerSize <= |file|
  {
    hide PrintHeader, Blocks, DataBlock;
  }

  /** The mount of a printed package reads its header back and ends with the printed records. */
  lemma MountIsPrinted(h: Header, vol: Volume, n: nat, lists: seq<seq<Listed>>, pkg: E.Package, file: seq<byte>)
    requires IsPrinted(h, vol, n, lists, pkg, file)
    ensures HeaderPackage(|file|, file[..HEADER_STRUCT_SIZE]) == pkg && AllGood(Flat(lists))
    ensures MountOf(file)
            == Finished(pkg, RecordsFor(Flat(lists)), if |lists| == h.tableBlocks then Mounted else MountedPartial)
  {
    HeaderOfImage(h, vol, n, pkg, file);
    TableSplits(vol, h.tableStart, h.tableBlocks, lists, []);
    assert [] + RecordsFor(Flat(lists)) == RecordsFor(Flat(lists));
    assert h.headerSize >= 0x344 && vol.total <= PER_L2;
    hide *;
    ReadsHeader(file[..HEADER_STRUCT_SIZE], h, vol, |file|);
    MountLists(file, pkg, h.tableStart, h.tableBlocks);
    ListingIsPrinted(vol, PrintHeader(h, vol), n, pkg, file, h.tableStart, h.tableBlocks, lists, []);
  }

  /** The last file of that name, in whatever letters, in the root. */
  ghost predicate IsTitle(ls: seq<Listed>, d: nat) {
    && d < |ls| && IsNamedSo(ls[d]) && forall k :: d < k < |ls| ==> !IsNamedSo(ls[k])
  }

  /** Spelled like default.xex, letters of either case, directly in the root and not a directory. */
  ghost predicate IsNamedSo(l: Listed) {
    && !l.directory && l.parent == 0xFFFF && |l.name| == 11
    && forall i :: 0 <= i < 11 ==> l.name[i] == Ascii("default.xex")[i] || l.name[i] == Ascii("DEFAULT.XEX")[i]
  }

  lemma NamedSo(l: Listed)
    requires GoodListed(l)
    ensures IsDefaultXex(RecordOf(l)) <==> IsNamedSo(l)
  {
    FlagsSay(l);
    assert Ascii("default.xex") == DEFAULT_XEX;
    assert Ascii("DEFAULT.XEX") == [0x44, 0x45, 0x46, 0x41, 0x55, 0x4C, 0x54, 0x2E, 0x58, 0x45, 0x58];
    hide FlagsOf, Ascii;
  }

  lemma NamesAlike(ls: seq<Listed>)
    requires AllGood(ls)
    ensures forall k :: 0 <= k < |ls| ==> (IsDefaultXex(RecordsFor(ls)[k]) <==> IsNamedSo(ls[k]))
  {
    hide IsDefaultXex, IsNamedSo, RecordOf, GoodListed, RecordsFor;
    forall k | 0 <= k < |ls|
      ensures IsDefaultXex(RecordsFor(ls)[k]) <==> IsNamedSo(ls[k])
    {
      assert ls[k] in ls;
      NamedSo(ls[k]);
    }
  }

  /** The mount finds the title, and none when no record is named so. */
  lemma TitleIsFound(ls: seq<Listed>)
    requires AllGood(ls)
    ensures var t := DefaultIn(RecordsFor(ls));
            if t.Some? then IsTitle(ls, t.value) else forall k :: 0 <= k < |ls| ==> !IsNamedSo(ls[k])
  {
    NamesAlike(ls);
    DefaultIsListed(RecordsFor(ls));
    hide IsDefaultXex, IsNamedSo, RecordOf, GoodListed, RecordsFor, DefaultIn;
  }

  lemma OneTitle(ls: seq<Listed>, d: nat, e: nat)
    requires IsTitle(ls, d) && IsTitle(ls, e)
    ensures d == e
  {
    hide IsNamedSo;
  }

  /** A title can be probed when its first block is in the volume. */
  lemma ProbeIsInFile(h: Header, vol: Volume, n: nat, pkg: E.Package, file: seq<byte>, entries: seq<Record>, status: Status)
    requires GoodHeader(h) && IsImage(vol, PrintHeader(h, vol), n, pkg, file)
    requires DefaultIn(entries).Some? && DefaultIn(entries).value < |entries|
    requires entries[DefaultIn(entries).value].length > 0 ==> entries[DefaultIn(entries).value].startBlock < vol.total
    ensures Finished(pkg, entries, status) == Final(status, entries)
  {
    var r := entries[DefaultIn(entries).value];
    hide DefaultIn, PrintHeader, E.DataOffset, Blocks, DataBlock, IsDirectory;
    if r.length > 0 {
      DataIsThere(vol, PrintHeader(h, vol), n, pkg, file, r.startBlock);
    }
  }

  lemma DefaultOfFinal(status: Status, rs: seq<Record>, d: nat)
    requires EndsMounted(Final(status, rs)) && DefaultIn(rs) == Some(d) && d < |rs|
    ensures DefaultOf(Final(status, rs)) == Some(rs[d])
  {
    hide DefaultIn;
  }

  lemma TitleIsDefault(ls: seq<Listed>, d: nat)
    requires AllGood(ls) && IsTitle(ls, d)
    ensures ls[d] in ls && DefaultIn(RecordsFor(ls)) == Some(d) && RecordsFor(ls)[d] == RecordOf(ls[d])
  {
    TitleIsFound(ls);
    hide IsNamedSo, RecordOf, GoodListed, RecordsFor, DefaultIn;
    if DefaultIn(RecordsFor(ls)).Some? {
      OneTitle(ls, d, DefaultIn(RecordsFor(ls)).value);
    }
  }

  /** The mount of a printed package picks the title, if its first block is in the volume. */
  lemma TitleIsPicked(h: Header, vol: Volume, n: nat, lists: seq<seq<Listed>>, pkg: E.Package, file: seq<byte>, d: nat)
    requires IsPrinted(h, vol, n, lists, pkg, file) && IsTitle(Flat(lists), d)
    requires Flat(lists)[d].length > 0 ==> Flat(lists)[d].startBlock < vol.total
    ensures AllGood(Flat(lists)) && Flat(lists)[d] in Flat(lists)
    ensures MountOf(file) == Final(if |lists| == h.tableBlocks then Mounted else MountedPartial, RecordsFor(Flat(lists)))
    ensures DefaultOf(MountOf(file)) == Some(RecordOf(Flat(lists)[d]))
  {
    MountIsPrinted(h, vol, n, lists, pkg, file);
    TitleIsDefault(Flat(lists), d);
    var l, rs := Flat(lists)[d], RecordsFor(Flat(lists));
    var status := if |lists| == h.tableBlocks then Mounted else MountedPartial;
    assert RecordOf(l).length == l.length && RecordOf(l).startBlock == l.startBlock && EndsMounted(Final(status, rs));
    assert GoodHeader(h) && IsImage(vol, PrintHeader(h, vol), n, pkg, file);
    hide *;
    ProbeIsInFile(h, vol, n, pkg, file, rs, status);
    DefaultOfFinal(status, rs, d);
  }

  /** A chain that holds for a title, with the numbers of blocks its record announces. */
  ghost predicate Holds(vol: Volume, l: Listed, chain: seq<nat>) {
    && chain == ChainFrom(vol, l.contiguous, l.startBlock, (l.length + 0xFFF) / 0x1000) && GoodChain(vol, chain)
    && (l.validBlocks == 0 || |chain| <= l.validBlocks) && (l.allocatedBlocks == 0 || |chain| <= l.allocatedBlocks)
  }

  lemma HeldFile(h: Header, vol: Volume, n: nat, pkg: E.Package, file: seq<byte>, l: Listed, chain: seq<nat>)
    requires GoodHeader(h) && IsImage(vol, PrintHeader(h, vol), n, pkg, file)
    requires GoodListed(l) && Holds(vol, l, chain) && !l.directory
    ensures l.length <= |Joined(vol, chain)| && (l.length > 0 ==> l.startBlock < vol.total)
    ensures C.FileContents(pkg, EntryOf(RecordOf(l)), file) == Some(Joined(vol, chain)[..l.length])
  {
    hide GoodHeader, IsImage, PrintHeader, GoodListed;
    FlagsSay(l);
    assert l.length > 0 ==> chain != [] && chain[0] == l.startBlock;
    var e := EntryOf(RecordOf(l));
    assert e == E.Entry(l.directory, l.contiguous, l.validBlocks, l.allocatedBlocks, l.startBlock, l.length);
    hide Joined, ChainFrom, C.FileContents, EntryOf, RecordOf;
    FileIsPrinted(vol, PrintHeader(h, vol), n, pkg, file, e);
  }

  /**
   From bytes to bytes: of a printed package whose title's chain holds, the mount lists what was printed
   and picks the title, and the title's contents are the bytes of its blocks, joined and cut to its length.
   */
  lemma PrintedTitleIsRead(
    h: Header, vol: Volume, n: nat, lists: seq<seq<Listed>>, pkg: E.Package, file: seq<byte>, d: nat, chain: seq<nat>)
    requires IsPrinted(h, vol, n, lists, pkg, file) && IsTitle(Flat(lists), d) && Holds(vol, Flat(lists)[d], chain)
    ensures var l := Flat(lists)[d];
            && AllGood(Flat(lists)) && l in Flat(lists)
            && MountOf(file) == Final(if |lists| == h.tableBlocks then Mounted else MountedPartial, RecordsFor(Flat(lists)))
            && DefaultOf(MountOf(file)) == Some(RecordOf(l))
            && l.length <= |Joined(vol, chain)|
            && C.FileContents(pkg, EntryOf(RecordOf(l)), file) == Some(Joined(vol, chain)[..l.length])
  {
    MountIsPrinted(h, vol, n, lists, pkg, file);
    assert GoodHeader(h) && IsImage(vol, PrintHeader(h, vol), n, pkg, file);
    assert !Flat(lists)[d].directory;
    TitleIsDefault(Flat(lists), d);
    assert GoodListed(Flat(lists)[d]);
    hide *;
    HeldFile(h, vol, n, pkg, file, Flat(lists)[d], chain);
    TitleIsPicked(h, vol, n, lists, pkg, file, d);
  }
}
