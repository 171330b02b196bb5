/**
 An STFS package from the side that writes it: a volume says what every block holds, which copy of
 every hash table is current and which block follows which, and is printed block after block. Whatever
 the hashes, the unused bits and the stale copies are, the reader finds the written successors and
 files.
 */
module StfsVolume {
  import opened Options
  import opened LittleEndian
  import opened StfsLayout
  import opened StfsExtraction
  import opened StfsContents

  function Zeros(n: nat): (r: seq<byte>)
    ensures |r| == n
  {
    seq(n, _ => 0)
  }

  type Block = b: seq<byte> | |b| == BLOCK_SIZE witness Zeros(BLOCK_SIZE)
  type Hash = b: seq<byte> | |b| == 20 witness Zeros(20)
  type Number = n: nat | n < BLOCK_LIMIT

  /** hash, status and unused are what an entry of a table holds besides what is said by the rest. */
  datatype Volume = Volume(
    readOnly: bool,
    total: nat,
    rootSecond: bool,
    second0: nat -> bool,
    second1: nat -> bool,
    next: nat -> Number,
    data: nat -> Block,
    hash: (Owner, nat) -> Hash,
    status: (Owner, nat) -> byte,
    unused: (Owner, nat) -> Number,
    stale: Owner -> Block)

  ghost predicate GoodVolume(vol: Volume) {
    0 < vol.total <= PER_L2
  }

  function TablesOf(vol: Volume): (b: nat)
    ensures GoodCopies(b)
  {
    if vol.readOnly then 1 else 2
  }

  // ---- the tables ----

  /** The lowest level with a single table: 170 entries each, of blocks, of tables, of tables of tables. */
  function TopLevel(vol: Volume): nat {
    if vol.total <= 170 then 0 else if vol.total <= 170 * 170 then 1 else 2
  }

  /** Which copy of a table is current: the descriptor says it of the top table, the table above of any other. */
  function Current(vol: Volume, level: nat, table: nat): nat {
    if vol.readOnly then 0
    else if level >= TopLevel(vol) then if vol.rootSecond then 1 else 0
    else if level == 0 then if vol.second0(table) then 1 else 0
    else if vol.second1(table) then 1 else 0
  }

  /** How far behind the first copy of a table the current one is. */
  function CurrentOffset(vol: Volume, level: nat, table: nat): nat {
    Current(vol, level, table) * 0x1000
  }

  function Table(level: nat, table: nat, copy: nat): Owner {
    if level == 0 then Table0(table, copy) else if level == 1 then Table1(table, copy) else Table2(copy)
  }

  /** A byte with its second highest bit set or cleared. */
  function WithBit6(b: byte, on: bool): byte {
    b / 128 * 128 + (if on then 64 else 0) + b % 64
  }

  function PrintHashEntry(hash: Hash, status: byte, low: Number): (r: seq<byte>)
    ensures |r| == 24
  {
    hash + [status, low / 0x1_0000, low / 0x100 % 0x100, low % 0x100]
  }

  /** The k-th entry of a table: of a block, its successor; of a table, which copy is current. */
  function EntryBytes(vol: Volume, level: nat, table: nat, k: nat): (r: seq<byte>)
    ensures |r| == 24
  {
    var o := Table(level, table, Current(vol, level, table));
    if level == 0 then PrintHashEntry(vol.hash(o, k), vol.status(o, k), vol.next(table * 170 + k))
    else
      PrintHashEntry(vol.hash(o, k), WithBit6(vol.status(o, k), Current(vol, level - 1, table * 170 + k) == 1),
                     vol.unused(o, k))
  }

  function Entries(vol: Volume, level: nat, table: nat, n: nat): (r: seq<byte>)
    ensures |r| == 24 * n
  {
    if n == 0 then [] else Entries(vol, level, table, n - 1) + EntryBytes(vol, level, table, n - 1)
  }

  function TableBytes(vol: Volume, level: nat, table: nat): (r: Block) {
    Entries(vol, level, table, 170) + Zeros(16)
  }

  // ---- the image ----

  function BlockBytes(vol: Volume, o: Owner): Block {
    match o
    case Data(i) => vol.data(i)
    case Table0(j, c) => if c == Current(vol, 0, j) then TableBytes(vol, 0, j) else vol.stale(o)
    case Table1(g, c) => if c == Current(vol, 1, g) then TableBytes(vol, 1, g) else vol.stale(o)
    case Table2(c) => if c == Current(vol, 2, 0) then TableBytes(vol, 2, 0) else vol.stale(o)
  }

  function Blocks(vol: Volume, n: nat): (r: seq<byte>)
    ensures |r| == n * BLOCK_SIZE
  {
    if n == 0 then [] else Blocks(vol, n - 1) + BlockBytes(vol, OwnerOf(n - 1, TablesOf(vol)))
  }

  /** A package: the header, filled up to a whole number of blocks, and n blocks, the last data block among them. */
  ghost predicate IsImage(vol: Volume, head: seq<byte>, n: nat, pkg: Package, file: seq<byte>) {
    && GoodVolume(vol)
    && file == head + Blocks(vol, n)
    && DataBlock(vol.total - 1, TablesOf(vol)) < n <= TotalBlocks(TablesOf(vol))
    && |head| % BLOCK_SIZE == 0 && pkg.headerSize <= |head| < pkg.headerSize + BLOCK_SIZE
    && pkg == Package(|file|, pkg.headerSize, vol.total, vol.readOnly, vol.rootSecond)
  }

  lemma {:induction false} EntryOfTable(vol: Volume, level: nat, table: nat, k: nat, n: nat)
    requires k < n
    ensures Entries(vol, level, table, n)[24 * k..24 * k + 24] == EntryBytes(vol, level, table, k)
  {
    hide EntryBytes;
    if k < n - 1 {
      EntryOfTable(vol, level, table, k, n - 1);
    }
  }

  lemma {:induction false} BlockOfImage(vol: Volume, k: nat, n: nat)
    requires k < n
    ensures BLOCK_SIZE * k + BLOCK_SIZE <= |Blocks(vol, n)|
    ensures Blocks(vol, n)[BLOCK_SIZE * k..BLOCK_SIZE * k + BLOCK_SIZE] == BlockBytes(vol, OwnerOf(k, TablesOf(vol)))
  {
    hide BlockBytes, OwnerOf;
    if k < n - 1 {
      BlockOfImage(vol, k, n - 1);
    }
  }

  lemma RoundsUp(headerSize: nat, at: nat)
    requires at % BLOCK_SIZE == 0 && headerSize <= at < headerSize + BLOCK_SIZE
    ensures RoundUpBlock(headerSize) == at
  {
  }

  lemma SliceBehind(head: seq<byte>, blocks: seq<byte>, at: nat, n: nat)
    requires at + n <= |blocks|
    ensures (head + blocks)[|head| + at..|head| + at + n] == blocks[at..at + n]
  {
  }

  /** Whatever owns a block of the image can be read where the layout puts it. */
  lemma OwnerIsThere(vol: Volume, head: seq<byte>, n: nat, pkg: Package, file: seq<byte>, o: Owner)
    requires IsImage(vol, head, n, pkg, file) && IsOwner(o, TablesOf(vol)) && Place(o, TablesOf(vol)) < n
    ensures var at := RoundUpBlock(pkg.headerSize) + Place(o, TablesOf(vol)) * BLOCK_SIZE;
            InFile(pkg, at, BLOCK_SIZE) && file[at..at + BLOCK_SIZE] == BlockBytes(vol, o)
  {
    hide BlockBytes, Place, OwnerOf, RoundUpBlock, TotalBlocks;
    var b := TablesOf(vol);
    var k := Place(o, b);
    RoundsUp(pkg.headerSize, |head|);
    OwnerOfPlace(o, b);
    BlockOfImage(vol, k, n);
    SliceBehind(head, Blocks(vol, n), BLOCK_SIZE * k, BLOCK_SIZE);
  }

  // ---- every table is in the image ----

  lemma DataBlockGrows(i: nat, j: nat, b: nat)
    requires GoodCopies(b) && i <= j
    ensures DataBlock(i, b) <= DataBlock(j, b)
  {
    assert i / PER_L0 <= j / PER_L0 && i / PER_L1 <= j / PER_L1 && i / PER_L2 <= j / PER_L2;
  }

  lemma UpperTablesComeFirst(i: nat, level: nat, copy: nat, b: nat)
    requires GoodCopies(b) && copy < b && i < PER_L2
    ensures level == 1 && i < PER_L1 ==> HashBlock(i, level, b) + copy < DataBlock(PER_L0, b)
    ensures level == 1 && i >= PER_L1 ==> HashBlock(i, level, b) + copy < DataBlock(i, b)
    ensures level == 2 ==> HashBlock(i, level, b) + copy < DataBlock(PER_L1, b)
  {
    var t, g := i / PER_L0, i / PER_L1;
    assert t >= PER_L0 * g;
    DataFollowsItsTable(i, b);
    DataFollowsItsTable(PER_L0, b);
    DataFollowsItsTable(PER_L1, b);
  }

  /** A table that a block needs lies before the last block of the volume. */
  lemma TablesAreWithin(vol: Volume, i: nat, level: nat, copy: nat)
    requires GoodVolume(vol) && i < vol.total && level <= TopLevel(vol) && copy < TablesOf(vol)
    ensures HashBlock(i, level, TablesOf(vol)) + copy <= DataBlock(vol.total - 1, TablesOf(vol))
  {
    hide DataBlock, HashBlock;
    var b, last := TablesOf(vol), vol.total - 1;
    DataBlockGrows(i, last, b);
    if level == 0 {
      DataFollowsItsTable(i, b);
    } else {
      UpperTablesComeFirst(i, level, copy, b);
      DataBlockGrows(if level == 1 then PER_L0 else PER_L1, last, b);
    }
  }

  // ---- reading a table back ----

  /** Which table of its level speaks for block i, and which entry of it. */
  function TableIndex(i: nat, level: nat): nat {
    if level == 0 then i / 170 else if level == 1 then i / (170 * 170) else 0
  }

  function EntryIndex(i: nat, level: nat): nat {
    if level == 0 then i % 170 else if level == 1 then i / 170 % 170 else i / (170 * 170)
  }

  lemma BlockIsTable(vol: Volume, level: nat, table: nat)
    requires level <= 2 && (level == 2 ==> table == 0)
    ensures BlockBytes(vol, Table(level, table, Current(vol, level, table))) == TableBytes(vol, level, table)
  {
    hide TableBytes, Current;
  }

  lemma CopyOffset(pkg: Package, i: nat, level: nat, copy: nat)
    ensures HashOffset(pkg, i, level) + copy * 0x1000
            == RoundUpBlock(pkg.headerSize) + (HashBlock(i, level, Copies(pkg)) + copy) * BLOCK_SIZE
  {
    hide HashBlock, RoundUpBlock, Copies;
  }

  /** The current copy of a block's table, as one of the owners the layout places. */
  lemma CurrentTable(vol: Volume, n: nat, i: nat, level: nat)
    requires GoodVolume(vol) && DataBlock(vol.total - 1, TablesOf(vol)) < n && i < vol.total && level <= TopLevel(vol)
    ensures var copy := Current(vol, level, TableIndex(i, level));
            var o := Table(level, TableIndex(i, level), copy);
            && IsOwner(o, TablesOf(vol)) && Place(o, TablesOf(vol)) == HashBlock(i, level, TablesOf(vol)) + copy < n
            && BlockBytes(vol, o) == TableBytes(vol, level, TableIndex(i, level))
  {
    var table := TableIndex(i, level);
    var copy := Current(vol, level, table);
    PlaceOfTableFor(i, level, copy, TablesOf(vol));
    TablesAreWithin(vol, i, level, copy);
    assert TableFor(i, level, copy) == Table(level, table, copy);
    hide Place, DataBlock, HashBlock, BlockBytes, TableBytes, Current, TableIndex, Table, TableFor, TopLevel, IsOwner;
    BlockIsTable(vol, level, table);
  }

  lemma TableIsThere(vol: Volume, head: seq<byte>, n: nat, pkg: Package, file: seq<byte>, i: nat, level: nat)
    requires IsImage(vol, head, n, pkg, file) && i < vol.total && level <= TopLevel(vol)
    ensures var at := HashOffset(pkg, i, level) + CurrentOffset(vol, level, TableIndex(i, level));
            InFile(pkg, at, BLOCK_SIZE) && file[at..at + BLOCK_SIZE] == TableBytes(vol, level, TableIndex(i, level))
  {
    var table := TableIndex(i, level);
    var copy := Current(vol, level, table);
    CopyOffset(pkg, i, level, copy);
    CurrentTable(vol, n, i, level);
    assert Copies(pkg) == TablesOf(vol) && CurrentOffset(vol, level, table) == copy * 0x1000;
    hide *;
    OwnerIsThere(vol, head, n, pkg, file, Table(level, table, copy));
  }

  /** Where the reader looks for a block's entry, the block's entry is. */
  lemma EntryIsThere(vol: Volume, head: seq<byte>, n: nat, pkg: Package, file: seq<byte>, i: nat, level: nat)
    requires IsImage(vol, head, n, pkg, file) && i < vol.total && level <= TopLevel(vol)
    ensures EntryIndex(i, level) < 170
    ensures var at := HashOffset(pkg, i, level) + CurrentOffset(vol, level, TableIndex(i, level));
            var k := 24 * EntryIndex(i, level);
            && InFile(pkg, at, BLOCK_SIZE)
            && file[at..at + BLOCK_SIZE][k..k + 24] == EntryBytes(vol, level, TableIndex(i, level), EntryIndex(i, level))
  {
    assert i / (170 * 170) < 170;
    hide HashOffset, EntryBytes, CurrentOffset, Blocks, TableIndex;
    TableIsThere(vol, head, n, pkg, file, i, level);
    EntryOfTable(vol, level, TableIndex(i, level), EntryIndex(i, level), 170);
  }

  lemma WordOfEntry(hash: Hash, status: byte, low: Number)
    ensures var info := Be32(PrintHashEntry(hash, status, low), HASH_INFO_AT);
            && info == status * 0x100_0000 + low
            && NextInChain(info) == low
            && ActiveOffset(info) == if status / 64 % 2 == 1 then BLOCK_SIZE else 0
  {
    var info: nat := status * 0x100_0000 + low;
    assert low == low / 0x1_0000 * 0x1_0000 + low / 0x100 % 0x100 * 0x100 + low % 0x100;
    assert info / 0x4000_0000 == status / 64;
  }

  /** Entries number the tables, or blocks, of the level below in order. */
  lemma IndexBelow(i: nat, level: nat)
    requires i < PER_L2 && level <= 2
    ensures TableIndex(i, level) * 170 + EntryIndex(i, level) == if level == 0 then i else TableIndex(i, level - 1)
    ensures Record(i, level) == EntryIndex(i, level)
  {
    var t := i / 170;
    assert t / 170 == i / (170 * 170);
    assert t == t / 170 * 170 + t % 170;
  }

  lemma WordInFile(file: seq<byte>, at: nat, k: nat, entry: seq<byte>)
    requires at + BLOCK_SIZE <= |file| && k + 24 <= BLOCK_SIZE && |entry| == 24
    requires file[at..at + BLOCK_SIZE][k..k + 24] == entry
    ensures Be32(file, at + k + HASH_INFO_AT) == Be32(entry, HASH_INFO_AT)
  {
    var slice := file[at..at + BLOCK_SIZE][k..k + 24];
    assert forall j :: 0 <= j < 24 ==> slice[j] == file[at + k + j];
  }

  /** What the word of a block's entry says, taken apart. */
  lemma EntrySays(vol: Volume, i: nat, level: nat)
    requires i < PER_L2 && level <= 2
    ensures var info := Be32(EntryBytes(vol, level, TableIndex(i, level), EntryIndex(i, level)), HASH_INFO_AT);
            if level == 0 then NextInChain(info) == vol.next(i)
            else ActiveOffset(info) == CurrentOffset(vol, level - 1, TableIndex(i, level - 1))
  {
    IndexBelow(i, level);
    var table, k := TableIndex(i, level), EntryIndex(i, level);
    var o := Table(level, table, Current(vol, level, table));
    hide TableIndex, EntryIndex, Record, Be32, PrintHashEntry, NextInChain, ActiveOffset, Table;
    if level == 0 {
      WordOfEntry(vol.hash(o, k), vol.status(o, k), vol.next(i));
    } else {
      WordOfEntry(vol.hash(o, k), WithBit6(vol.status(o, k), Current(vol, level - 1, TableIndex(i, level - 1)) == 1),
                  vol.unused(o, k));
    }
  }

  /** Where the reader finds the word of a block's entry, in the copy so far behind the first. */
  function WordAt(pkg: Package, i: nat, level: nat, second: nat): nat {
    HashOffset(pkg, i, level) + second + Record(i, level) * HASH_ENTRY_SIZE + HASH_INFO_AT
  }

  /** What the reader takes from the table of a level. */
  lemma WordIsThere(vol: Volume, head: seq<byte>, n: nat, pkg: Package, file: seq<byte>, i: nat, level: nat)
    requires IsImage(vol, head, n, pkg, file) && i < vol.total && level <= TopLevel(vol)
    ensures var second := CurrentOffset(vol, level, TableIndex(i, level));
            && InFile(pkg, HashOffset(pkg, i, level) + second, BLOCK_SIZE) && WordAt(pkg, i, level, second) + 4 <= |file|
            && (level > 0 ==> ActiveOffset(Be32(file, WordAt(pkg, i, level, second)))
                              == CurrentOffset(vol, level - 1, TableIndex(i, level - 1)))
            && (level == 0 ==> NextInChain(Be32(file, WordAt(pkg, i, level, second))) == vol.next(i))
  {
    var table, k := TableIndex(i, level), EntryIndex(i, level);
    var at := HashOffset(pkg, i, level) + CurrentOffset(vol, level, table);
    assert i < PER_L2 && level <= 2 && |file| == pkg.fileSize;
    hide HashOffset, Be32, TableIndex, EntryIndex, Record, NextInChain, ActiveOffset, CurrentOffset, EntryBytes, IsImage;
    EntryIsThere(vol, head, n, pkg, file, i, level);
    IndexBelow(i, level);
    EntrySays(vol, i, level);
    assert WordAt(pkg, i, level, CurrentOffset(vol, level, table)) == at + 24 * k + HASH_INFO_AT;
    assert InFile(pkg, at, BLOCK_SIZE) && at + BLOCK_SIZE <= |file|;
    hide *;
    WordInFile(file, at, 24 * k, EntryBytes(vol, level, table, k));
  }

  lemma ResolveOnce(pkg: Package, file: seq<byte>, i: nat, level: nat, second: nat)
    requires |file| == pkg.fileSize && level <= 2 && InFile(pkg, HashOffset(pkg, i, level) + second, BLOCK_SIZE)
    requires WordAt(pkg, i, level, second) + 4 <= |file|
    ensures var word := Be32(file, WordAt(pkg, i, level, second));
            Resolve(pkg, file, i, level, second)
            == if level > 0 then Resolve(pkg, file, i, level - 1, ActiveOffset(word))
               else if NextInChain(word) == END_OF_CHAIN then None
               else Some(NextInChain(word))
  {
    hide HashOffset, Be32, Record, ActiveOffset, NextInChain;
  }

  lemma {:induction false} ResolveFromLevel(
    vol: Volume, head: seq<byte>, n: nat, pkg: Package, file: seq<byte>, i: nat, level: nat)
    requires IsImage(vol, head, n, pkg, file) && i < vol.total && level <= TopLevel(vol)
    ensures Resolve(pkg, file, i, level, CurrentOffset(vol, level, TableIndex(i, level)))
            == if vol.next(i) == END_OF_CHAIN then None else Some(vol.next(i))
    decreases level
  {
    assert |file| == pkg.fileSize && level <= 2;
    hide *;
    WordIsThere(vol, head, n, pkg, file, i, level);
    ResolveOnce(pkg, file, i, level, CurrentOffset(vol, level, TableIndex(i, level)));
    if level > 0 {
      ResolveFromLevel(vol, head, n, pkg, file, i, level - 1);
    }
  }

  /**
   The reader resolves every block of the volume to its written successor, whichever copies of the
   tables are current and whatever the others hold.
   */
  lemma ResolvesToNext(vol: Volume, head: seq<byte>, n: nat, pkg: Package, file: seq<byte>, i: nat)
    requires IsImage(vol, head, n, pkg, file) && i < vol.total
    ensures Resolve(pkg, file, i, FirstLevel(pkg), if !pkg.readOnly && pkg.rootSecond then BLOCK_SIZE else 0)
            == if vol.next(i) == 0xFF_FFFF then None else Some(vol.next(i))
  {
    ResolveFromLevel(vol, head, n, pkg, file, i, FirstLevel(pkg));
  }

  /** And finds the block's bytes where it looks for them. */
  lemma DataIsThere(vol: Volume, head: seq<byte>, n: nat, pkg: Package, file: seq<byte>, i: nat)
    requires IsImage(vol, head, n, pkg, file) && i < vol.total
    ensures InFile(pkg, DataOffset(pkg, i), BLOCK_SIZE)
    ensures file[DataOffset(pkg, i)..DataOffset(pkg, i) + BLOCK_SIZE] == vol.data(i)
  {
    DataBlockGrows(i, vol.total - 1, TablesOf(vol));
    hide DataBlock, HashBlock, RoundUpBlock;
    OwnerIsThere(vol, head, n, pkg, file, Data(i));
  }

  // ---- files ----

  /** n blocks from a start on: neighbours, or each the written successor of the one before. */
  function ChainFrom(vol: Volume, contiguous: bool, start: nat, n: nat): (r: seq<nat>)
    ensures |r| == n
    decreases n
  {
    if n == 0 then []
    else [start] + ChainFrom(vol, contiguous, if contiguous then start + 1 else vol.next(start), n - 1)
  }

  /** All of the volume, and none twice. */
  ghost predicate GoodChain(vol: Volume, chain: seq<nat>) {
    && (forall k :: 0 <= k < |chain| ==> chain[k] < vol.total)
    && (forall j, k :: 0 <= j < k < |chain| ==> chain[j] != chain[k])
  }

  function Joined(vol: Volume, chain: seq<nat>): (r: seq<byte>)
    ensures |r| == |chain| * BLOCK_SIZE
  {
    if chain == [] then [] else vol.data(chain[0]) + Joined(vol, chain[1..])
  }

  /** A chain that may follow blocks already seen. */
  ghost predicate GoodAfter(vol: Volume, chain: seq<nat>, seen: set<nat>) {
    GoodChain(vol, chain) && forall k :: 0 <= k < |chain| ==> chain[k] !in seen
  }

  lemma GoodFirst(vol: Volume, chain: seq<nat>, seen: set<nat>)
    requires chain != []
    ensures GoodAfter(vol, chain, seen) <==>
              chain[0] < vol.total && chain[0] !in seen && GoodAfter(vol, chain[1..], seen + {chain[0]})
  {
    var rest := chain[1..];
    assert forall k :: 0 <= k < |rest| ==> rest[k] == chain[k + 1];
    if GoodAfter(vol, rest, seen + {chain[0]}) && chain[0] < vol.total && chain[0] !in seen {
      forall k | 0 <= k < |chain|
        ensures chain[k] < vol.total && chain[k] !in seen && (k > 0 ==> chain[k] != chain[0])
      {
        assert k > 0 ==> chain[k] == rest[k - 1];
      }
      forall j, k | 0 <= j < k < |chain|
        ensures chain[j] != chain[k]
      {
        assert chain[k] == rest[k - 1] && (j > 0 ==> chain[j] == rest[j - 1]);
      }
    }
    if GoodAfter(vol, chain, seen) {
      assert forall k :: 0 <= k < |rest| ==> rest[k] != chain[0];
    }
  }

  /** The successor of a block is the next one of its chain, if that may be entered. */
  lemma SuccessorIsNext(
    vol: Volume, head: seq<byte>, n: nat, pkg: Package, file: seq<byte>, contiguous: bool, i: nat, seen: set<nat>)
    requires IsImage(vol, head, n, pkg, file) && i < vol.total
    ensures Successor(pkg, file, contiguous, i, seen) ==
            var next: nat := if contiguous then i + 1 else vol.next(i);
            if next < vol.total && next !in seen then Some(next) else None
  {
    ResolvesToNext(vol, head, n, pkg, file, i);
    hide Resolve, Blocks, FirstLevel;
  }

  lemma OneBlockFewer(bytes: nat)
    requires bytes > BLOCK_SIZE
    ensures CeilBlocks(bytes) == CeilBlocks(bytes - BLOCK_SIZE) + 1 >= 2 && bytes <= CeilBlocks(bytes) * BLOCK_SIZE
  {
  }

  /** Taking one block off the front of what is still to come. */
  lemma OneBlockLess(vol: Volume, contiguous: bool, i: nat, bytes: nat)
    requires bytes > BLOCK_SIZE
    ensures var chain := ChainFrom(vol, contiguous, i, CeilBlocks(bytes));
            var next: nat := if contiguous then i + 1 else vol.next(i);
            && CeilBlocks(bytes) == CeilBlocks(bytes - BLOCK_SIZE) + 1 >= 2
            && chain[0] == i && chain[1..] == ChainFrom(vol, contiguous, next, CeilBlocks(bytes - BLOCK_SIZE))
            && bytes <= |Joined(vol, chain)|
            && Joined(vol, chain)[..bytes] == vol.data(i) + Joined(vol, chain[1..])[..bytes - BLOCK_SIZE]
  {
    OneBlockFewer(bytes);
    hide CeilBlocks;
    var chain := ChainFrom(vol, contiguous, i, CeilBlocks(bytes));
    assert Joined(vol, chain) == vol.data(i) + Joined(vol, chain[1..]);
  }

  lemma OneBlock(vol: Volume, contiguous: bool, i: nat, bytes: nat)
    requires 0 < bytes <= BLOCK_SIZE
    ensures var chain := ChainFrom(vol, contiguous, i, CeilBlocks(bytes));
            chain == [i] && bytes <= |Joined(vol, chain)| && Joined(vol, chain)[..bytes] == vol.data(i)[..bytes]
  {
    assert CeilBlocks(bytes) == 1;
    assert ChainFrom(vol, contiguous, i, 1) == [i];
    assert Joined(vol, [i]) == vol.data(i) + Joined(vol, []);
  }

  lemma LastContents(pkg: Package, file: seq<byte>, length: nat, contiguous: bool, i: nat, done: nat, seen: set<nat>, block: Block)
    requires |file| == pkg.fileSize && done < length <= done + BLOCK_SIZE
    requires InFile(pkg, DataOffset(pkg, i), BLOCK_SIZE)
    requires file[DataOffset(pkg, i)..DataOffset(pkg, i) + BLOCK_SIZE] == block
    ensures Contents(pkg, file, length, contiguous, i, done, seen) == Some(block[..length - done])
  {
    hide DataOffset, Successor;
    var at := DataOffset(pkg, i);
    assert file[at..at + BLOCK_SIZE][..length - done] == file[at..at + (length - done)];
  }

  lemma ContentsOnce(pkg: Package, file: seq<byte>, length: nat, contiguous: bool, i: nat, done: nat, seen: set<nat>, block: Block)
    requires |file| == pkg.fileSize && done + BLOCK_SIZE < length
    requires InFile(pkg, DataOffset(pkg, i), BLOCK_SIZE)
    requires file[DataOffset(pkg, i)..DataOffset(pkg, i) + BLOCK_SIZE] == block
    ensures Contents(pkg, file, length, contiguous, i, done, seen) ==
            match Successor(pkg, file, contiguous, i, seen)
            case None => None
            case Some(next) => Prepend(block, Contents(pkg, file, length, contiguous, next, done + BLOCK_SIZE, seen + {next}))
  {
    hide DataOffset, Successor;
  }

  /** The bytes behind position done, read from the image: those of the chain's blocks, if it is one. */
  lemma {:induction false} ContentsOfChain(
    vol: Volume, head: seq<byte>, n: nat, pkg: Package, file: seq<byte>, length: nat, contiguous: bool, i: nat, done: nat,
    seen: set<nat>)
    requires IsImage(vol, head, n, pkg, file) && i < vol.total && done < length
    ensures var chain := ChainFrom(vol, contiguous, i, CeilBlocks(length - done));
            && chain != [] && length - done <= |Joined(vol, chain)|
            && Contents(pkg, file, length, contiguous, i, done, seen)
               == if GoodAfter(vol, chain[1..], seen) then Some(Joined(vol, chain)[..length - done]) else None
    decreases length - done
  {
    hide Joined, Contents, Blocks, Successor, GoodVolume, DataBlock, TablesOf;
    DataIsThere(vol, head, n, pkg, file, i);
    if length - done <= BLOCK_SIZE {
      assert GoodAfter(vol, [], seen);
      hide DataOffset, GoodAfter;
      LastContents(pkg, file, length, contiguous, i, done, seen, vol.data(i));
      OneBlock(vol, contiguous, i, length - done);
    } else {
      hide DataOffset, GoodAfter, ChainFrom, IsImage, CeilBlocks;
      OneBlockLess(vol, contiguous, i, length - done);
      SuccessorIsNext(vol, head, n, pkg, file, contiguous, i, seen);
      ContentsOnce(pkg, file, length, contiguous, i, done, seen, vol.data(i));
      var chain := ChainFrom(vol, contiguous, i, CeilBlocks(length - done));
      GoodFirst(vol, chain[1..], seen);
      var next: nat := if contiguous then i + 1 else vol.next(i);
      if next < vol.total && next !in seen {
        ContentsOfChain(vol, head, n, pkg, file, length, contiguous, next, done + BLOCK_SIZE, seen + {next});
      }
    }
  }

  lemma {:induction false} UpTo(n: nat) returns (all: set<nat>)
    ensures |all| == n && forall k: nat :: k in all <==> k < n
  {
    all := {};
    if n > 0 {
      var less := UpTo(n - 1);
      all := less + {n - 1};
    }
  }

  lemma {:induction false} DistinctElements(chain: seq<nat>) returns (all: set<nat>)
    requires forall j, k :: 0 <= j < k < |chain| ==> chain[j] != chain[k]
    ensures |all| == |chain| && forall i :: i in all <==> i in chain
  {
    all := {};
    if chain != [] {
      var m := |chain| - 1;
      var less := DistinctElements(chain[..m]);
      assert chain[m] !in chain[..m];
      assert forall i :: i in chain <==> i in chain[..m] || i == chain[m];
      all := less + {chain[m]};
    }
  }

  /** A chain that does not come back has no more blocks than the volume. */
  lemma GoodChainFits(vol: Volume, chain: seq<nat>)
    requires GoodChain(vol, chain)
    ensures |chain| <= vol.total
  {
    var mine := DistinctElements(chain);
    var all := UpTo(vol.total);
    assert mine <= all && mine + (all - mine) == all;
  }

  /**
   A file's contents, read from the image: the blocks of its chain, joined and cut to its length,
   when the chain stays in the volume, does not come back and is no longer than announced; and
   nothing in any other case.
   */
  lemma FileIsPrinted(vol: Volume, head: seq<byte>, n: nat, pkg: Package, file: seq<byte>, e: Entry)
    requires IsImage(vol, head, n, pkg, file)
    ensures var m := (e.length + 0xFFF) / 0x1000;
            var chain := ChainFrom(vol, e.contiguous, e.startBlock, m);
            && e.length <= |Joined(vol, chain)|
            && FileContents(pkg, e, file) ==
               if e.directory then None
               else if e.length == 0 then Some([])
               else if && GoodChain(vol, chain)
                       && (e.validBlocks == 0 || m <= e.validBlocks) && (e.allocatedBlocks == 0 || m <= e.allocatedBlocks)
                    then Some(Joined(vol, chain)[..e.length])
               else None
  {
    hide GoodChain, Blocks, Contents, GoodAfter;
    var m := CeilBlocks(e.length);
    var chain := ChainFrom(vol, e.contiguous, e.startBlock, m);
    assert pkg.totalBlocks == vol.total && e.length <= m * 0x1000;
    hide Joined, ChainFrom, DataBlock;
    if !e.directory && e.length > 0 {
      FirstOfChain(vol, chain, e.startBlock);
      if e.startBlock < vol.total {
        ContentsOfChain(vol, head, n, pkg, file, e.length, e.contiguous, e.startBlock, 0, {e.startBlock});
      }
      if GoodChain(vol, chain) {
        GoodChainFits(vol, chain);
      }
    }
  }

  lemma FirstOfChain(vol: Volume, chain: seq<nat>, start: nat)
    requires chain != [] && chain[0] == start
    ensures GoodChain(vol, chain) <==> start < vol.total && GoodAfter(vol, chain[1..], {start})
  {
    GoodFirst(vol, chain, {});
    assert {} + {start} == {start};
  }
}
