/**
 Extracting one file from an STFS package as package-core.cpp does it: a machine that asks for a
 range of package bytes, is handed them, and asks again. This is the machine as a value;
 StfsExtractor.dfy is the one that updates its fields and its bitset in place.
 */
module StfsExtraction {
  import opened Options
  import opened LittleEndian
  import opened StfsLayout

  const IO_CAPACITY := 0x80_0000
  const BLOCK_LIMIT := 0x100_0000
  const END_OF_CHAIN := 0xFF_FFFF
  const HASH_ENTRY_SIZE := 0x18
  const HASH_INFO_AT := 0x14

  /** What the mount has learned of the package. */
  datatype Package = Package(fileSize: nat, headerSize: nat, totalBlocks: nat, readOnly: bool, rootSecond: bool)

  datatype Entry = Entry(directory: bool, contiguous: bool, validBlocks: nat, allocatedBlocks: nat, startBlock: nat, length: nat)

  datatype Status = Idle | Working | Complete | ErrorEntry | ErrorDirectory | ErrorChain | ErrorShortRead

  datatype Kind = DataBlockRead | HashL2 | HashL1 | HashL0

  datatype Request = Request(offset: nat, size: nat, kind: Kind)

  datatype State = State(
    status: Status,
    current: nat,
    bytesTotal: nat,
    bytesDone: nat,
    blocksDone: nat,
    expected: nat,
    contiguous: bool,
    hashTarget: nat,
    secondary: nat,
    visited: set<nat>,
    request: Option<Request>)

  const IDLE := State(Idle, 0, 0, 0, 0, 0, false, 0, 0, {}, None)

  // ---- addresses ----

  function Copies(pkg: Package): (b: nat)
    ensures b == 1 || b == 2
  {
    if pkg.readOnly then 1 else 2
  }

  function RoundUpBlock(v: nat): nat {
    (v + BLOCK_SIZE - 1) / BLOCK_SIZE * BLOCK_SIZE
  }

  function DataOffset(pkg: Package, block: nat): nat {
    RoundUpBlock(pkg.headerSize) + DataBlock(block, Copies(pkg)) * BLOCK_SIZE
  }

  function HashOffset(pkg: Package, block: nat, level: nat): nat {
    RoundUpBlock(pkg.headerSize) + HashBlock(block, level, Copies(pkg)) * BLOCK_SIZE
  }

  function CeilBlocks(bytes: nat): nat {
    (bytes + BLOCK_SIZE - 1) / BLOCK_SIZE
  }

  // ---- the machine ----

  function Fail(st: State, status: Status): State {
    st.(status := status, request := None)
  }

  predicate InFile(pkg: Package, offset: nat, size: nat) {
    0 < size <= IO_CAPACITY && offset + size <= pkg.fileSize
  }

  function Schedule(pkg: Package, st: State, offset: nat, size: nat, kind: Kind): State {
    if InFile(pkg, offset, size) then st.(status := Working, request := Some(Request(offset, size, kind)))
    else Fail(st, ErrorChain)
  }

  function ScheduleData(pkg: Package, st: State): State {
    if st.bytesDone >= st.bytesTotal then
      if st.bytesDone != st.bytesTotal || st.blocksDone != st.expected then Fail(st, ErrorChain)
      else st.(status := Complete, request := None)
    else
      var remain := st.bytesTotal - st.bytesDone;
      Schedule(pkg, st, DataOffset(pkg, st.current), if remain < BLOCK_SIZE then remain else BLOCK_SIZE, DataBlockRead)
  }

  function ScheduleHash(pkg: Package, st: State, level: nat): State {
    Schedule(pkg, st, HashOffset(pkg, st.hashTarget, level) + st.secondary, BLOCK_SIZE,
             if level == 0 then HashL0 else if level == 1 then HashL1 else HashL2)
  }

  /** Which table a resolution starts with: none above level 0 exists in a package too small for it. */
  function FirstLevel(pkg: Package): nat {
    if pkg.readOnly then 0
    else if pkg.totalBlocks > PER_L1 then 2
    else if pkg.totalBlocks > PER_L0 then 1
    else 0
  }

  function BeginHash(pkg: Package, st: State, block: nat): State {
    if pkg.totalBlocks != 0 && block >= pkg.totalBlocks then Fail(st, ErrorChain)
    else
      ScheduleHash(pkg,
                   st.(hashTarget := block,
                       secondary := if !pkg.readOnly && pkg.rootSecond then BLOCK_SIZE else 0),
                   FirstLevel(pkg))
  }

  function Be32(bytes: seq<byte>, at: nat): nat
    requires at + 4 <= |bytes|
  {
    var a: nat, b: nat, c: nat, d: nat := bytes[at], bytes[at + 1], bytes[at + 2], bytes[at + 3];
    a * 0x100_0000 + b * 0x1_0000 + c * 0x100 + d
  }

  /** stfs_hash_info_at. */
  function HashInfo(bytes: seq<byte>, record: nat): Option<nat> {
    if record >= PER_L0 || record * HASH_ENTRY_SIZE + HASH_INFO_AT + 4 > |bytes| then None
    else Some(Be32(bytes, record * HASH_ENTRY_SIZE + HASH_INFO_AT))
  }

  /** The record of a level's table that speaks for a block. */
  function Record(block: nat, level: nat): nat {
    if level == 2 then block / PER_L1 % PER_L0
    else if level == 1 then block / PER_L0 % PER_L0
    else block % PER_L0
  }

  /** kHashActiveIndexBit: which copy of the next table down is current. */
  function ActiveOffset(info: nat): nat {
    if info / 0x4000_0000 % 2 == 1 then BLOCK_SIZE else 0
  }

  function NextInChain(info: nat): nat {
    info % 0x100_0000
  }

  /** Whether the chain may go on to this block. */
  predicate MayEnter(pkg: Package, visited: set<nat>, block: nat) {
    block < BLOCK_LIMIT && block !in visited && (pkg.totalBlocks == 0 || block < pkg.totalBlocks)
  }

  function EnterBlock(pkg: Package, st: State, block: nat): State {
    ScheduleData(pkg, st.(current := block, visited := st.visited + {block}))
  }

  function ParseUpperHash(pkg: Package, st: State, bytes: seq<byte>, level: nat): State
    requires level == 1 || level == 2
  {
    match HashInfo(bytes, Record(st.hashTarget, level))
    case None => Fail(st, ErrorChain)
    case Some(info) => ScheduleHash(pkg, st.(secondary := ActiveOffset(info)), level - 1)
  }

  function ParseHashL0(pkg: Package, st: State, bytes: seq<byte>): State {
    match HashInfo(bytes, Record(st.hashTarget, 0))
    case None => Fail(st, ErrorChain)
    case Some(info) =>
      var next := NextInChain(info);
      if next == END_OF_CHAIN || !MayEnter(pkg, st.visited, next) then Fail(st, ErrorChain)
      else EnterBlock(pkg, st, next)
  }

  function AcceptData(pkg: Package, st: State, size: nat): State {
    if st.bytesDone + size > st.bytesTotal then Fail(st, ErrorChain)
    else
      var st1 := st.(bytesDone := st.bytesDone + size, blocksDone := st.blocksDone + 1);
      if st1.blocksDone > st1.expected then Fail(st1, ErrorChain)
      else if st1.bytesDone >= st1.bytesTotal then ScheduleData(pkg, st1)
      else if st1.contiguous then
        if MayEnter(pkg, st1.visited, st1.current + 1) then EnterBlock(pkg, st1, st1.current + 1)
        else Fail(st1.(current := st1.current + 1), ErrorChain)
      else BeginHash(pkg, st1, st1.current)
  }

  /** r360_stfs_submit_read, for an extraction request. */
  function Submit(pkg: Package, st: State, bytes: seq<byte>): State {
    match st.request
    case None => st
    case Some(req) =>
      if |bytes| < req.size || |bytes| > IO_CAPACITY then Fail(st, ErrorShortRead)
      else
        var st1 := st.(request := None);
        match req.kind
        case DataBlockRead => AcceptData(pkg, st1, req.size)
        case HashL2 => ParseUpperHash(pkg, st1, bytes, 2)
        case HashL1 => ParseUpperHash(pkg, st1, bytes, 1)
        case HashL0 => ParseHashL0(pkg, st1, bytes)
  }

  /** r360_stfs_extract_begin, on the entry table the mount left. */
  function Begin(pkg: Package, entries: seq<Entry>, index: nat): State {
    if index >= |entries| then IDLE.(status := ErrorEntry)
    else
      var e := entries[index];
      if e.directory then IDLE.(status := ErrorDirectory)
      else
        var st := IDLE.(current := e.startBlock, bytesTotal := e.length, contiguous := e.contiguous,
                        expected := CeilBlocks(e.length));
        if e.length == 0 then st.(status := Complete)
        else if (pkg.totalBlocks != 0 && e.startBlock >= pkg.totalBlocks)
             || (e.validBlocks != 0 && st.expected > e.validBlocks)
             || (e.allocatedBlocks != 0 && st.expected > e.allocatedBlocks)
             || (pkg.totalBlocks != 0 && st.expected > pkg.totalBlocks)
             || e.startBlock >= BLOCK_LIMIT
        then st.(status := ErrorChain)
        else ScheduleData(pkg, st.(visited := {e.startBlock}))
  }

  // ---- what every state keeps ----

  function Min(a: nat, b: nat): nat {
    if a < b then a else b
  }

  /** The size the request for the block at bytesDone must have. */
  function DataSize(st: State): nat
    requires st.bytesDone <= st.bytesTotal
  {
    Min(BLOCK_SIZE, st.bytesTotal - st.bytesDone)
  }

  /** The accounting: bytes follow blocks, and only blocks that were entered have been counted. */
  ghost predicate Accounts(st: State) {
    && st.expected == CeilBlocks(st.bytesTotal)
    && st.blocksDone <= st.expected
    && st.bytesDone == Min(st.bytesTotal, BLOCK_SIZE * st.blocksDone)
    && (forall k :: k in st.visited ==> k < BLOCK_LIMIT)
  }

  /** Everything an extraction keeps while it runs, and in what way it stops. */
  ghost predicate Inv(pkg: Package, st: State) {
    && (st.request.Some? <==> st.status.Working?)
    && (st.status.Working? || st.status.Complete? ==> Accounts(st))
    && (st.status.Complete? ==> st.bytesDone == st.bytesTotal && |st.visited| == st.blocksDone == st.expected)
    && (st.request.Some? ==>
          var req := st.request.value;
          && InFile(pkg, req.offset, req.size)
          && st.blocksDone < st.expected && st.bytesDone < st.bytesTotal
          && st.current in st.visited
          && |st.visited| == st.blocksDone + (if req.kind.DataBlockRead? then 1 else 0)
          && (if req.kind.DataBlockRead? then req.size == DataSize(st)
              else req.size == BLOCK_SIZE && !st.contiguous && st.hashTarget == st.current && st.blocksDone > 0))
  }

  /** An upper bound on the requests still to come. */
  function Bound(st: State): nat {
    match st.request
    case None => 0
    case Some(req) =>
      if st.blocksDone >= st.expected then 0
      else
        4 * (st.expected - st.blocksDone)
        - (match req.kind case DataBlockRead => 3 case HashL2 => 0 case HashL1 => 1 case HashL0 => 2)
  }

  lemma BlocksAndBytes(total: nat, done: nat, blocks: nat)
    requires blocks <= CeilBlocks(total) && done == Min(total, BLOCK_SIZE * blocks)
    ensures done < total <==> blocks < CeilBlocks(total)
    ensures done < total ==> done == BLOCK_SIZE * blocks
    ensures done < total ==> done + Min(BLOCK_SIZE, total - done) == Min(total, BLOCK_SIZE * (blocks + 1))
  {
  }

  lemma ScheduleDataKeeps(pkg: Package, st: State)
    requires Accounts(st) && st.request.None? && st.status.Working?
    requires st.current in st.visited && |st.visited| == st.blocksDone + 1 && st.bytesDone < st.bytesTotal
    ensures Inv(pkg, ScheduleData(pkg, st))
    ensures Bound(ScheduleData(pkg, st)) <= 4 * (st.expected - st.blocksDone) - 3
  {
    hide DataOffset;
    BlocksAndBytes(st.bytesTotal, st.bytesDone, st.blocksDone);
  }

  /** What one submitted read keeps: the invariant, the bound going down, and no block entered twice. */
  ghost predicate Advances(pkg: Package, st: State, st': State) {
    && Inv(pkg, st')
    && Bound(st') < Bound(st)
    && st.visited <= st'.visited
    && |st'.visited| <= |st.visited| + 1
  }

  lemma FailAdvances(pkg: Package, st: State, st1: State, status: Status)
    requires Inv(pkg, st) && st.request.Some? && st1.visited == st.visited
    requires status.ErrorChain? || status.ErrorShortRead?
    ensures Advances(pkg, st, Fail(st1, status))
  {
  }

  lemma ScheduleHashAdvances(pkg: Package, st: State, st1: State, level: nat)
    requires Inv(pkg, st) && st.request.Some? && level <= 2
    requires Accounts(st1) && st1.request.None? && st1.visited == st.visited && !st1.contiguous
    requires st1.hashTarget == st1.current && st1.current in st1.visited && st1.expected == st.expected
    requires 0 < st1.blocksDone < st1.expected && |st1.visited| == st1.blocksDone && st1.bytesDone < st1.bytesTotal
    requires 4 * (st1.expected - st1.blocksDone) - (2 - level) < Bound(st)
    ensures Advances(pkg, st, ScheduleHash(pkg, st1, level))
  {
    hide HashOffset;
  }

  lemma EnterBlockAdvances(pkg: Package, st: State, st1: State, block: nat)
    requires Inv(pkg, st) && st.request.Some?
    requires Accounts(st1) && st1.request.None? && st1.status.Working? && st1.visited == st.visited
    requires MayEnter(pkg, st1.visited, block) && |st1.visited| == st1.blocksDone && st1.bytesDone < st1.bytesTotal
    requires 4 * (st1.expected - st1.blocksDone) - 3 < Bound(st)
    ensures Advances(pkg, st, EnterBlock(pkg, st1, block))
  {
    hide DataOffset;
    var st2 := st1.(current := block, visited := st1.visited + {block});
    assert |st2.visited| == |st1.visited| + 1;
    ScheduleDataKeeps(pkg, st2);
  }

  lemma AcceptDataAdvances(pkg: Package, st: State)
    requires Inv(pkg, st) && st.request.Some? && st.request.value.kind.DataBlockRead?
    ensures Advances(pkg, st, AcceptData(pkg, st.(request := None), st.request.value.size))
  {
    hide DataOffset, HashOffset, ScheduleHash, MayEnter;
    var size := st.request.value.size;
    BlocksAndBytes(st.bytesTotal, st.bytesDone, st.blocksDone);
    var st1 := st.(request := None, bytesDone := st.bytesDone + size, blocksDone := st.blocksDone + 1);
    BlocksAndBytes(st1.bytesTotal, st1.bytesDone, st1.blocksDone);
    if st1.bytesDone >= st1.bytesTotal {
    } else if st1.contiguous {
      if MayEnter(pkg, st1.visited, st1.current + 1) {
        EnterBlockAdvances(pkg, st, st1, st1.current + 1);
      } else {
        FailAdvances(pkg, st, st1.(current := st1.current + 1), ErrorChain);
      }
    } else if pkg.totalBlocks != 0 && st1.current >= pkg.totalBlocks {
      FailAdvances(pkg, st, st1, ErrorChain);
    } else {
      var st2 := st1.(hashTarget := st1.current, secondary := if !pkg.readOnly && pkg.rootSecond then BLOCK_SIZE else 0);
      ScheduleHashAdvances(pkg, st, st2, FirstLevel(pkg));
    }
  }

  /** Any bytes at all: every submitted read leaves a good state, fewer requests to come, and no block entered twice. */
  lemma SubmitAdvances(pkg: Package, st: State, bytes: seq<byte>)
    requires Inv(pkg, st) && st.request.Some?
    ensures Advances(pkg, st, Submit(pkg, st, bytes))
  {
    var req := st.request.value;
    var st1 := st.(request := None);
    if |bytes| < req.size || |bytes| > IO_CAPACITY {
      FailAdvances(pkg, st, st, ErrorShortRead);
    } else if req.kind.DataBlockRead? {
      AcceptDataAdvances(pkg, st);
    } else if req.kind.HashL0? {
      var info := HashInfo(bytes, Record(st.hashTarget, 0));
      if info.None? || NextInChain(info.value) == END_OF_CHAIN || !MayEnter(pkg, st.visited, NextInChain(info.value)) {
        FailAdvances(pkg, st, st1, ErrorChain);
      } else {
        EnterBlockAdvances(pkg, st, st1, NextInChain(info.value));
      }
    } else {
      var level := if req.kind.HashL2? then 2 else 1;
      var info := HashInfo(bytes, Record(st.hashTarget, level));
      if info.None? {
        FailAdvances(pkg, st, st1, ErrorChain);
      } else {
        ScheduleHashAdvances(pkg, st, st1.(secondary := ActiveOffset(info.value)), level - 1);
      }
    }
  }

  lemma BeginKeeps(pkg: Package, entries: seq<Entry>, index: nat)
    ensures var st := Begin(pkg, entries, index);
            Inv(pkg, st) && (st.request.Some? ==> Bound(st) <= 4 * st.expected - 3)
  {
    if index < |entries| {
      var e := entries[index];
      var st := IDLE.(current := e.startBlock, bytesTotal := e.length, contiguous := e.contiguous,
                      expected := CeilBlocks(e.length), visited := {e.startBlock});
      BlocksAndBytes(e.length, 0, 0);
      if e.startBlock < BLOCK_LIMIT && e.length > 0 {
        ScheduleDataKeeps(pkg, st.(status := Working));
        assert ScheduleData(pkg, st) == ScheduleData(pkg, st.(status := Working));
      }
    }
  }

  // ---- whole runs ----

  /** A run handed the given reads, whatever is in them. */
  function Run(pkg: Package, st: State, handed: seq<seq<byte>>): State
    decreases |handed|
  {
    if handed == [] then st else Run(pkg, Submit(pkg, st, handed[0]), handed[1..])
  }

  /**
   Against arbitrary contents: the run keeps every invariant, and by the time 4 * expected - 3
   reads have been handed in, it has stopped asking.
   */
  lemma {:induction false} RunStops(pkg: Package, st: State, handed: seq<seq<byte>>)
    requires Inv(pkg, st)
    ensures Inv(pkg, Run(pkg, st, handed))
    ensures st.visited <= Run(pkg, st, handed).visited
    ensures |handed| >= Bound(st) ==> Run(pkg, st, handed).request.None?
    decreases |handed|
  {
    if handed != [] {
      if st.request.Some? {
        SubmitAdvances(pkg, st, handed[0]);
      }
      RunStops(pkg, Submit(pkg, st, handed[0]), handed[1..]);
    }
  }

  /** An extraction of n blocks asks for at most 4n - 3 ranges, all of them inside the package and the buffer. */
  lemma ExtractionStops(pkg: Package, entries: seq<Entry>, index: nat, handed: seq<seq<byte>>)
    ensures var st := Begin(pkg, entries, index);
            && Inv(pkg, Run(pkg, st, handed))
            && (|handed| + 3 >= 4 * st.expected ==> Run(pkg, st, handed).request.None?)
  {
    BeginKeeps(pkg, entries, index);
    RunStops(pkg, Begin(pkg, entries, index), handed);
  }

  /** A stopped extraction, finished or failed, stays as it is until the next begin. */
  lemma {:induction false} StoppedStays(pkg: Package, st: State, handed: seq<seq<byte>>)
    requires st.request.None?
    ensures Run(pkg, st, handed) == st
    decreases |handed|
  {
    if handed != [] {
      StoppedStays(pkg, Submit(pkg, st, handed[0]), handed[1..]);
    }
  }
}
