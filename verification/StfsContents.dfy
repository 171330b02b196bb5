/**
 What a file in an STFS package contains, said without any machine: follow the chain from the
 start block, concatenate the blocks, stop at the length. An extraction over the package's own
 bytes yields exactly that, and fails exactly when the chain does.
 */
module StfsContents {
  import opened Options
  import opened LittleEndian
  import opened StfsLayout
  import opened StfsExtraction

  /** The successor of a block, found from the given level of hash tables downwards. */
  function Resolve(pkg: Package, file: seq<byte>, block: nat, level: nat, second: nat): Option<nat>
    requires |file| == pkg.fileSize && level <= 2
    decreases level
  {
    var at := HashOffset(pkg, block, level) + second;
    if !InFile(pkg, at, BLOCK_SIZE) then None
    else
      RecordInBlock(block, level);
      var info := Be32(file, at + Record(block, level) * HASH_ENTRY_SIZE + HASH_INFO_AT);
      if level > 0 then Resolve(pkg, file, block, level - 1, ActiveOffset(info))
      else if NextInChain(info) == END_OF_CHAIN then None
      else Some(NextInChain(info))
  }

  lemma RecordInBlock(block: nat, level: nat)
    ensures Record(block, level) < PER_L0
    ensures Record(block, level) * HASH_ENTRY_SIZE + HASH_INFO_AT + 4 <= BLOCK_SIZE
  {
  }

  /** The block after this one, if the chain may go there. */
  function Successor(pkg: Package, file: seq<byte>, contiguous: bool, block: nat, seen: set<nat>): Option<nat>
    requires |file| == pkg.fileSize
  {
    var next :=
      if contiguous then Some(block + 1)
      else if pkg.totalBlocks != 0 && block >= pkg.totalBlocks then None
      else Resolve(pkg, file, block, FirstLevel(pkg), if !pkg.readOnly && pkg.rootSecond then BLOCK_SIZE else 0);
    if next.Some? && MayEnter(pkg, seen, next.value) then next else None
  }

  function Prepend(front: seq<byte>, rest: Option<seq<byte>>): Option<seq<byte>> {
    match rest
    case None => None
    case Some(s) => Some(front + s)
  }

  /** The bytes from position done on, which start in this block; None for a broken chain. */
  function Contents(
    pkg: Package, file: seq<byte>, length: nat, contiguous: bool, block: nat, done: nat, seen: set<nat>): Option<seq<byte>>
    requires |file| == pkg.fileSize && done < length
    decreases length - done
  {
    var size := Min(BLOCK_SIZE, length - done);
    var at := DataOffset(pkg, block);
    if !InFile(pkg, at, size) then None
    else if done + size == length then Some(file[at..at + size])
    else
      match Successor(pkg, file, contiguous, block, seen)
      case None => None
      case Some(next) =>
        Prepend(file[at..at + size], Contents(pkg, file, length, contiguous, next, done + size, seen + {next}))
  }

  /** A file's contents, by its directory entry. */
  function FileContents(pkg: Package, e: Entry, file: seq<byte>): Option<seq<byte>>
    requires |file| == pkg.fileSize
  {
    if e.directory then None
    else if e.length == 0 then Some([])
    else if (pkg.totalBlocks != 0 && (e.startBlock >= pkg.totalBlocks || CeilBlocks(e.length) > pkg.totalBlocks))
         || (e.validBlocks != 0 && CeilBlocks(e.length) > e.validBlocks)
         || (e.allocatedBlocks != 0 && CeilBlocks(e.length) > e.allocatedBlocks)
         || e.startBlock >= BLOCK_LIMIT
    then None
    else Contents(pkg, file, e.length, e.contiguous, e.startBlock, 0, {e.startBlock})
  }

  lemma {:induction false} ContentsLength(
    pkg: Package, file: seq<byte>, length: nat, contiguous: bool, block: nat, done: nat, seen: set<nat>)
    requires |file| == pkg.fileSize && done < length
    requires Contents(pkg, file, length, contiguous, block, done, seen).Some?
    ensures |Contents(pkg, file, length, contiguous, block, done, seen).value| == length - done
    decreases length - done
  {
    hide DataOffset, Successor;
    var size := Min(BLOCK_SIZE, length - done);
    if done + size < length {
      var next := Successor(pkg, file, contiguous, block, seen).value;
      var rest := Contents(pkg, file, length, contiguous, next, done + size, seen + {next});
      ContentsLength(pkg, file, length, contiguous, next, done + size, seen + {next});
      assert |rest.value| == length - (done + size);
    }
  }

  // ---- what a machine still has to deliver ----

  function AfterEntering(pkg: Package, file: seq<byte>, st: State, next: Option<nat>): Option<seq<byte>>
    requires |file| == pkg.fileSize && st.bytesDone < st.bytesTotal
  {
    if next.None? || !MayEnter(pkg, st.visited, next.value) then None
    else Contents(pkg, file, st.bytesTotal, st.contiguous, next.value, st.bytesDone, st.visited + {next.value})
  }

  /** The bytes a state is still going to deliver from this file: none when finished, None when failed. */
  function Rest(pkg: Package, file: seq<byte>, st: State): Option<seq<byte>>
    requires |file| == pkg.fileSize && Inv(pkg, st)
  {
    match st.request
    case None => if st.status.Complete? then Some([]) else None
    case Some(req) =>
      match req.kind
      case DataBlockRead =>
        Contents(pkg, file, st.bytesTotal, st.contiguous, st.current, st.bytesDone, st.visited)
      case HashL2 => AfterEntering(pkg, file, st, Resolve(pkg, file, st.hashTarget, 2, st.secondary))
      case HashL1 => AfterEntering(pkg, file, st, Resolve(pkg, file, st.hashTarget, 1, st.secondary))
      case HashL0 => AfterEntering(pkg, file, st, Resolve(pkg, file, st.hashTarget, 0, st.secondary))
  }

  /** A request asks for the place the state says it does. */
  ghost predicate AsksRight(pkg: Package, st: State) {
    st.request.Some? ==>
      st.request.value.offset ==
        match st.request.value.kind
        case DataBlockRead => DataOffset(pkg, st.current)
        case HashL2 => HashOffset(pkg, st.hashTarget, 2) + st.secondary
        case HashL1 => HashOffset(pkg, st.hashTarget, 1) + st.secondary
        case HashL0 => HashOffset(pkg, st.hashTarget, 0) + st.secondary
  }

  lemma ScheduleDataAsksRight(pkg: Package, st: State)
    requires st.request.None?
    ensures AsksRight(pkg, ScheduleData(pkg, st))
  {
    hide DataOffset, HashOffset;
  }

  lemma ScheduleHashAsksRight(pkg: Package, st: State, level: nat)
    requires level <= 2
    ensures AsksRight(pkg, ScheduleHash(pkg, st, level))
  {
    hide DataOffset, HashOffset;
  }

  lemma BeginHashAsksRight(pkg: Package, st: State, block: nat)
    requires st.request.None?
    ensures AsksRight(pkg, BeginHash(pkg, st, block))
  {
    hide ScheduleHash;
    ScheduleHashAsksRight(pkg,
                          st.(hashTarget := block, secondary := if !pkg.readOnly && pkg.rootSecond then BLOCK_SIZE else 0),
                          FirstLevel(pkg));
  }

  lemma AcceptDataAsksRight(pkg: Package, st: State, size: nat)
    requires st.request.None?
    ensures AsksRight(pkg, AcceptData(pkg, st, size))
  {
    hide ScheduleData, BeginHash, DataOffset, HashOffset;
    var st1 := st.(bytesDone := st.bytesDone + size, blocksDone := st.blocksDone + 1);
    ScheduleDataAsksRight(pkg, st1);
    ScheduleDataAsksRight(pkg, st1.(current := st.current + 1, visited := st.visited + {st.current + 1}));
    BeginHashAsksRight(pkg, st1, st1.current);
  }

  lemma ParseUpperHashAsksRight(pkg: Package, st: State, bytes: seq<byte>, level: nat)
    requires st.request.None? && 1 <= level <= 2
    ensures AsksRight(pkg, ParseUpperHash(pkg, st, bytes, level))
  {
    var info := HashInfo(bytes, Record(st.hashTarget, level));
    if info.Some? {
      ScheduleHashAsksRight(pkg, st.(secondary := ActiveOffset(info.value)), level - 1);
    }
  }

  lemma ParseHashL0AsksRight(pkg: Package, st: State, bytes: seq<byte>)
    requires st.request.None?
    ensures AsksRight(pkg, ParseHashL0(pkg, st, bytes))
  {
    var info := HashInfo(bytes, Record(st.hashTarget, 0));
    if info.Some? {
      var next := NextInChain(info.value);
      ScheduleDataAsksRight(pkg, st.(current := next, visited := st.visited + {next}));
    }
  }

  lemma SubmitAsksRight(pkg: Package, st: State, bytes: seq<byte>)
    requires AsksRight(pkg, st)
    ensures AsksRight(pkg, Submit(pkg, st, bytes))
  {
    var st1 := st.(request := None);
    match st.request
    case None =>
    case Some(req) =>
      match req.kind
      case DataBlockRead => AcceptDataAsksRight(pkg, st1, req.size);
      case HashL2 => ParseUpperHashAsksRight(pkg, st1, bytes, 2);
      case HashL1 => ParseUpperHashAsksRight(pkg, st1, bytes, 1);
      case HashL0 => ParseHashL0AsksRight(pkg, st1, bytes);
  }

  /** The bytes a request is owed. */
  function Served(file: seq<byte>, req: Request): seq<byte>
    requires req.offset + req.size <= |file|
  {
    file[req.offset..req.offset + req.size]
  }

  function Delivered(file: seq<byte>, req: Request): seq<byte>
    requires req.offset + req.size <= |file|
  {
    if req.kind.DataBlockRead? then Served(file, req) else []
  }

  lemma EnteredRest(pkg: Package, file: seq<byte>, st: State, block: nat)
    requires |file| == pkg.fileSize && st.request.None? && st.bytesDone < st.bytesTotal
    requires Inv(pkg, EnterBlock(pkg, st, block))
    ensures Rest(pkg, file, EnterBlock(pkg, st, block))
            == Contents(pkg, file, st.bytesTotal, st.contiguous, block, st.bytesDone, st.visited + {block})
  {
    hide DataOffset, HashOffset;
  }

  lemma HashRest(pkg: Package, file: seq<byte>, st: State, level: nat)
    requires |file| == pkg.fileSize && st.request.None? && st.bytesDone < st.bytesTotal && level <= 2
    requires Inv(pkg, ScheduleHash(pkg, st, level))
    ensures Rest(pkg, file, ScheduleHash(pkg, st, level))
            == AfterEntering(pkg, file, st, Resolve(pkg, file, st.hashTarget, level, st.secondary))
  {
    hide DataOffset, HashOffset;
  }

  lemma SameInfo(file: seq<byte>, at: nat, block: nat, level: nat)
    requires at + BLOCK_SIZE <= |file|
    ensures Record(block, level) * HASH_ENTRY_SIZE + HASH_INFO_AT + 4 <= BLOCK_SIZE
    ensures HashInfo(file[at..at + BLOCK_SIZE], Record(block, level))
            == Some(Be32(file, at + Record(block, level) * HASH_ENTRY_SIZE + HASH_INFO_AT))
  {
    RecordInBlock(block, level);
  }

  // ---- a read moves the machine along the contents ----

  /** The last block: what is left is what was just read. */
  lemma LastBlockFollows(pkg: Package, file: seq<byte>, st: State)
    requires |file| == pkg.fileSize && Inv(pkg, st) && AsksRight(pkg, st)
    requires st.request.Some? && st.request.value.kind.DataBlockRead?
    requires st.bytesDone + st.request.value.size == st.bytesTotal
    ensures Rest(pkg, file, st) == Some(Served(file, st.request.value))
    ensures AcceptData(pkg, st.(request := None), st.request.value.size).status.Complete?
  {
    hide DataOffset, HashOffset;
    BlocksAndBytes(st.bytesTotal, st.bytesDone, st.blocksDone);
    var size := st.request.value.size;
    var st1 := st.(request := None, bytesDone := st.bytesDone + size, blocksDone := st.blocksDone + 1);
    assert st1.blocksDone == st1.expected;
  }

  /** Resolving the next block by the hash tables, as a block has just been counted. */
  lemma HashedBlockFollows(pkg: Package, file: seq<byte>, st: State)
    requires |file| == pkg.fileSize && st.request.None? && st.bytesDone < st.bytesTotal && !st.contiguous
    requires Inv(pkg, BeginHash(pkg, st, st.current))
    ensures Rest(pkg, file, BeginHash(pkg, st, st.current))
            == AfterEntering(pkg, file, st, Successor(pkg, file, false, st.current, st.visited))
  {
    hide DataOffset, HashOffset, Contents, Resolve;
    var second := if !pkg.readOnly && pkg.rootSecond then BLOCK_SIZE else 0;
    if !(pkg.totalBlocks != 0 && st.current >= pkg.totalBlocks) {
      HashRest(pkg, file, st.(hashTarget := st.current, secondary := second), FirstLevel(pkg));
    }
  }

  lemma NextBlockFollows(pkg: Package, file: seq<byte>, st: State)
    requires |file| == pkg.fileSize && st.request.None? && st.bytesDone < st.bytesTotal && st.contiguous
    requires MayEnter(pkg, st.visited, st.current + 1) ==> Inv(pkg, EnterBlock(pkg, st, st.current + 1))
    ensures AfterEntering(pkg, file, st, Successor(pkg, file, true, st.current, st.visited))
            == if MayEnter(pkg, st.visited, st.current + 1) then Rest(pkg, file, EnterBlock(pkg, st, st.current + 1)) else None
  {
    hide DataOffset, HashOffset, Contents;
    if MayEnter(pkg, st.visited, st.current + 1) {
      EnteredRest(pkg, file, st, st.current + 1);
    }
  }

  /** What follows a data block that is not the last. */
  lemma AfterBlock(pkg: Package, file: seq<byte>, st: State)
    requires |file| == pkg.fileSize && Inv(pkg, st) && st.request.Some? && st.request.value.kind.DataBlockRead?
    requires st.bytesDone + st.request.value.size < st.bytesTotal
    requires Inv(pkg, AcceptData(pkg, st.(request := None), st.request.value.size))
    ensures var size := st.request.value.size;
            Rest(pkg, file, AcceptData(pkg, st.(request := None), size))
            == AfterEntering(pkg, file, st.(request := None, bytesDone := st.bytesDone + size, blocksDone := st.blocksDone + 1),
                             Successor(pkg, file, st.contiguous, st.current, st.visited))
  {
    hide DataOffset, HashOffset, Contents, BeginHash, EnterBlock, Successor;
    BlocksAndBytes(st.bytesTotal, st.bytesDone, st.blocksDone);
    var size := st.request.value.size;
    var st1 := st.(request := None, bytesDone := st.bytesDone + size, blocksDone := st.blocksDone + 1);
    if st.contiguous {
      NextBlockFollows(pkg, file, st1);
    } else {
      HashedBlockFollows(pkg, file, st1);
    }
  }

  /** What a block that is not the last is followed by, in the contents. */
  lemma BlockThenRest(pkg: Package, file: seq<byte>, st: State)
    requires |file| == pkg.fileSize && Inv(pkg, st) && AsksRight(pkg, st)
    requires st.request.Some? && st.request.value.kind.DataBlockRead?
    requires st.bytesDone + st.request.value.size < st.bytesTotal
    ensures var size := st.request.value.size;
            Rest(pkg, file, st)
            == Prepend(Served(file, st.request.value),
                       AfterEntering(pkg, file,
                                     st.(request := None, bytesDone := st.bytesDone + size, blocksDone := st.blocksDone + 1),
                                     Successor(pkg, file, st.contiguous, st.current, st.visited)))
  {
    hide DataOffset, HashOffset, Resolve;
  }

  lemma DataFollows(pkg: Package, file: seq<byte>, st: State)
    requires |file| == pkg.fileSize && Inv(pkg, st) && AsksRight(pkg, st)
    requires st.request.Some? && st.request.value.kind.DataBlockRead?
    requires Inv(pkg, AcceptData(pkg, st.(request := None), st.request.value.size))
    ensures Rest(pkg, file, st)
            == Prepend(Served(file, st.request.value),
                       Rest(pkg, file, AcceptData(pkg, st.(request := None), st.request.value.size)))
  {
    hide Contents, AfterEntering, Successor, AcceptData, DataOffset, HashOffset;
    var req := st.request.value;
    if st.bytesDone + req.size == st.bytesTotal {
      LastBlockFollows(pkg, file, st);
      assert Served(file, req) + [] == Served(file, req);
    } else {
      BlockThenRest(pkg, file, st);
      AfterBlock(pkg, file, st);
    }
  }

  /** A table read from the right place says what the package says. */
  lemma ServedUpperHash(pkg: Package, file: seq<byte>, st: State, level: nat)
    requires |file| == pkg.fileSize && Inv(pkg, st) && AsksRight(pkg, st) && 1 <= level <= 2
    requires st.request.Some? && st.request.value.kind == (if level == 2 then HashL2 else HashL1)
    ensures var at := HashOffset(pkg, st.hashTarget, level) + st.secondary;
            && InFile(pkg, at, BLOCK_SIZE)
            && Record(st.hashTarget, level) * HASH_ENTRY_SIZE + HASH_INFO_AT + 4 <= BLOCK_SIZE
            && HashInfo(Served(file, st.request.value), Record(st.hashTarget, level))
               == Some(Be32(file, at + Record(st.hashTarget, level) * HASH_ENTRY_SIZE + HASH_INFO_AT))
  {
    hide HashOffset, Be32, Record;
    SameInfo(file, HashOffset(pkg, st.hashTarget, level) + st.secondary, st.hashTarget, level);
  }

  lemma UpperHashFollows(pkg: Package, file: seq<byte>, st: State, level: nat)
    requires |file| == pkg.fileSize && Inv(pkg, st) && AsksRight(pkg, st) && 1 <= level <= 2
    requires st.request.Some? && st.request.value.kind == (if level == 2 then HashL2 else HashL1)
    requires Inv(pkg, ParseUpperHash(pkg, st.(request := None), Served(file, st.request.value), level))
    ensures Rest(pkg, file, st)
            == Rest(pkg, file, ParseUpperHash(pkg, st.(request := None), Served(file, st.request.value), level))
  {
    hide Record;
    ServedUpperHash(pkg, file, st, level);
    var at := HashOffset(pkg, st.hashTarget, level) + st.secondary;
    var info := Be32(file, at + Record(st.hashTarget, level) * HASH_ENTRY_SIZE + HASH_INFO_AT);
    HashRest(pkg, file, st.(request := None, secondary := ActiveOffset(info)), level - 1);
  }

  lemma HashL0Follows(pkg: Package, file: seq<byte>, st: State)
    requires |file| == pkg.fileSize && Inv(pkg, st) && AsksRight(pkg, st)
    requires st.request.Some? && st.request.value.kind.HashL0?
    requires Inv(pkg, ParseHashL0(pkg, st.(request := None), Served(file, st.request.value)))
    ensures Rest(pkg, file, st) == Rest(pkg, file, ParseHashL0(pkg, st.(request := None), Served(file, st.request.value)))
  {
    hide Record;
    var at := HashOffset(pkg, st.hashTarget, 0) + st.secondary;
    SameInfo(file, at, st.hashTarget, 0);
    var next := NextInChain(Be32(file, at + Record(st.hashTarget, 0) * HASH_ENTRY_SIZE + HASH_INFO_AT));
    if next != END_OF_CHAIN && MayEnter(pkg, st.visited, next) {
      EnteredRest(pkg, file, st.(request := None), next);
    }
  }

  lemma PrependNothing(rest: Option<seq<byte>>)
    ensures Prepend([], rest) == rest
  {
    if rest.Some? {
      assert [] + rest.value == rest.value;
    }
  }

  /**
   One submitted read: what was still to come is what this read delivered, followed by what is
   still to come now. A hash read delivers nothing and loses nothing.
   */
  lemma SubmitFollows(pkg: Package, file: seq<byte>, st: State)
    requires |file| == pkg.fileSize && Inv(pkg, st) && AsksRight(pkg, st) && st.request.Some?
    ensures Inv(pkg, Submit(pkg, st, Served(file, st.request.value)))
    ensures Rest(pkg, file, st)
            == Prepend(Delivered(file, st.request.value), Rest(pkg, file, Submit(pkg, st, Served(file, st.request.value))))
  {
    hide DataOffset, HashOffset;
    var req := st.request.value;
    SubmitAdvances(pkg, st, Served(file, req));
    match req.kind
    case DataBlockRead => DataFollows(pkg, file, st);
    case HashL2 => UpperHashFollows(pkg, file, st, 2); PrependNothing(Rest(pkg, file, st));
    case HashL1 => UpperHashFollows(pkg, file, st, 1); PrependNothing(Rest(pkg, file, st));
    case HashL0 => HashL0Follows(pkg, file, st); PrependNothing(Rest(pkg, file, st));
  }

  /** A begun extraction is about to deliver exactly the file, or has failed because there is none. */
  lemma BeginDeliversTheFile(pkg: Package, file: seq<byte>, entries: seq<Entry>, index: nat)
    requires |file| == pkg.fileSize
    ensures var st := Begin(pkg, entries, index);
            && Inv(pkg, st) && AsksRight(pkg, st)
            && Rest(pkg, file, st) == if index < |entries| then FileContents(pkg, entries[index], file) else None
  {
    hide DataOffset, HashOffset;
    BeginKeeps(pkg, entries, index);
    if index < |entries| {
      var e := entries[index];
      var st := IDLE.(current := e.startBlock, bytesTotal := e.length, contiguous := e.contiguous,
                      expected := CeilBlocks(e.length), visited := {e.startBlock});
      ScheduleDataAsksRight(pkg, st);
    }
  }
}
