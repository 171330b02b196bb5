/**
 What a mount of a package should list, said without the machine: the records of each directory
 block along the file-table chain, in order, up to the announced number of blocks or the end of
 the chain. A mount handed the package's own bytes ends with exactly that.
 */
module StfsMountContents {
  import opened Options
  import opened LittleEndian
  import opened StfsLayout
  import E = StfsExtraction
  import C = StfsContents
  import opened StfsMount
  import opened StfsMountRuns

  /** How a mount ends. */
  datatype Final = Final(status: Status, entries: seq<Record>)

  // ---- one directory block ----

  /** The records of a block from the i-th on: up to a name that starts with zero, or one ill named. */
  function RecordsFrom(bytes: seq<byte>, i: nat): seq<Record>
    requires i <= ENTRIES_PER_BLOCK && |bytes| >= BLOCK_SIZE
    decreases ENTRIES_PER_BLOCK - i
  {
    if i == ENTRIES_PER_BLOCK || bytes[i * DIRECTORY_ENTRY_SIZE] == 0 || !WellNamed(bytes, i) then []
    else [RecordAt(bytes, i)] + RecordsFrom(bytes, i + 1)
  }

  /** The k-th record of a block is its k-th 64 bytes. */
  lemma {:induction false} RecordsAt(bytes: seq<byte>, i: nat, k: nat)
    requires i <= ENTRIES_PER_BLOCK && |bytes| >= BLOCK_SIZE && k < |RecordsFrom(bytes, i)|
    ensures i + k < 64
    ensures bytes[(i + k) * 64] != 0 && 1 <= bytes[(i + k) * 64 + 0x28] % 64 <= 40
    ensures RecordsFrom(bytes, i)[k] == RecordAt(bytes, i + k)
    decreases k
  {
    hide RecordAt;
    if k > 0 {
      RecordsAt(bytes, i + 1, k - 1);
      assert i + 1 + (k - 1) == i + k;
    }
  }

  /** Where the records of a block stop, and why. */
  lemma {:induction false} RecordsStop(bytes: seq<byte>, i: nat)
    requires i <= ENTRIES_PER_BLOCK && |bytes| >= BLOCK_SIZE
    ensures var stop := i + |RecordsFrom(bytes, i)|;
            && stop <= 64
            && (stop == 64 || bytes[stop * 64] == 0 || !(1 <= bytes[stop * 64 + 0x28] % 64 <= 40))
    decreases ENTRIES_PER_BLOCK - i
  {
    hide RecordAt;
    if i < ENTRIES_PER_BLOCK && bytes[i * DIRECTORY_ENTRY_SIZE] != 0 && WellNamed(bytes, i) {
      RecordsStop(bytes, i + 1);
    }
  }

  lemma WellNamedIs(bytes: seq<byte>, i: nat)
    requires i < 64 && |bytes| >= BLOCK_SIZE
    ensures WellNamed(bytes, i) <==> 1 <= bytes[i * 64 + 0x28] % 64 <= 40
  {
  }

  /** Whether a block's records end at one that is ill named. */
  predicate StopsIllNamed(bytes: seq<byte>)
    requires |bytes| >= BLOCK_SIZE
  {
    RecordsStop(bytes, 0);
    var stop := |RecordsFrom(bytes, 0)|;
    stop < ENTRIES_PER_BLOCK && bytes[stop * DIRECTORY_ENTRY_SIZE] != 0 && !WellNamed(bytes, stop)
  }

  /** A block's records added to a table: None for no error. */
  function Added(bytes: seq<byte>, entries: seq<Record>): (r: (Option<Status>, seq<Record>))
    requires |bytes| >= BLOCK_SIZE && |entries| <= MAX_ENTRIES
  {
    var all := entries + RecordsFrom(bytes, 0);
    if |all| > MAX_ENTRIES then (Some(ErrorEntryOverflow), all[..MAX_ENTRIES])
    else if StopsIllNamed(bytes) then (Some(ErrorDirectory), all)
    else (None, all)
  }

  // ---- the listing ----

  /** The raw successor of a block, from the given level of hash tables downwards; None when a table lies outside. */
  function Lookup(pkg: E.Package, file: seq<byte>, block: nat, level: nat, second: nat): Option<nat>
    requires |file| == pkg.fileSize && level <= 2
    decreases level
  {
    var at := E.HashOffset(pkg, block, level) + second;
    if !E.InFile(pkg, at, BLOCK_SIZE) then None
    else
      C.RecordInBlock(block, level);
      var info := E.Be32(file, at + E.Record(block, level) * E.HASH_ENTRY_SIZE + E.HASH_INFO_AT);
      if level > 0 then Lookup(pkg, file, block, level - 1, E.ActiveOffset(info)) else Some(E.NextInChain(info))
  }

  /** The end of a listing, once default.xex has been looked at. */
  function Finished(pkg: E.Package, entries: seq<Record>, status: Status): Final {
    var d := DefaultIn(entries);
    if Probed(entries, d)
       && !E.InFile(pkg, E.DataOffset(pkg, entries[d.value].startBlock), E.Min(entries[d.value].length, BLOCK_SIZE))
    then Final(ErrorOutOfRange, entries)
    else Final(status, entries)
  }

  /** The listing from a directory block on, with so many blocks announced and so many records before it. */
  function Listing(pkg: E.Package, file: seq<byte>, block: nat, left: nat, entries: seq<Record>): Final
    requires |file| == pkg.fileSize && left > 0 && |entries| <= MAX_ENTRIES
    decreases left, 0
  {
    var at := E.DataOffset(pkg, block);
    if !E.InFile(pkg, at, BLOCK_SIZE) then Final(ErrorOutOfRange, entries)
    else
      var (error, all) := Added(file[at..at + BLOCK_SIZE], entries);
      if error.Some? then Final(error.value, all)
      else if left == 1 then Finished(pkg, all, Mounted)
      else if pkg.totalBlocks != 0 && block >= pkg.totalBlocks then Final(ErrorHashChain, all)
      else Onward(pkg, file, Lookup(pkg, file, block, E.FirstLevel(pkg), RootOffset(pkg)), left - 1, all)
  }

  /** The listing after a successor has been looked up. */
  function Onward(pkg: E.Package, file: seq<byte>, next: Option<nat>, left: nat, entries: seq<Record>): Final
    requires |file| == pkg.fileSize && left > 0 && |entries| <= MAX_ENTRIES
    decreases left, 1
  {
    match next
    case None => Final(ErrorOutOfRange, entries)
    case Some(n) =>
      if n == E.END_OF_CHAIN then Finished(pkg, entries, MountedPartial) else Listing(pkg, file, n, left, entries)
  }

  function MountOf(file: seq<byte>): Final {
    if |file| < HEADER_STRUCT_SIZE then Final(ErrorTooSmall, [])
    else HeaderMeans(file, file[..HEADER_STRUCT_SIZE])
  }

  function HeaderMeans(file: seq<byte>, header: seq<byte>): Final
    requires |header| >= HEADER_STRUCT_SIZE
  {
    var pkg := HeaderPackage(|file|, header);
    if !IsPackage(header) then Final(ErrorMagic, [])
    else if pkg.headerSize < XCONTENT_HEADER_SIZE || pkg.headerSize > |file| then Final(ErrorHeader, [])
    else if E.Be32(header, 0x3A9) != 0 then Final(ErrorUnsupportedVolume, [])
    else if header[0x379] != VOLUME_DESCRIPTOR_SIZE then Final(ErrorHeader, [])
    else if TableBlocks(header) == 0 then Final(Mounted, [])
    else if pkg.totalBlocks != 0 && TableStart(header) >= pkg.totalBlocks then Final(ErrorHeader, [])
    else Listing(pkg, file, TableStart(header), TableBlocks(header), [])
  }

  // ---- what a state is going to end as ----

  function Meaning(file: seq<byte>, st: State): Final
    requires |file| == st.pkg.fileSize && Inv(st)
  {
    if st.request.None? then Final(st.status, st.entries)
    else
      match st.request.value.kind
      case Header => HeaderMeans(file, file[..HEADER_STRUCT_SIZE])
      case Directory => Listing(st.pkg, file, st.currentBlock, st.tableBlocks - st.blocksRead, st.entries)
      case HashL2 =>
        Onward(st.pkg, file, Lookup(st.pkg, file, st.hashTarget, 2, st.secondary), st.tableBlocks - st.blocksRead, st.entries)
      case HashL1 =>
        Onward(st.pkg, file, Lookup(st.pkg, file, st.hashTarget, 1, st.secondary), st.tableBlocks - st.blocksRead, st.entries)
      case HashL0 =>
        Onward(st.pkg, file, Lookup(st.pkg, file, st.hashTarget, 0, st.secondary), st.tableBlocks - st.blocksRead, st.entries)
      case DefaultXexProbe => Final(if st.warnings.terminal then MountedPartial else Mounted, st.entries)
  }

  /** A request asks for the place the state says it does. */
  ghost predicate AsksRight(st: State) {
    st.request.Some? ==>
      var req := st.request.value;
      match req.kind
      case Header => req.offset == 0
      case Directory => req.offset == E.DataOffset(st.pkg, st.currentBlock)
      case HashL2 => req.offset == E.HashOffset(st.pkg, st.hashTarget, 2) + st.secondary
      case HashL1 => req.offset == E.HashOffset(st.pkg, st.hashTarget, 1) + st.secondary
      case HashL0 => req.offset == E.HashOffset(st.pkg, st.hashTarget, 0) + st.secondary
      case DefaultXexProbe => true
  }

  function Served(file: seq<byte>, req: Request): seq<byte>
    requires req.offset + req.size <= |file|
  {
    file[req.offset..req.offset + req.size]
  }

  // ---- each parser keeps the meaning ----

  lemma ScheduledDirectoryMeans(file: seq<byte>, st: State, block: nat)
    requires |file| == st.pkg.fileSize && Between(st) && st.blocksRead < st.tableBlocks && !st.warnings.chainEnded
    requires Inv(ScheduleDirectory(st, block))
    ensures Meaning(file, ScheduleDirectory(st, block))
            == Listing(st.pkg, file, block, st.tableBlocks - st.blocksRead, st.entries)
    ensures AsksRight(ScheduleDirectory(st, block)) && ScheduleDirectory(st, block).pkg == st.pkg
  {
    hide E.DataOffset, E.HashOffset, DefaultIn, Added, Lookup, Onward;
  }

  lemma ScheduledHashMeans(file: seq<byte>, st: State, level: nat)
    requires |file| == st.pkg.fileSize && Between(st) && 0 < st.blocksRead < st.tableBlocks && level <= 2
    requires Inv(ScheduleHash(st, level))
    ensures Meaning(file, ScheduleHash(st, level))
            == Onward(st.pkg, file, Lookup(st.pkg, file, st.hashTarget, level, st.secondary),
                      st.tableBlocks - st.blocksRead, st.entries)
    ensures AsksRight(ScheduleHash(st, level)) && ScheduleHash(st, level).pkg == st.pkg
  {
    hide E.DataOffset, E.HashOffset, DefaultIn, Added, Listing, E.Be32, E.Record;
  }

  lemma FinishMeans(file: seq<byte>, st: State, status: Status)
    requires |file| == st.pkg.fileSize && Between(st) && (status.Mounted? || status.MountedPartial?)
    requires Inv(FinishMount(st, status))
    ensures Meaning(file, FinishMount(st, status)) == Finished(st.pkg, st.entries, status)
    ensures AsksRight(FinishMount(st, status)) && FinishMount(st, status).pkg == st.pkg
  {
    hide E.DataOffset, E.HashOffset, DefaultIn, Listing, Onward, IsDirectory;
  }

  /** Reading a block's records one after the other adds them, or stops where they do. */
  lemma {:induction false} ParseRecordsAdds(st: State, bytes: seq<byte>, i: nat)
    requires |bytes| >= BLOCK_SIZE && i <= ENTRIES_PER_BLOCK && |st.entries| <= MAX_ENTRIES && st.status.Working?
    ensures var rs := RecordsFrom(bytes, i);
            var st' := ParseRecords(st, bytes, i);
            && i + |rs| <= 64
            && (if |st.entries| + |rs| > 2048 then
                  st'.status.ErrorEntryOverflow? && st'.entries == (st.entries + rs)[..2048]
                else
                  && st'.entries == st.entries + rs
                  && var stop := i + |rs|;
                  && st'.status == (if stop < 64 && bytes[stop * 64] != 0 && !(1 <= bytes[stop * 64 + 0x28] % 64 <= 40)
                                    then ErrorDirectory else Working))
    decreases ENTRIES_PER_BLOCK - i
  {
    hide RecordAt, IsDefaultXex;
    if i < ENTRIES_PER_BLOCK && bytes[i * DIRECTORY_ENTRY_SIZE] != 0 && WellNamed(bytes, i) {
      var r, rest := RecordAt(bytes, i), RecordsFrom(bytes, i + 1);
      assert st.entries + ([r] + rest) == (st.entries + [r]) + rest;
      if |st.entries| < MAX_ENTRIES {
        ParseRecordsAdds(AddRecord(st, r), bytes, i + 1);
      } else {
        assert (st.entries + ([r] + rest))[..MAX_ENTRIES] == st.entries;
        RecordsStop(bytes, i + 1);
      }
    } else {
      assert st.entries + [] == st.entries;
    }
  }

  lemma AddsToTable(st: State, bytes: seq<byte>)
    requires |bytes| >= BLOCK_SIZE && Between(st)
    ensures Added(bytes, st.entries).0.Some? ==>
              Added(bytes, st.entries).0.value.ErrorDirectory? || Added(bytes, st.entries).0.value.ErrorEntryOverflow?
    ensures var st1 := ParseRecords(st, bytes, 0);
            && RecordsRead(st, st1)
            && st1.entries == Added(bytes, st.entries).1
            && st1.status == (if Added(bytes, st.entries).0.Some? then Added(bytes, st.entries).0.value else Working)
  {
    hide DefaultIn, RecordAt, IsDefaultXex, RecordsFrom, ParseRecords, NameLength, WellNamed;
    ParseRecordsAdds(st, bytes, 0);
    ParseRecordsKeeps(st, bytes, 0);
    RecordsStop(bytes, 0);
    var stop := |RecordsFrom(bytes, 0)|;
    if stop < 64 {
      WellNamedIs(bytes, stop);
    }
  }

  /** A directory block: its records are added, and the listing goes on with its successor. */
  lemma DirectoryMeans(file: seq<byte>, st: State, bytes: seq<byte>)
    requires |file| == st.pkg.fileSize && Between(st) && st.blocksRead < st.tableBlocks && !st.warnings.chainEnded
    requires E.InFile(st.pkg, E.DataOffset(st.pkg, st.currentBlock), BLOCK_SIZE)
    requires var at := E.DataOffset(st.pkg, st.currentBlock); bytes == file[at..at + BLOCK_SIZE]
    ensures var st' := ParseDirectory(st, bytes);
            && Inv(st') && AsksRight(st') && st'.pkg == st.pkg
            && Meaning(file, st') == Listing(st.pkg, file, st.currentBlock, st.tableBlocks - st.blocksRead, st.entries)
  {
    hide DefaultIn, E.DataOffset, E.HashOffset, Added, ParseRecords, FinishMount, ScheduleHash, Lookup, Onward, Finished,
      Meaning;
    ParseDirectoryKeeps(st, bytes);
    AddsToTable(st, bytes);
    var st1 := ParseRecords(st, bytes, 0);
    var st2 := st1.(blocksRead := st1.blocksRead + 1);
    if Added(bytes, st.entries).0.Some? {
      EndedMeans(file, st1);
    } else if st2.blocksRead >= st2.tableBlocks {
      FinishKeeps(st2, Mounted);
      FinishMeans(file, st2, Mounted);
    } else if st2.pkg.totalBlocks != 0 && st2.currentBlock >= st2.pkg.totalBlocks {
      EndedMeans(file, Fail(st2, ErrorHashChain));
    } else {
      var st3 := st2.(hashTarget := st2.currentBlock, secondary := RootOffset(st2.pkg));
      HashKeeps(st3, E.FirstLevel(st3.pkg));
      ScheduledHashMeans(file, st3, E.FirstLevel(st3.pkg));
    }
  }

  lemma EndedMeans(file: seq<byte>, st: State)
    requires |file| == st.pkg.fileSize && Inv(st) && st.request.None?
    ensures Meaning(file, st) == Final(st.status, st.entries) && AsksRight(st)
  {
    hide E.DataOffset, E.HashOffset, DefaultIn, Listing, Onward, Lookup;
  }

  lemma UpperHashMeans(file: seq<byte>, st: State, level: nat, bytes: seq<byte>)
    requires |file| == st.pkg.fileSize && Between(st) && 0 < st.blocksRead < st.tableBlocks && !st.warnings.chainEnded
    requires 1 <= level <= 2 && st.hashTarget == st.currentBlock
    requires E.InFile(st.pkg, E.HashOffset(st.pkg, st.hashTarget, level) + st.secondary, BLOCK_SIZE)
    requires var at := E.HashOffset(st.pkg, st.hashTarget, level) + st.secondary; bytes == file[at..at + BLOCK_SIZE]
    ensures var st' := ParseUpperHash(st, bytes, level);
            && Inv(st') && AsksRight(st') && st'.pkg == st.pkg
            && Meaning(file, st') == Onward(st.pkg, file, Lookup(st.pkg, file, st.hashTarget, level, st.secondary),
                                            st.tableBlocks - st.blocksRead, st.entries)
  {
    hide DefaultIn, E.DataOffset, E.HashOffset, ScheduleHash, Onward, Meaning, E.Be32, E.Record, E.HashInfo, ParseHashL0;
    HashParsersKeep(st, bytes, level);
    C.SameInfo(file, E.HashOffset(st.pkg, st.hashTarget, level) + st.secondary, st.hashTarget, level);
    var info := E.HashInfo(bytes, E.Record(st.hashTarget, level)).value;
    var st1 := st.(secondary := E.ActiveOffset(info));
    HashKeeps(st1, level - 1);
    ScheduledHashMeans(file, st1, level - 1);
  }

  lemma HashL0Means(file: seq<byte>, st: State, bytes: seq<byte>)
    requires |file| == st.pkg.fileSize && Between(st) && 0 < st.blocksRead < st.tableBlocks && !st.warnings.chainEnded
    requires st.hashTarget == st.currentBlock
    requires E.InFile(st.pkg, E.HashOffset(st.pkg, st.hashTarget, 0) + st.secondary, BLOCK_SIZE)
    requires var at := E.HashOffset(st.pkg, st.hashTarget, 0) + st.secondary; bytes == file[at..at + BLOCK_SIZE]
    ensures var st' := ParseHashL0(st, bytes);
            && Inv(st') && AsksRight(st') && st'.pkg == st.pkg
            && Meaning(file, st') == Onward(st.pkg, file, Lookup(st.pkg, file, st.hashTarget, 0, st.secondary),
                                            st.tableBlocks - st.blocksRead, st.entries)
  {
    hide DefaultIn, E.DataOffset, E.HashOffset, ScheduleDirectory, FinishMount, Listing, Meaning, E.Be32, E.Record, E.HashInfo,
      Finished, Probed;
    HashParsersKeep(st, bytes, 0);
    C.SameInfo(file, E.HashOffset(st.pkg, st.hashTarget, 0) + st.secondary, st.hashTarget, 0);
    var next := E.NextInChain(E.HashInfo(bytes, E.Record(st.hashTarget, 0)).value);
    if next == E.END_OF_CHAIN {
      var st1 := st.(warnings := st.warnings.(chainEnded := true));
      FinishKeeps(st1, MountedPartial);
      FinishMeans(file, st1, MountedPartial);
    } else {
      DirectoryKeeps(st, next);
      ScheduledDirectoryMeans(file, st, next);
    }
  }

  /** The probe decides nothing about the end: the status was remembered in the terminal bit. */
  lemma ProbeMeans(file: seq<byte>, st: State, bytes: seq<byte>)
    requires |file| == st.pkg.fileSize && Inv(st) && st.request.Some? && st.request.value.kind.DefaultXexProbe?
    ensures var st' := ParseDefaultXexProbe(st.(request := None), bytes);
            && Inv(st') && AsksRight(st') && st'.pkg == st.pkg && Meaning(file, st') == Meaning(file, st)
  {
    hide DefaultIn, E.DataOffset, E.HashOffset, Listing, Onward, Lookup, Classify, Probed;
  }

  /** Neither failed nor idle. */
  predicate GoesOn(st: State) {
    st.status.Working? || st.status.Mounted? || st.status.MountedPartial?
  }

  lemma HeaderReadMeans(file: seq<byte>, st: State, bytes: seq<byte>)
    requires |file| == st.pkg.fileSize && Between(st) && st.blocksRead == 0 && st.entries == [] && !st.warnings.chainEnded
    requires |file| >= HEADER_STRUCT_SIZE && bytes == file[..HEADER_STRUCT_SIZE]
    ensures var st' := ParseHeader(st, bytes);
            && Inv(st') && AsksRight(st') && st'.pkg.fileSize == |file|
            && Meaning(file, st') == HeaderMeans(file, bytes)
            && (GoesOn(st') ==> st'.pkg == HeaderPackage(|file|, bytes))
  {
    hide DefaultIn, E.DataOffset, E.HashOffset, Listing, Onward, Lookup, Classify, E.Be32, TableStart, TableBlocks,
      ScheduleDirectory, Meaning;
    ParseHeaderKeeps(st, bytes);
    var st1 := st.(pkg := HeaderPackage(st.pkg.fileSize, bytes), tableBlocks := TableBlocks(bytes));
    if !IsPackage(bytes) || st1.pkg.headerSize < XCONTENT_HEADER_SIZE || st1.pkg.headerSize > |file|
       || E.Be32(bytes, 0x3A9) != 0 || bytes[0x379] != VOLUME_DESCRIPTOR_SIZE || st1.tableBlocks == 0
       || (st1.pkg.totalBlocks != 0 && TableStart(bytes) >= st1.pkg.totalBlocks)
    {
      EndedMeans(file, ParseHeader(st, bytes));
    } else {
      DirectoryKeeps(st1, TableStart(bytes));
      ScheduledDirectoryMeans(file, st1, TableStart(bytes));
    }
  }

  /** One submitted read, served from the file: the mount is still going to end the same way. */
  lemma SubmitKeepsMeaning(file: seq<byte>, st: State)
    requires |file| == st.pkg.fileSize && Inv(st) && AsksRight(st) && st.request.Some?
    ensures var st' := Submit(st, Served(file, st.request.value));
            && Inv(st') && AsksRight(st') && st'.pkg.fileSize == |file|
            && Meaning(file, st') == Meaning(file, st)
            && (if st.request.value.kind.Header? then
                  |file| >= HEADER_STRUCT_SIZE && (GoesOn(st') ==> st'.pkg == HeaderPackage(|file|, file[..HEADER_STRUCT_SIZE]))
                else st'.pkg == st.pkg)
  {
    hide DefaultIn, E.DataOffset, E.HashOffset, Listing, Onward, Lookup, Classify, Probed, ParseHeader, ParseDirectory,
      ParseHashL0, ParseUpperHash, ParseDefaultXexProbe, HeaderMeans;
    var req := st.request.value;
    var bytes := Served(file, req);
    var st1 := st.(request := None);
    match req.kind
    case Header => HeaderReadMeans(file, st1, bytes);
    case Directory => DirectoryMeans(file, st1, bytes);
    case HashL2 => UpperHashMeans(file, st1, 2, bytes);
    case HashL1 => UpperHashMeans(file, st1, 1, bytes);
    case HashL0 => HashL0Means(file, st1, bytes);
    case DefaultXexProbe => ProbeMeans(file, st, bytes);
  }

  /** A mount that has begun is going to end as the package says. */
  lemma BeginMeans(file: seq<byte>)
    ensures var st := Begin(|file|);
            Inv(st) && AsksRight(st) && st.pkg.fileSize == |file| && Meaning(file, st) == MountOf(file)
  {
    hide E.DataOffset, E.HashOffset, Listing, Onward, Lookup, Classify, HeaderMeans;
    BeginKeeps(|file|);
  }

  // ---- a listing is the records of the chain's blocks ----

  /** The block after this one in the chain of a listing, if there is one. */
  function After(pkg: E.Package, file: seq<byte>, block: nat, left: nat): (next: Option<nat>)
    requires |file| == pkg.fileSize && left > 0
    ensures next.Some? ==> left > 1
  {
    var next := if left == 1 then None else Lookup(pkg, file, block, E.FirstLevel(pkg), RootOffset(pkg));
    if next.Some? && next.value == E.END_OF_CHAIN then None else next
  }

  /** The directory blocks a listing reads: the chain from block on, at most so many. */
  function Chain(pkg: E.Package, file: seq<byte>, block: nat, left: nat): (r: seq<nat>)
    requires |file| == pkg.fileSize && left > 0
    ensures 0 < |r| <= left && r[0] == block
    decreases left
  {
    var next := After(pkg, file, block, left);
    [block] + if next.Some? then Chain(pkg, file, next.value, left - 1) else []
  }

  /** The records of a directory block of the package. */
  function BlockRecords(pkg: E.Package, file: seq<byte>, block: nat): seq<Record>
    requires |file| == pkg.fileSize
  {
    var at := E.DataOffset(pkg, block);
    if E.InFile(pkg, at, BLOCK_SIZE) then RecordsFrom(file[at..at + BLOCK_SIZE], 0) else []
  }

  /** The records of these directory blocks, one block after the other. */
  function RecordsOf(pkg: E.Package, file: seq<byte>, blocks: seq<nat>): seq<Record>
    requires |file| == pkg.fileSize
  {
    if blocks == [] then [] else BlockRecords(pkg, file, blocks[0]) + RecordsOf(pkg, file, blocks[1..])
  }

  predicate EndsMounted(f: Final) {
    f.status.Mounted? || f.status.MountedPartial?
  }

  lemma FinishedEnds(pkg: E.Package, entries: seq<Record>, status: Status)
    ensures var f := Finished(pkg, entries, status);
            f.entries == entries && (f.status == status || f.status.ErrorOutOfRange?)
  {
    hide E.DataOffset, DefaultIn, Probed;
  }

  /** One block of a listing that ends mounted. */
  lemma MountedListingStep(pkg: E.Package, file: seq<byte>, block: nat, left: nat, entries: seq<Record>)
    requires |file| == pkg.fileSize && left > 0 && |entries| <= MAX_ENTRIES
    requires EndsMounted(Listing(pkg, file, block, left, entries))
    ensures |entries + BlockRecords(pkg, file, block)| <= MAX_ENTRIES
    ensures var f := Listing(pkg, file, block, left, entries);
            var all := entries + BlockRecords(pkg, file, block);
            var next := After(pkg, file, block, left);
            if next.Some? then f == Listing(pkg, file, next.value, left - 1, all)
            else f.entries == all && (f.status.Mounted? <==> left == 1)
  {
    hide E.DataOffset, E.HashOffset, RecordsFrom, Lookup, Finished, StopsIllNamed, RootOffset;
    var at := E.DataOffset(pkg, block);
    assert E.InFile(pkg, at, BLOCK_SIZE);
    var (error, all) := Added(file[at..at + BLOCK_SIZE], entries);
    FinishedEnds(pkg, all, Mounted);
    FinishedEnds(pkg, all, MountedPartial);
    assert error.None?;
  }

  /** The records of a chain are those of its first block and those of the chain after it. */
  lemma RecordsOfChain(pkg: E.Package, file: seq<byte>, block: nat, left: nat)
    requires |file| == pkg.fileSize && left > 0
    ensures var next := After(pkg, file, block, left);
            var mine := BlockRecords(pkg, file, block);
            var chain := Chain(pkg, file, block, left);
            if next.Some? then
              var rest := Chain(pkg, file, next.value, left - 1);
              RecordsOf(pkg, file, chain) == mine + RecordsOf(pkg, file, rest) && |chain| == 1 + |rest|
            else RecordsOf(pkg, file, chain) == mine && |chain| == 1
  {
    hide BlockRecords, After;
    var chain := Chain(pkg, file, block, left);
    var next := After(pkg, file, block, left);
    assert chain[1..] == if next.Some? then Chain(pkg, file, next.value, left - 1) else [];
  }

  lemma Regroup(a: seq<Record>, b: seq<Record>, c: seq<Record>)
    ensures (a + b) + c == a + (b + c)
  {
  }

  /**
   A mount that ends mounted lists exactly the records of the blocks of the chain, in order, and
   ends partial exactly when the chain ended before the announced number of blocks.
   */
  lemma {:induction false} ListingIsTheChain(pkg: E.Package, file: seq<byte>, block: nat, left: nat, entries: seq<Record>)
    requires |file| == pkg.fileSize && left > 0 && |entries| <= MAX_ENTRIES
    requires EndsMounted(Listing(pkg, file, block, left, entries))
    ensures var f := Listing(pkg, file, block, left, entries);
            && f.entries == entries + RecordsOf(pkg, file, Chain(pkg, file, block, left))
            && |f.entries| <= 2048
            && (f.status.Mounted? <==> |Chain(pkg, file, block, left)| == left)
    decreases left
  {
    hide BlockRecords, Listing, After, RecordsOf, Chain;
    MountedListingStep(pkg, file, block, left, entries);
    RecordsOfChain(pkg, file, block, left);
    var mine := BlockRecords(pkg, file, block);
    var next := After(pkg, file, block, left);
    if next.Some? {
      ListingIsTheChain(pkg, file, next.value, left - 1, entries + mine);
      Regroup(entries, mine, RecordsOf(pkg, file, Chain(pkg, file, next.value, left - 1)));
    }
  }
}
