/**
 What a mount keeps and how it ends, against any bytes at all. What it finds in a package's own bytes
 is StfsMountContents.dfy's.
 */
module StfsMountRuns {
  import opened Options
  import opened LittleEndian
  import opened StfsLayout
  import E = StfsExtraction
  import opened StfsMount

  // ---- the invariant ----

  /** A state between a request and the next: what the parsers are handed and keep. */
  ghost predicate Between(st: State) {
    && st.request.None? && st.status.Working?
    && |st.entries| <= MAX_ENTRIES && st.defaultXex == DefaultIn(st.entries) && !st.warnings.terminal
  }

  /** After one submitted read: good, and with fewer requests to come. */
  ghost predicate Advances(st: State, st': State) {
    Inv(st') && Bound(st') < Bound(st) && st'.tableBlocks == st.tableBlocks
  }

  lemma FinishKeeps(st: State, status: Status)
    requires Between(st)
    requires status.Mounted? || status.MountedPartial?
    requires status.Mounted? ==> st.blocksRead == st.tableBlocks && !st.warnings.chainEnded
    requires status.MountedPartial? ==> st.blocksRead < st.tableBlocks && st.warnings.chainEnded
    ensures Inv(FinishMount(st, status)) && Bound(FinishMount(st, status)) <= 1
    ensures FinishMount(st, status).tableBlocks == st.tableBlocks
  {
    hide E.DataOffset, DefaultIn, IsDirectory;
  }

  lemma DirectoryKeeps(st: State, block: nat)
    requires Between(st) && st.blocksRead < st.tableBlocks && !st.warnings.chainEnded
    ensures Inv(ScheduleDirectory(st, block))
    ensures Bound(ScheduleDirectory(st, block)) <= 4 * (st.tableBlocks - st.blocksRead) - 2
    ensures ScheduleDirectory(st, block).tableBlocks == st.tableBlocks
  {
    hide E.DataOffset, DefaultIn;
  }

  lemma HashKeeps(st: State, level: nat)
    requires Between(st) && 0 < st.blocksRead < st.tableBlocks && !st.warnings.chainEnded
    requires st.hashTarget == st.currentBlock && level <= 2
    ensures Inv(ScheduleHash(st, level))
    ensures Bound(ScheduleHash(st, level)) <= 4 * (st.tableBlocks - st.blocksRead) - 1 + level
    ensures ScheduleHash(st, level).tableBlocks == st.tableBlocks
  {
    hide E.HashOffset, DefaultIn;
  }

  lemma DefaultAfterRecord(st: State, r: Record)
    requires st.defaultXex == DefaultIn(st.entries)
    ensures AddRecord(st, r).defaultXex == DefaultIn(AddRecord(st, r).entries)
  {
    assert (st.entries + [r])[..|st.entries|] == st.entries;
  }

  /** What reading the records leaves alone. */
  ghost predicate RecordsRead(st: State, st': State) {
    && st' == st.(entries := st'.entries, defaultXex := st'.defaultXex, warnings := st'.warnings, status := st'.status)
    && st'.warnings == st.warnings.(badParent := st'.warnings.badParent)
    && (st'.status == st.status || st'.status.ErrorDirectory? || st'.status.ErrorEntryOverflow?)
    && |st'.entries| <= MAX_ENTRIES && st'.defaultXex == DefaultIn(st'.entries)
  }

  lemma {:induction false} ParseRecordsKeeps(st: State, bytes: seq<byte>, i: nat)
    requires Between(st) && i <= ENTRIES_PER_BLOCK && |bytes| >= BLOCK_SIZE
    ensures RecordsRead(st, ParseRecords(st, bytes, i))
    decreases ENTRIES_PER_BLOCK - i
  {
    hide DefaultIn, IsDefaultXex, RecordAt, NameLength;
    if i < ENTRIES_PER_BLOCK && bytes[i * DIRECTORY_ENTRY_SIZE] != 0 && WellNamed(bytes, i) && |st.entries| < MAX_ENTRIES {
      DefaultAfterRecord(st, RecordAt(bytes, i));
      ParseRecordsKeeps(AddRecord(st, RecordAt(bytes, i)), bytes, i + 1);
    }
  }

  /** Of the records from the n-th on some names a parent that is not a record before it. */
  ghost predicate BadParent(entries: seq<Record>, n: nat) {
    exists k: nat :: n <= k < |entries| && entries[k].parent != 0xFFFF && entries[k].parent >= k
  }

  lemma OneParent(entries: seq<Record>, r: Record, all: seq<Record>)
    requires entries + [r] <= all
    ensures BadParent(all, |entries|) <==>
              (r.parent != 0xFFFF && r.parent >= |entries|) || BadParent(all, |entries| + 1)
  {
    assert all[|entries|] == (entries + [r])[|entries|] == r;
  }

  /** Reading a block's records warns exactly when it takes one whose parent comes no earlier than itself. */
  lemma {:induction false} ParentsWarn(st: State, bytes: seq<byte>, i: nat)
    requires i <= ENTRIES_PER_BLOCK && |bytes| >= BLOCK_SIZE
    ensures var st' := ParseRecords(st, bytes, i);
            && st.entries <= st'.entries
            && (st'.warnings.badParent <==> st.warnings.badParent || BadParent(st'.entries, |st.entries|))
    decreases ENTRIES_PER_BLOCK - i
  {
    hide IsDefaultXex, RecordAt, NameLength, BadParent;
    if i < ENTRIES_PER_BLOCK && bytes[i * DIRECTORY_ENTRY_SIZE] != 0 && WellNamed(bytes, i) && |st.entries| < MAX_ENTRIES {
      var r := RecordAt(bytes, i);
      ParentsWarn(AddRecord(st, r), bytes, i + 1);
      OneParent(st.entries, r, ParseRecords(st, bytes, i).entries);
    } else {
      NoParent(st.entries);
    }
  }

  lemma NoParent(entries: seq<Record>)
    ensures !BadParent(entries, |entries|)
  {
  }

  /**
   A mount that has its records reads the title's first bytes, a block at most, exactly when there is one,
   a file of four bytes or more; else it has ended.
   */
  lemma ProbeIsAsked(st: State, status: Status)
    requires st.request.None? && st.defaultXex == DefaultIn(st.entries)
    ensures st.defaultXex.Some? ==> st.defaultXex.value < |st.entries|
    ensures var st' := FinishMount(st, status);
            if st.defaultXex.None? || st.entries[st.defaultXex.value].length < 4 then
              st' == st.(status := status)
            else
              var r := st.entries[st.defaultXex.value];
              var at, size := E.DataOffset(st.pkg, r.startBlock), if r.length < 0x1000 then r.length else 0x1000;
              if E.InFile(st.pkg, at, size) then
                st'.status.Working? && st'.request == Some(Request(at, size, DefaultXexProbe))
                && st'.warnings.terminal == (st.warnings.terminal || status.MountedPartial?)
              else st'.status.ErrorOutOfRange? && st'.request.None?
  {
    hide E.DataOffset, E.InFile;
    DefaultIsFile(st.entries);
  }

  lemma {:induction false} DefaultIsFile(entries: seq<Record>)
    ensures var d := DefaultIn(entries);
            d.Some? ==> d.value < |entries| && IsDefaultXex(entries[d.value]) && !IsDirectory(entries[d.value])
  {
    hide IsDirectory, SameIgnoringCase;
    if entries != [] {
      DefaultIsFile(entries[..|entries| - 1]);
    }
  }

  lemma ParseDirectoryKeeps(st: State, bytes: seq<byte>)
    requires Between(st) && st.blocksRead < st.tableBlocks && !st.warnings.chainEnded
    ensures Inv(ParseDirectory(st, bytes)) && ParseDirectory(st, bytes).tableBlocks == st.tableBlocks
    ensures Bound(ParseDirectory(st, bytes)) < 4 * (st.tableBlocks - st.blocksRead) - 2
  {
    hide DefaultIn, ParseRecords, FinishMount, ScheduleHash;
    if |bytes| >= BLOCK_SIZE {
      ParseRecordsKeeps(st, bytes, 0);
      var st1 := ParseRecords(st, bytes, 0);
      if !st1.status.ErrorDirectory? && !st1.status.ErrorEntryOverflow? {
        var st2 := st1.(blocksRead := st1.blocksRead + 1);
        if st2.blocksRead >= st2.tableBlocks {
          FinishKeeps(st2, Mounted);
        } else if !(st2.pkg.totalBlocks != 0 && st2.currentBlock >= st2.pkg.totalBlocks) {
          HashKeeps(st2.(hashTarget := st2.currentBlock, secondary := RootOffset(st2.pkg)), E.FirstLevel(st2.pkg));
        }
      }
    }
  }

  lemma ParseHeaderKeeps(st: State, bytes: seq<byte>)
    requires Between(st) && st.blocksRead == 0 && st.entries == [] && !st.warnings.chainEnded
    ensures Inv(ParseHeader(st, bytes))
    ensures |bytes| >= HEADER_STRUCT_SIZE ==>
              Bound(ParseHeader(st, bytes)) <= if TableBlocks(bytes) == 0 then 0 else 4 * TableBlocks(bytes) - 2
    ensures |bytes| < HEADER_STRUCT_SIZE ==> ParseHeader(st, bytes).request.None?
  {
    hide DefaultIn, Classify, E.Be32, E.DataOffset, TableStart, ScheduleDirectory;
    if |bytes| >= HEADER_STRUCT_SIZE && IsPackage(bytes) {
      var st1 := st.(pkg := HeaderPackage(st.pkg.fileSize, bytes), tableBlocks := TableBlocks(bytes));
      if st1.tableBlocks > 0 {
        DirectoryKeeps(st1, TableStart(bytes));
      }
    }
  }

  lemma HashParsersKeep(st: State, bytes: seq<byte>, level: nat)
    requires Between(st) && 0 < st.blocksRead < st.tableBlocks && !st.warnings.chainEnded
    requires st.hashTarget == st.currentBlock && level <= 2
    ensures var st' := if level == 0 then ParseHashL0(st, bytes) else ParseUpperHash(st, bytes, level);
            && Inv(st') && st'.tableBlocks == st.tableBlocks
            && Bound(st') < 4 * (st.tableBlocks - st.blocksRead) - 1 + level
  {
    hide DefaultIn, FinishMount, ScheduleHash, ScheduleDirectory, E.HashInfo, E.Record, Probed;
    var info := E.HashInfo(bytes, E.Record(st.hashTarget, level));
    if info.Some? {
      if level > 0 {
        HashKeeps(st.(secondary := E.ActiveOffset(info.value)), level - 1);
      } else if E.NextInChain(info.value) == E.END_OF_CHAIN {
        FinishKeeps(st.(warnings := st.warnings.(chainEnded := true)), MountedPartial);
      } else {
        DirectoryKeeps(st, E.NextInChain(info.value));
      }
    }
  }

  /** Any bytes at all: every read after the header leaves a good state and fewer requests to come. */
  lemma SubmitAdvances(st: State, bytes: seq<byte>)
    requires Inv(st) && st.request.Some? && !st.request.value.kind.Header?
    ensures Advances(st, Submit(st, bytes))
  {
    hide DefaultIn, ParseDirectory, ParseHashL0, ParseUpperHash, Probed, Classify;
    var st1 := st.(request := None);
    match st.request.value.kind
    case Directory => ParseDirectoryKeeps(st1, bytes);
    case HashL2 => HashParsersKeep(st1, bytes, 2);
    case HashL1 => HashParsersKeep(st1, bytes, 1);
    case HashL0 => HashParsersKeep(st1, bytes, 0);
    case DefaultXexProbe =>
  }

  lemma BeginKeeps(fileSize: nat)
    ensures Inv(Begin(fileSize))
    ensures Begin(fileSize).request.Some? ==> Begin(fileSize).request.value.kind.Header?
  {
  }

  // ---- whole runs ----

  /** A run handed the given reads, whatever is in them. */
  function Run(st: State, handed: seq<seq<byte>>): State
    decreases |handed|
  {
    if handed == [] then st else Run(Submit(st, handed[0]), handed[1..])
  }

  lemma {:induction false} RunStops(st: State, handed: seq<seq<byte>>)
    requires Inv(st) && (st.request.Some? ==> !st.request.value.kind.Header?)
    ensures Inv(Run(st, handed))
    ensures |handed| >= Bound(st) ==> Run(st, handed).request.None?
    decreases |handed|
  {
    hide Inv, Bound, Submit;
    assert st.request.Some? && |handed| == 0 ==> |handed| < Bound(st) by { PendingIsBounded(st); }
    if handed != [] {
      if st.request.Some? {
        SubmitAdvances(st, handed[0]);
        AfterHeader(st, handed[0]);
      } else {
        assert Submit(st, handed[0]) == st by { NothingPending(st, handed[0]); }
        assert Bound(st) == 0 by { NothingPending(st, handed[0]); }
      }
      RunStops(Submit(st, handed[0]), handed[1..]);
    }
  }

  lemma PendingIsBounded(st: State)
    requires Inv(st) && (st.request.Some? ==> !st.request.value.kind.Header?)
    ensures st.request.Some? ==> Bound(st) > 0
  {
  }

  lemma NothingPending(st: State, bytes: seq<byte>)
    requires st.request.None?
    ensures Submit(st, bytes) == st && Bound(st) == 0
  {
  }

  lemma {:induction false} ParseRecordsAsksNothing(st: State, bytes: seq<byte>, i: nat)
    requires st.request.None? && i <= ENTRIES_PER_BLOCK && |bytes| >= BLOCK_SIZE
    ensures ParseRecords(st, bytes, i).request.None?
    decreases ENTRIES_PER_BLOCK - i
  {
    hide RecordAt, NameLength;
    if i < ENTRIES_PER_BLOCK && bytes[i * DIRECTORY_ENTRY_SIZE] != 0 && WellNamed(bytes, i) && |st.entries| < MAX_ENTRIES {
      ParseRecordsAsksNothing(AddRecord(st, RecordAt(bytes, i)), bytes, i + 1);
    }
  }

  ghost predicate PastHeader(st: State) {
    st.request.Some? ==> !st.request.value.kind.Header?
  }

  lemma ScheduleIsPastHeader(st: State, offset: nat, size: nat, kind: Kind)
    requires !kind.Header?
    ensures PastHeader(Schedule(st, offset, size, kind))
  {
    hide E.InFile;
  }

  lemma FinishIsPastHeader(st: State, status: Status)
    ensures PastHeader(FinishMount(st, status))
  {
    hide E.DataOffset, IsDirectory, Schedule, E.Min;
    if Probed(st.entries, st.defaultXex) {
      var r := st.entries[st.defaultXex.value];
      ScheduleIsPastHeader(
        st.(status := status, warnings := st.warnings.(partialProbe := st.warnings.partialProbe || status.MountedPartial?)),
        E.DataOffset(st.pkg, r.startBlock), E.Min(r.length, BLOCK_SIZE), DefaultXexProbe);
    }
  }

  lemma HashIsPastHeader(st: State, block: nat, level: nat)
    ensures PastHeader(ScheduleHash(st, level)) && PastHeader(BeginHash(st, block))
  {
    hide E.HashOffset, E.InFile, E.FirstLevel;
  }

  lemma DirectoryIsPastHeader(st: State, bytes: seq<byte>)
    requires st.request.None?
    ensures PastHeader(ParseDirectory(st, bytes))
  {
    hide ParseRecords, BeginHash, FinishMount;
    if |bytes| >= BLOCK_SIZE {
      ParseRecordsAsksNothing(st, bytes, 0);
      var st1 := ParseRecords(st, bytes, 0);
      var st2 := st1.(blocksRead := st1.blocksRead + 1);
      FinishIsPastHeader(st2, Mounted);
      HashIsPastHeader(st2, st2.currentBlock, 0);
    }
  }

  lemma HeaderIsPastHeader(st: State, bytes: seq<byte>)
    requires st.request.None?
    ensures PastHeader(ParseHeader(st, bytes))
  {
    hide FinishMount, Classify, TableStart, TableBlocks, HeaderPackage, E.DataOffset, E.InFile, E.Be32;
    if |bytes| >= HEADER_STRUCT_SIZE {
      FinishIsPastHeader(st.(pkg := HeaderPackage(st.pkg.fileSize, bytes), tableBlocks := TableBlocks(bytes)), Mounted);
    }
  }

  lemma HashParsersArePastHeader(st: State, bytes: seq<byte>, level: nat)
    requires st.request.None? && level <= 2
    ensures PastHeader(if level == 0 then ParseHashL0(st, bytes) else ParseUpperHash(st, bytes, level))
  {
    hide FinishMount, ScheduleHash, E.HashInfo, E.Record, E.DataOffset, E.InFile;
    var info := E.HashInfo(bytes, E.Record(st.hashTarget, level));
    if info.Some? {
      FinishIsPastHeader(st.(warnings := st.warnings.(chainEnded := true)), MountedPartial);
      if level > 0 {
        HashIsPastHeader(st.(secondary := E.ActiveOffset(info.value)), 0, level - 1);
      }
    }
  }

  /** No parser asks for the header again. */
  lemma AfterHeader(st: State, bytes: seq<byte>)
    requires st.request.Some?
    ensures PastHeader(Submit(st, bytes))
  {
    hide ParseHeader, ParseDirectory, ParseUpperHash, ParseHashL0, Classify;
    var st1 := st.(request := None);
    HeaderIsPastHeader(st1, bytes);
    DirectoryIsPastHeader(st1, bytes);
    HashParsersArePastHeader(st1, bytes, 2);
    HashParsersArePastHeader(st1, bytes, 1);
    HashParsersArePastHeader(st1, bytes, 0);
  }

  /** The most reads a mount can ask for, by the header it is handed first. */
  function MostReads(header: seq<byte>): nat {
    if |header| < HEADER_STRUCT_SIZE || TableBlocks(header) == 0 then 1 else 4 * TableBlocks(header) - 1
  }

  /** A mount stops after at most 4 n - 1 reads, n being the directory blocks its header announces. */
  lemma MountStops(fileSize: nat, handed: seq<seq<byte>>)
    requires handed != [] && |handed| >= MostReads(handed[0])
    ensures Inv(Run(Begin(fileSize), handed)) && Run(Begin(fileSize), handed).request.None?
  {
    hide Inv, Bound, Submit, Begin, TableBlocks;
    var st := Begin(fileSize);
    BeginKeeps(fileSize);
    var st1 := Submit(st, handed[0]);
    if st.request.Some? {
      HeaderRead(st, handed[0]);
      AfterHeader(st, handed[0]);
    } else {
      NothingPending(st, handed[0]);
    }
    RunStops(st1, handed[1..]);
  }

  lemma HeaderRead(st: State, bytes: seq<byte>)
    requires Inv(st) && st.request.Some? && st.request.value.kind.Header?
    ensures Inv(Submit(st, bytes)) && Bound(Submit(st, bytes)) + 1 <= MostReads(bytes)
  {
    hide ParseHeader, TableBlocks;
    if HEADER_STRUCT_SIZE <= |bytes| <= E.IO_CAPACITY {
      ParseHeaderKeeps(st.(request := None), bytes);
    }
  }

  /** A mount that has ended stays as it is until the next begin. */
  lemma {:induction false} EndedStays(st: State, handed: seq<seq<byte>>)
    requires st.request.None?
    ensures Run(st, handed) == st
    decreases |handed|
  {
    if handed != [] {
      EndedStays(Submit(st, handed[0]), handed[1..]);
    }
  }
}
