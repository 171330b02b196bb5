/**
 The mount of render360_xenia_core.cpp as it is written: one state updated in place, and a fixed
 table of 2048 entries filled record by record. Each method is proved to do to the fields what
 StfsMount.dfy says it does to the state; then the driver loop of wasm-core.js is proved to end
 as the package says.
 */
module StfsMounter {
  import opened Options
  import opened LittleEndian
  import opened StfsLayout
  import E = StfsExtraction
  import opened StfsMount
  import opened StfsMountRuns
  import opened StfsMountContents

  class Mounter {
    const table: array<Record>
    var entryCount: nat
    var status: Status
    var pkg: E.Package
    var tableBlocks: nat
    var currentBlock: nat
    var blocksRead: nat
    var defaultXex: Option<nat>
    var defaultKind: nat
    var hashTarget: nat
    var secondary: nat
    var warnings: Warnings

    var pending: bool
    var requestOffset: nat
    var requestSize: nat
    var requestKind: Kind

    constructor ()
      ensures Shape() && fresh(table) && Abs() == Fresh(0)
    {
      table := new Record[MAX_ENTRIES](_ => Record([], 0, 0, 0, 0, NO_PARENT, 0));
      entryCount, status, pkg := 0, Idle, E.Package(0, 0, 0, false, false);
      tableBlocks, currentBlock, blocksRead, defaultXex, defaultKind := 0, 0, 0, None, 0;
      hashTarget, secondary, warnings := 0, 0, NO_WARNINGS;
      pending, requestOffset, requestSize, requestKind := false, 0, 0, Header;
    }

    predicate Shape()
      reads this
    {
      table.Length == MAX_ENTRIES && entryCount <= MAX_ENTRIES
    }

    /** The fields as one state. */
    ghost function Abs(): State
      requires Shape()
      reads this, table
    {
      State(status, pkg, tableBlocks, currentBlock, blocksRead, table[..entryCount], defaultXex, defaultKind,
            hashTarget, secondary,
            if pending then Some(Request(requestOffset, requestSize, requestKind)) else None, warnings)
    }

    method Fail(error: Status)
      requires Shape()
      modifies this
      ensures Shape() && Abs() == StfsMount.Fail(old(Abs()), error)
    {
      status, pending, requestSize, requestOffset := error, false, 0, 0;
    }

    method Schedule(offset: nat, size: nat, kind: Kind)
      requires Shape()
      modifies this
      ensures Shape() && Abs() == StfsMount.Schedule(old(Abs()), offset, size, kind)
    {
      if size == 0 || size > E.IO_CAPACITY || offset > pkg.fileSize || size > pkg.fileSize - offset {
        Fail(ErrorOutOfRange);
        return;
      }
      requestOffset, requestSize, requestKind, pending := offset, size, kind, true;
      status := Working;
    }

    method RequestHash(level: nat)
      requires Shape() && level <= 2
      modifies this
      ensures Shape() && Abs() == ScheduleHash(old(Abs()), level)
    {
      hide E.HashOffset;
      Schedule(E.HashOffset(pkg, hashTarget, level) + secondary, BLOCK_SIZE,
               if level == 0 then HashL0 else if level == 1 then HashL1 else HashL2);
    }

    method BeginHashResolution(block: nat)
      requires Shape()
      modifies this
      ensures Shape() && Abs() == BeginHash(old(Abs()), block)
    {
      hide ScheduleHash;
      if block >= pkg.totalBlocks && pkg.totalBlocks != 0 {
        Fail(ErrorHashChain);
        return;
      }
      hashTarget := block;
      if pkg.readOnly {
        secondary := 0;
        RequestHash(0);
        return;
      }
      secondary := if pkg.rootSecond then BLOCK_SIZE else 0;
      if pkg.totalBlocks > PER_L1 {
        RequestHash(2);
      } else if pkg.totalBlocks > PER_L0 {
        RequestHash(1);
      } else {
        RequestHash(0);
      }
    }

    method FinishMount(end: Status)
      requires Shape()
      modifies this
      ensures Shape() && Abs() == StfsMount.FinishMount(old(Abs()), end)
    {
      hide E.DataOffset, IsDirectory;
      if defaultXex.Some? && defaultXex.value < entryCount {
        var r := table[defaultXex.value];
        assert r == table[..entryCount][defaultXex.value];
        if !IsDirectory(r) && r.length >= 4 {
          var partial := end.MountedPartial?;
          warnings := warnings.(partialProbe := warnings.partialProbe || partial);
          status := end;
          assert Probed(old(Abs()).entries, old(Abs()).defaultXex);
          assert Abs() == old(Abs()).(status := end, warnings := warnings);
          Schedule(E.DataOffset(pkg, r.startBlock), if r.length < BLOCK_SIZE then r.length else BLOCK_SIZE, DefaultXexProbe);
          if pending && partial {
            warnings := warnings.(terminal := true);
          }
          return;
        }
      }
      status, pending := end, false;
    }

    method ParseUpperHash(bytes: seq<byte>, level: nat)
      requires Shape() && 1 <= level <= 2
      modifies this
      ensures Shape() && Abs() == StfsMount.ParseUpperHash(old(Abs()), bytes, level)
    {
      hide ScheduleHash, E.HashInfo;
      var info := E.HashInfo(bytes, E.Record(hashTarget, level));
      if info.None? {
        Fail(ErrorHashChain);
        return;
      }
      secondary := E.ActiveOffset(info.value);
      RequestHash(level - 1);
    }

    method ParseHashL0(bytes: seq<byte>)
      requires Shape()
      modifies this
      ensures Shape() && Abs() == StfsMount.ParseHashL0(old(Abs()), bytes)
    {
      hide StfsMount.FinishMount, E.HashInfo, E.DataOffset;
      var info := E.HashInfo(bytes, E.Record(hashTarget, 0));
      if info.None? {
        Fail(ErrorHashChain);
        return;
      }
      var next := E.NextInChain(info.value);
      if next == E.END_OF_CHAIN {
        warnings := warnings.(chainEnded := true);
        FinishMount(MountedPartial);
        return;
      }
      currentBlock := next;
      Schedule(E.DataOffset(pkg, next), BLOCK_SIZE, Directory);
    }

    method ParseDefaultXexProbe(bytes: seq<byte>)
      requires Shape()
      modifies this
      ensures Shape() && Abs() == StfsMount.ParseDefaultXexProbe(old(Abs()), bytes)
    {
      hide Classify;
      defaultKind := Classify(bytes);
      if defaultKind != 1 && defaultKind != 2 {
        warnings := warnings.(notXex := true);
      }
      status := if warnings.terminal then MountedPartial else Mounted;
      warnings := warnings.(terminal := false);
      pending := false;
    }

    /** One record taken into the table. */
    method AddRecord(r: Record)
      requires Shape() && entryCount < MAX_ENTRIES
      modifies this, table
      ensures Shape() && Abs() == StfsMount.AddRecord(old(Abs()), r) && status == old(status)
    {
      hide IsDefaultXex;
      table[entryCount] := r;
      if r.parent != NO_PARENT && r.parent >= entryCount {
        warnings := warnings.(badParent := true);
      }
      if IsDefaultXex(r) {
        defaultXex := Some(entryCount);
      }
      entryCount := entryCount + 1;
      assert table[..entryCount] == old(table[..entryCount]) + [r];
    }

    /** The records of a block, taken into the table until one ends the block or is refused. */
    method ReadRecords(bytes: seq<byte>)
      requires Shape() && status.Working? && |bytes| >= BLOCK_SIZE
      modifies this, table
      ensures Shape() && Abs() == ParseRecords(old(Abs()), bytes, 0)
    {
      hide RecordAt, NameLength, IsDefaultXex, StfsMount.AddRecord;
      var i := 0;
      while i < ENTRIES_PER_BLOCK
        invariant 0 <= i <= ENTRIES_PER_BLOCK && Shape() && status.Working?
        invariant ParseRecords(Abs(), bytes, i) == ParseRecords(old(Abs()), bytes, 0)
      {
        if bytes[i * DIRECTORY_ENTRY_SIZE] == 0 {
          return;
        }
        if !WellNamed(bytes, i) {
          Fail(ErrorDirectory);
          return;
        }
        if entryCount >= MAX_ENTRIES {
          Fail(ErrorEntryOverflow);
          return;
        }
        AddRecord(RecordAt(bytes, i));
        i := i + 1;
      }
    }

    method ParseDirectory(bytes: seq<byte>)
      requires Shape() && status.Working?
      modifies this, table
      ensures Shape() && Abs() == StfsMount.ParseDirectory(old(Abs()), bytes)
    {
      hide ParseRecords, StfsMount.FinishMount, BeginHash;
      if |bytes| < BLOCK_SIZE {
        Fail(ErrorShortRead);
        return;
      }
      ReadRecords(bytes);
      if status.ErrorDirectory? || status.ErrorEntryOverflow? {
        return;
      }
      blocksRead := blocksRead + 1;
      if blocksRead >= tableBlocks {
        FinishMount(Mounted);
        return;
      }
      BeginHashResolution(currentBlock);
    }

    method ParseHeader(bytes: seq<byte>)
      requires Shape()
      modifies this
      ensures Shape() && Abs() == StfsMount.ParseHeader(old(Abs()), bytes)
    {
      hide Classify, E.Be32, TableStart, StfsMount.FinishMount, E.DataOffset;
      if |bytes| < HEADER_STRUCT_SIZE {
        Fail(ErrorShortRead);
        return;
      }
      if !IsPackage(bytes) {
        Fail(ErrorMagic);
        return;
      }
      pkg, tableBlocks := HeaderPackage(pkg.fileSize, bytes), TableBlocks(bytes);
      if pkg.headerSize < XCONTENT_HEADER_SIZE || pkg.headerSize > pkg.fileSize {
        Fail(ErrorHeader);
        return;
      }
      if E.Be32(bytes, 0x3A9) != 0 {
        Fail(ErrorUnsupportedVolume);
        return;
      }
      if bytes[0x379] != VOLUME_DESCRIPTOR_SIZE {
        Fail(ErrorHeader);
        return;
      }
      if tableBlocks == 0 {
        FinishMount(Mounted);
        return;
      }
      if pkg.totalBlocks != 0 && TableStart(bytes) >= pkg.totalBlocks {
        Fail(ErrorHeader);
        return;
      }
      currentBlock := TableStart(bytes);
      Schedule(E.DataOffset(pkg, currentBlock), BLOCK_SIZE, Directory);
    }

    method ClearRequest()
      requires Shape()
      modifies `pending, `requestOffset, `requestSize, `requestKind
      ensures !pending
    {
      pending, requestOffset, requestSize, requestKind := false, 0, 0, Header;
    }

    method Reset()
      requires Shape()
      modifies this
      ensures Shape() && Abs() == Fresh(0)
    {
      ClearRequest();
      entryCount, status, pkg := 0, Idle, E.Package(0, 0, 0, false, false);
      tableBlocks, currentBlock, blocksRead, defaultXex, defaultKind := 0, 0, 0, None, 0;
      hashTarget, secondary, warnings := 0, 0, NO_WARNINGS;
      assert table[..entryCount] == [];
    }

    method Begin(fileSize: nat)
      requires Shape()
      modifies this
      ensures Shape() && Abs() == StfsMount.Begin(fileSize)
    {
      Reset();
      pkg := E.Package(fileSize, 0, 0, false, false);
      if fileSize < HEADER_STRUCT_SIZE {
        Fail(ErrorTooSmall);
        return;
      }
      Schedule(0, HEADER_STRUCT_SIZE, Header);
    }

    method SubmitRead(bytes: seq<byte>)
      requires Shape() && (pending ==> status.Working?)
      modifies this, table
      ensures Shape() && Abs() == Submit(old(Abs()), bytes)
    {
      hide StfsMount.ParseHeader, StfsMount.ParseDirectory, StfsMount.ParseUpperHash, StfsMount.ParseHashL0,
        StfsMount.ParseDefaultXexProbe;
      if !pending {
        return;
      }
      var expected := requestSize;
      pending := false;
      if |bytes| < expected || |bytes| > E.IO_CAPACITY {
        Fail(ErrorShortRead);
        return;
      }
      match requestKind
      case Header => ParseHeader(bytes);
      case Directory => ParseDirectory(bytes);
      case HashL2 => ParseUpperHash(bytes, 2);
      case HashL1 => ParseUpperHash(bytes, 1);
      case HashL0 => ParseHashL0(bytes);
      case DefaultXexProbe => ParseDefaultXexProbe(bytes);
    }
  }

  datatype Outcome = Ended(requests: nat) | TooManyRequests | InvalidRequest | ShortRead

  /** The directory blocks the package's header announces. */
  function Announced(file: seq<byte>): nat {
    if |file| < HEADER_STRUCT_SIZE then 0 else TableBlocks(file[..HEADER_STRUCT_SIZE])
  }

  /**
   mountStfs of wasm-core.js, up to the default.xex extraction: serves every request from the
   file. It ends as the package says, with the listing the package says; it gives up only when the
   header announces so many directory blocks that 4 n - 1 reads are more than allowed.
   */
  method MountStfs(m: Mounter, file: seq<byte>, maxRequests: nat) returns (out: Outcome)
    requires m.Shape()
    modifies m, m.table
    ensures m.Shape() && (out.Ended? || out.TooManyRequests?)
    ensures out.Ended? ==> Final(m.status, m.table[..m.entryCount]) == MountOf(file) && out.requests <= maxRequests
    ensures out.Ended? && (m.status.Mounted? || m.status.MountedPartial?) ==>
              |file| >= HEADER_STRUCT_SIZE && m.pkg == HeaderPackage(|file|, file[..HEADER_STRUCT_SIZE])
    ensures out.Ended? ==> m.pkg.fileSize == |file| && m.defaultXex == DefaultIn(m.table[..m.entryCount])
    ensures out.TooManyRequests? ==> maxRequests == 0 || maxRequests < 4 * Announced(file) - 1
  {
    hide Inv, Bound, Submit, StfsMount.Begin, Meaning, AsksRight, MountOf, TableBlocks, HeaderPackage;
    m.Begin(|file|);
    BeginMeans(file);
    BeginKeeps(|file|);
    var requests := 0;
    ghost var most := if Announced(file) == 0 then 1 else 4 * Announced(file) - 1;
    if m.pending {
      RequestIsInside(file, m.Abs());
    } else {
      NothingPending(m.Abs(), []);
      BeginsWithTheHeader(|file|);
    }
    while m.pending
      invariant m.Shape() && Inv(m.Abs()) && AsksRight(m.Abs()) && m.pkg.fileSize == |file|
      invariant Meaning(file, m.Abs()) == MountOf(file)
      invariant requests <= maxRequests
      invariant GoesOn(m.Abs()) && !(m.pending && m.requestKind.Header?) ==>
        |file| >= HEADER_STRUCT_SIZE && m.pkg == HeaderPackage(|file|, file[..HEADER_STRUCT_SIZE])
      invariant if m.pending && m.requestKind.Header? then requests == 0 && |file| >= HEADER_STRUCT_SIZE
                else requests + Bound(m.Abs()) <= most
      decreases if m.pending && m.requestKind.Header? then 1 else 0, Bound(m.Abs())
    {
      ghost var st := m.Abs();
      RequestIsInside(file, st);
      if requests + 1 > maxRequests {
        m.Reset();
        return TooManyRequests;
      }
      requests := requests + 1;
      if m.requestSize == 0 || m.requestSize > E.IO_CAPACITY {
        return InvalidRequest;
      }
      var staged := file[Min(m.requestOffset, |file|)..Min(m.requestOffset + m.requestSize, |file|)];
      if |staged| != m.requestSize {
        return ShortRead;
      }
      assert staged == Served(file, st.request.value);
      SubmitKeepsMeaning(file, st);
      AfterHeader(st, staged);
      if m.requestKind.Header? {
        HeaderRead(st, staged);
        HeaderBytes(file, st);
      } else {
        SubmitAdvances(st, staged);
      }
      m.SubmitRead(staged);
    }
    EndedMeaning(file, m.Abs());
    out := Ended(requests);
  }

  function Min(a: nat, b: nat): nat {
    if a < b then a else b
  }

  lemma RequestIsInside(file: seq<byte>, st: State)
    requires Inv(st) && st.pkg.fileSize == |file| && st.request.Some?
    ensures st.status.Working? && st.request.value.offset + st.request.value.size <= |file|
    ensures 0 < st.request.value.size <= E.IO_CAPACITY
    ensures st.request.value.kind.Header? ==> st.request.value.size == HEADER_STRUCT_SIZE
    ensures !st.request.value.kind.Header? ==> Bound(st) > 0
  {
  }

  /** A mount that does not ask for the header has failed. */
  lemma BeginsWithTheHeader(fileSize: nat)
    ensures Begin(fileSize).request.None? ==> !GoesOn(Begin(fileSize))
  {
  }

  lemma HeaderBytes(file: seq<byte>, st: State)
    requires Inv(st) && AsksRight(st) && st.pkg.fileSize == |file| && st.request.Some? && st.request.value.kind.Header?
    ensures |file| >= HEADER_STRUCT_SIZE
    ensures Served(file, st.request.value) == file[..HEADER_STRUCT_SIZE]
    ensures MostReads(Served(file, st.request.value)) == if Announced(file) == 0 then 1 else 4 * Announced(file) - 1
  {
    hide TableBlocks;
  }

  lemma EndedMeaning(file: seq<byte>, st: State)
    requires |file| == st.pkg.fileSize && Inv(st) && st.request.None?
    ensures Meaning(file, st) == Final(st.status, st.entries) && st.defaultXex == DefaultIn(st.entries)
  {
  }
}
