/**
 Mounting an STFS package as render360_xenia_core.cpp does it: read the header, then the directory
 blocks one after the other along the file-table chain, then the first bytes of default.xex. Like
 an extraction it asks for a range, is handed the bytes, and asks again. This is the machine as a
 value; StfsMounter.dfy is the one that updates its fields.
 */
module StfsMount {
  import opened Options
  import opened LittleEndian
  import opened StfsLayout
  import E = StfsExtraction

  const HEADER_STRUCT_SIZE := 0x971A
  const XCONTENT_HEADER_SIZE := 0x344
  const VOLUME_DESCRIPTOR_SIZE := 0x24
  const MAX_ENTRIES := 2048
  const DIRECTORY_ENTRY_SIZE := 0x40
  const ENTRIES_PER_BLOCK := 0x40
  const NAME_BYTES := 40
  const NO_PARENT := 0xFFFF

  datatype Status =
    | Idle | Working | Mounted | MountedPartial
    | ErrorTooSmall | ErrorMagic | ErrorHeader | ErrorUnsupportedVolume | ErrorOutOfRange
    | ErrorShortRead | ErrorEntryOverflow | ErrorDirectory | ErrorHashChain

  datatype Kind = Header | Directory | HashL2 | HashL1 | HashL0 | DefaultXexProbe

  datatype Request = Request(offset: nat, size: nat, kind: Kind)

  datatype Record = Record(
    name: seq<byte>, flags: nat, validBlocks: nat, allocatedBlocks: nat, startBlock: nat, parent: nat, length: nat)

  /** The warning bits; terminal is bit 31, which remembers a partial mount while the probe is read. */
  datatype Warnings = Warnings(chainEnded: bool, partialProbe: bool, notXex: bool, badParent: bool, terminal: bool)

  datatype State = State(
    status: Status,
    pkg: E.Package,
    tableBlocks: nat,
    currentBlock: nat,
    blocksRead: nat,
    entries: seq<Record>,
    defaultXex: Option<nat>,
    defaultKind: nat,
    hashTarget: nat,
    secondary: nat,
    request: Option<Request>,
    warnings: Warnings)

  const NO_WARNINGS := Warnings(false, false, false, false, false)

  function Fresh(fileSize: nat): State {
    State(Idle, E.Package(fileSize, 0, 0, false, false), 0, 0, 0, [], None, 0, 0, 0, None, NO_WARNINGS)
  }

  // ---- reading bytes ----

  function Le24(bytes: seq<byte>, at: nat): nat
    requires at + 3 <= |bytes|
  {
    var a: nat, b: nat, c: nat := bytes[at], bytes[at + 1], bytes[at + 2];
    a + 0x100 * b + 0x1_0000 * c
  }

  function Le16(bytes: seq<byte>, at: nat): nat
    requires at + 2 <= |bytes|
  {
    var a: nat, b: nat := bytes[at], bytes[at + 1];
    a + 0x100 * b
  }

  function Be16(bytes: seq<byte>, at: nat): nat
    requires at + 2 <= |bytes|
  {
    var a: nat, b: nat := bytes[at], bytes[at + 1];
    0x100 * a + b
  }

  function StartsWith(bytes: seq<byte>, magic: seq<byte>): bool {
    |magic| <= |bytes| && bytes[..|magic|] == magic
  }

  /** classify_container. */
  function Classify(bytes: seq<byte>): nat {
    if |bytes| < 4 || |bytes| > E.IO_CAPACITY then 0
    else if StartsWith(bytes, [0x58, 0x45, 0x58, 0x32]) then 2
    else if StartsWith(bytes, [0x58, 0x45, 0x58, 0x31]) then 1
    else if StartsWith(bytes, [0x4C, 0x49, 0x56, 0x45]) then 10
    else if StartsWith(bytes, [0x50, 0x49, 0x52, 0x53]) then 11
    else if StartsWith(bytes, [0x43, 0x4F, 0x4E]) then 12
    else if StartsWith(bytes, [0x7F, 0x45, 0x4C, 0x46]) then 20
    else 0
  }

  // ---- the machine ----

  function Fail(st: State, status: Status): State {
    st.(status := status, request := None)
  }

  function Schedule(st: State, offset: nat, size: nat, kind: Kind): State {
    if E.InFile(st.pkg, offset, size) then st.(status := Working, request := Some(Request(offset, size, kind)))
    else Fail(st, ErrorOutOfRange)
  }

  function ScheduleDirectory(st: State, block: nat): State {
    Schedule(st.(currentBlock := block), E.DataOffset(st.pkg, block), BLOCK_SIZE, Directory)
  }

  function ScheduleHash(st: State, level: nat): State {
    Schedule(st, E.HashOffset(st.pkg, st.hashTarget, level) + st.secondary, BLOCK_SIZE,
             if level == 0 then HashL0 else if level == 1 then HashL1 else HashL2)
  }

  function RootOffset(pkg: E.Package): nat {
    if !pkg.readOnly && pkg.rootSecond then BLOCK_SIZE else 0
  }

  function BeginHash(st: State, block: nat): State {
    if st.pkg.totalBlocks != 0 && block >= st.pkg.totalBlocks then Fail(st, ErrorHashChain)
    else ScheduleHash(st.(hashTarget := block, secondary := RootOffset(st.pkg)), E.FirstLevel(st.pkg))
  }

  predicate IsDirectory(r: Record) {
    r.flags / 0x80 % 2 == 1
  }

  /** Whether default.xex is worth probing. */
  function Probed(entries: seq<Record>, defaultXex: Option<nat>): bool {
    && defaultXex.Some? && defaultXex.value < |entries|
    && !IsDirectory(entries[defaultXex.value]) && entries[defaultXex.value].length >= 4
  }

  function FinishMount(st: State, status: Status): State {
    if Probed(st.entries, st.defaultXex) then
      var r := st.entries[st.defaultXex.value];
      var partial := status.MountedPartial?;
      var st1 := Schedule(st.(status := status, warnings := st.warnings.(partialProbe := st.warnings.partialProbe || partial)),
                          E.DataOffset(st.pkg, r.startBlock), E.Min(r.length, BLOCK_SIZE), DefaultXexProbe);
      if st1.request.Some? then st1.(warnings := st1.warnings.(terminal := st1.warnings.terminal || partial)) else st1
    else st.(status := status, request := None)
  }

  function ParseUpperHash(st: State, bytes: seq<byte>, level: nat): State
    requires 1 <= level <= 2
  {
    match E.HashInfo(bytes, E.Record(st.hashTarget, level))
    case None => Fail(st, ErrorHashChain)
    case Some(info) => ScheduleHash(st.(secondary := E.ActiveOffset(info)), level - 1)
  }

  function ParseHashL0(st: State, bytes: seq<byte>): State {
    match E.HashInfo(bytes, E.Record(st.hashTarget, 0))
    case None => Fail(st, ErrorHashChain)
    case Some(info) =>
      if E.NextInChain(info) == E.END_OF_CHAIN
      then FinishMount(st.(warnings := st.warnings.(chainEnded := true)), MountedPartial)
      else ScheduleDirectory(st, E.NextInChain(info))
  }

  function ParseDefaultXexProbe(st: State, bytes: seq<byte>): State {
    var kind := Classify(bytes);
    st.(defaultKind := kind,
        status := if st.warnings.terminal then MountedPartial else Mounted,
        request := None,
        warnings := st.warnings.(notXex := st.warnings.notXex || (kind != 1 && kind != 2), terminal := false))
  }

  // ---- a directory block ----

  const DEFAULT_XEX: seq<byte> := [0x64, 0x65, 0x66, 0x61, 0x75, 0x6C, 0x74, 0x2E, 0x78, 0x65, 0x78]

  function Lower(c: byte): byte {
    if 0x41 <= c <= 0x5A then c + 0x20 else c
  }

  predicate SameIgnoringCase(a: seq<byte>, b: seq<byte>) {
    |a| == |b| && forall i :: 0 <= i < |a| ==> Lower(a[i]) == Lower(b[i])
  }

  predicate IsDefaultXex(r: Record) {
    !IsDirectory(r) && r.parent == NO_PARENT && SameIgnoringCase(r.name, DEFAULT_XEX)
  }

  function NameLength(bytes: seq<byte>, i: nat): nat
    requires i < ENTRIES_PER_BLOCK && |bytes| >= BLOCK_SIZE
  {
    bytes[i * DIRECTORY_ENTRY_SIZE + 0x28] % 0x40
  }

  predicate WellNamed(bytes: seq<byte>, i: nat)
    requires i < ENTRIES_PER_BLOCK && |bytes| >= BLOCK_SIZE
  {
    0 < NameLength(bytes, i) <= NAME_BYTES
  }

  function RecordAt(bytes: seq<byte>, i: nat): Record
    requires i < ENTRIES_PER_BLOCK && |bytes| >= BLOCK_SIZE
  {
    var at := i * DIRECTORY_ENTRY_SIZE;
    Record(bytes[at..at + NameLength(bytes, i)], bytes[at + 0x28], Le24(bytes, at + 0x29), Le24(bytes, at + 0x2C),
           Le24(bytes, at + 0x2F), Be16(bytes, at + 0x32), E.Be32(bytes, at + 0x34))
  }

  /** One record taken into the table. */
  function AddRecord(st: State, r: Record): State {
    st.(entries := st.entries + [r],
        defaultXex := if IsDefaultXex(r) then Some(|st.entries|) else st.defaultXex,
        warnings := st.warnings.(badParent := st.warnings.badParent || (r.parent != NO_PARENT && r.parent >= |st.entries|)))
  }

  /** The records of a directory block from the i-th on, up to a name that starts with zero. */
  function ParseRecords(st: State, bytes: seq<byte>, i: nat): State
    requires i <= ENTRIES_PER_BLOCK && |bytes| >= BLOCK_SIZE
    decreases ENTRIES_PER_BLOCK - i
  {
    if i == ENTRIES_PER_BLOCK || bytes[i * DIRECTORY_ENTRY_SIZE] == 0 then st
    else if !WellNamed(bytes, i) then Fail(st, ErrorDirectory)
    else if |st.entries| >= MAX_ENTRIES then Fail(st, ErrorEntryOverflow)
    else ParseRecords(AddRecord(st, RecordAt(bytes, i)), bytes, i + 1)
  }

  function ParseDirectory(st: State, bytes: seq<byte>): State {
    if |bytes| < BLOCK_SIZE then Fail(st, ErrorShortRead)
    else
      var st1 := ParseRecords(st, bytes, 0);
      if st1.status.ErrorDirectory? || st1.status.ErrorEntryOverflow? then st1
      else
        var st2 := st1.(blocksRead := st1.blocksRead + 1);
        if st2.blocksRead >= st2.tableBlocks then FinishMount(st2, Mounted)
        else BeginHash(st2, st2.currentBlock)
  }

  // ---- the header ----

  predicate IsPackage(bytes: seq<byte>) {
    10 <= Classify(bytes) <= 12
  }

  function HeaderPackage(fileSize: nat, bytes: seq<byte>): E.Package
    requires |bytes| >= HEADER_STRUCT_SIZE
  {
    E.Package(fileSize, E.Be32(bytes, 0x340), E.Be32(bytes, 0x395), bytes[0x37B] % 2 == 1, bytes[0x37B] / 2 % 2 == 1)
  }

  function TableBlocks(bytes: seq<byte>): nat
    requires |bytes| >= HEADER_STRUCT_SIZE
  {
    Le16(bytes, 0x37C)
  }

  function TableStart(bytes: seq<byte>): nat
    requires |bytes| >= HEADER_STRUCT_SIZE
  {
    Le24(bytes, 0x37E)
  }

  function ParseHeader(st: State, bytes: seq<byte>): State {
    if |bytes| < HEADER_STRUCT_SIZE then Fail(st, ErrorShortRead)
    else if !IsPackage(bytes) then Fail(st, ErrorMagic)
    else
      var st1 := st.(pkg := HeaderPackage(st.pkg.fileSize, bytes), tableBlocks := TableBlocks(bytes));
      if st1.pkg.headerSize < XCONTENT_HEADER_SIZE || st1.pkg.headerSize > st1.pkg.fileSize then Fail(st1, ErrorHeader)
      else if E.Be32(bytes, 0x3A9) != 0 then Fail(st1, ErrorUnsupportedVolume)
      else if bytes[0x379] != VOLUME_DESCRIPTOR_SIZE then Fail(st1, ErrorHeader)
      else if st1.tableBlocks == 0 then FinishMount(st1, Mounted)
      else if st1.pkg.totalBlocks != 0 && TableStart(bytes) >= st1.pkg.totalBlocks then Fail(st1, ErrorHeader)
      else ScheduleDirectory(st1, TableStart(bytes))
  }

  /** r360_stfs_mount_begin. */
  function Begin(fileSize: nat): State {
    if fileSize < HEADER_STRUCT_SIZE then Fail(Fresh(fileSize), ErrorTooSmall)
    else Schedule(Fresh(fileSize), 0, HEADER_STRUCT_SIZE, Header)
  }

  /** r360_stfs_submit_read, for a mount request. */
  function Submit(st: State, bytes: seq<byte>): State {
    match st.request
    case None => st
    case Some(req) =>
      var st1 := st.(request := None);
      if |bytes| < req.size || |bytes| > E.IO_CAPACITY then Fail(st1, ErrorShortRead)
      else
        match req.kind
        case Header => ParseHeader(st1, bytes)
        case Directory => ParseDirectory(st1, bytes)
        case HashL2 => ParseUpperHash(st1, bytes, 2)
        case HashL1 => ParseUpperHash(st1, bytes, 1)
        case HashL0 => ParseHashL0(st1, bytes)
        case DefaultXexProbe => ParseDefaultXexProbe(st1, bytes)
  }

  // ---- what every state keeps ----

  /** The last record that is a default.xex in the root. */
  function DefaultIn(entries: seq<Record>): Option<nat> {
    if entries == [] then None
    else if IsDefaultXex(entries[|entries| - 1]) then Some(|entries| - 1)
    else DefaultIn(entries[..|entries| - 1])
  }

  ghost predicate Inv(st: State) {
    && (st.request.Some? <==> st.status.Working?)
    && |st.entries| <= MAX_ENTRIES && st.defaultXex == DefaultIn(st.entries)
    && (st.status.Mounted? ==> st.blocksRead == st.tableBlocks && !st.warnings.chainEnded && !st.warnings.terminal)
    && (st.status.MountedPartial? ==> st.blocksRead < st.tableBlocks && st.warnings.chainEnded && !st.warnings.terminal)
    && (st.request.Some? ==>
          var req := st.request.value;
          && E.InFile(st.pkg, req.offset, req.size)
          && (match req.kind
              case Header => st.blocksRead == 0 && st.entries == [] && !st.warnings.chainEnded && !st.warnings.terminal
                             && req.size == HEADER_STRUCT_SIZE
              case DefaultXexProbe =>
                && Probed(st.entries, st.defaultXex)
                && st.warnings.terminal == st.warnings.chainEnded
                && (if st.warnings.chainEnded then st.blocksRead < st.tableBlocks else st.blocksRead == st.tableBlocks)
              case _ => st.blocksRead < st.tableBlocks && !st.warnings.chainEnded && !st.warnings.terminal
                        && req.size == BLOCK_SIZE
                        && (req.kind.Directory? || (st.blocksRead > 0 && st.hashTarget == st.currentBlock))))
  }

  /** Requests still to come, once the header is in. */
  function Bound(st: State): nat {
    if st.request.None? || st.request.value.kind.Header? then 0
    else if st.request.value.kind.DefaultXexProbe? then 1
    else if st.blocksRead >= st.tableBlocks then 0
    else BoundAt(st.tableBlocks - st.blocksRead, st.request.value.kind)
  }

  function BoundAt(left: nat, kind: Kind): nat
    requires left > 0
  {
    match kind
    case HashL2 => 4 * left + 1
    case HashL1 => 4 * left
    case HashL0 => 4 * left - 1
    case _ => 4 * left - 2
  }
}
