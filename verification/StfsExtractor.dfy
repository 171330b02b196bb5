/**
 The extractor of package-core.cpp as it is written: fields updated in place, a bitset of 2^24
 bits for the blocks entered so far, one request pending at a time. Each method is proved to do
 to the fields what StfsExtraction.dfy says it does to the state.
 */
module StfsExtractor {
  import opened Options
  import opened LittleEndian
  import opened StfsLayout
  import opened StfsExtraction

  const VISITED_BYTES := 0x20_0000

  // ---- the bitset ----

  function Mask(k: nat): bv8
    requires k < 8
  {
    1 << k
  }

  lemma MaskIsABit(k: nat)
    requires k < 8
    ensures Mask(k) == if k == 0 then 1 else if k == 1 then 2 else if k == 2 then 4 else if k == 3 then 8
                       else if k == 4 then 16 else if k == 5 then 32 else if k == 6 then 64 else 128
  {
  }

  lemma SettingABit(bits: bv8, j: nat, k: nat)
    requires j < 8 && k < 8
    ensures ((bits | Mask(j)) & Mask(k) != 0) <==> (j == k || bits & Mask(k) != 0)
  {
    MaskIsABit(j);
    MaskIsABit(k);
  }

  predicate Marked(bits: seq<bv8>, block: nat)
    requires |bits| == VISITED_BYTES
  {
    block < BLOCK_LIMIT && bits[block / 8] & Mask(block % 8) != 0
  }

  function MarkedBlocks(bits: seq<bv8>): set<nat>
    requires |bits| == VISITED_BYTES
  {
    set k: nat | k < BLOCK_LIMIT && Marked(bits, k)
  }

  lemma MarkingOne(bits: seq<bv8>, block: nat)
    requires |bits| == VISITED_BYTES && block < BLOCK_LIMIT
    ensures MarkedBlocks(bits[block / 8 := bits[block / 8] | Mask(block % 8)]) == MarkedBlocks(bits) + {block}
  {
    var bits' := bits[block / 8 := bits[block / 8] | Mask(block % 8)];
    forall k: nat | k < BLOCK_LIMIT
      ensures Marked(bits', k) <==> Marked(bits, k) || k == block
    {
      SettingABit(bits[block / 8], block % 8, k % 8);
    }
  }

  lemma ClearMarksNothing(bits: seq<bv8>)
    requires |bits| == VISITED_BYTES && forall i :: 0 <= i < |bits| ==> bits[i] == 0
    ensures MarkedBlocks(bits) == {}
  {
    forall k: nat | k < BLOCK_LIMIT
      ensures !Marked(bits, k)
    {
      assert bits[k / 8] == 0;
    }
  }

  // ---- the extractor ----

  class Extractor {
    const pkg: Package
    const entries: seq<Entry>
    const visited: array<bv8>

    var status: Status
    var currentBlock: nat
    var bytesTotal: nat
    var bytesDone: nat
    var blocksDone: nat
    var expectedBlocks: nat
    var contiguous: bool
    var hashTarget: nat
    var secondary: nat

    var pending: bool
    var requestOffset: nat
    var requestSize: nat
    var requestKind: Kind

    constructor (pkg: Package, entries: seq<Entry>)
      ensures this.pkg == pkg && this.entries == entries && fresh(visited) && visited.Length == VISITED_BYTES
    {
      this.pkg, this.entries := pkg, entries;
      visited := new bv8[VISITED_BYTES](_ => 0);
      status, currentBlock, bytesTotal, bytesDone, blocksDone := Idle, 0, 0, 0, 0;
      expectedBlocks, contiguous, hashTarget, secondary := 0, false, 0, 0;
      pending, requestOffset, requestSize, requestKind := false, 0, 0, DataBlockRead;
    }

    ghost function Visited(): set<nat>
      requires visited.Length == VISITED_BYTES
      reads visited
    {
      MarkedBlocks(visited[..])
    }

    /** The fields as one state. */
    ghost function Abs(): State
      requires visited.Length == VISITED_BYTES
      reads this, visited
    {
      State(status, currentBlock, bytesTotal, bytesDone, blocksDone, expectedBlocks, contiguous, hashTarget, secondary,
            Visited(), if pending then Some(Request(requestOffset, requestSize, requestKind)) else None)
    }

    method Fail(error: Status)
      requires visited.Length == VISITED_BYTES
      modifies this
      ensures Abs() == StfsExtraction.Fail(old(Abs()), error)
    {
      status, pending, requestSize, requestOffset := error, false, 0, 0;
    }

    method ClearVisited()
      requires visited.Length == VISITED_BYTES
      modifies visited
      ensures Visited() == {}
    {
      for i := 0 to visited.Length
        invariant forall j :: 0 <= j < i ==> visited[j] == 0
      {
        visited[i] := 0;
      }
      ClearMarksNothing(visited[..]);
    }

    /** Whether the block was still unmarked; it is marked afterwards either way, if it can be. */
    method MarkBlock(block: nat) returns (marked: bool)
      requires visited.Length == VISITED_BYTES
      modifies visited
      ensures marked <==> block < BLOCK_LIMIT && block !in old(Visited())
      ensures Visited() == if marked then old(Visited()) + {block} else old(Visited())
    {
      if block >= BLOCK_LIMIT {
        return false;
      }
      var index := block / 8;
      var mask := Mask(block % 8);
      if visited[index] & mask != 0 {
        assert Marked(visited[..], block);
        return false;
      }
      MarkingOne(visited[..], block);
      ghost var bits := visited[..];
      assert !Marked(bits, block);
      visited[index] := visited[index] | mask;
      assert visited[..] == bits[index := bits[index] | mask];
      marked := true;
    }

    method Schedule(offset: nat, size: nat, kind: Kind)
      requires visited.Length == VISITED_BYTES
      modifies this
      ensures Abs() == StfsExtraction.Schedule(pkg, old(Abs()), offset, size, kind)
    {
      if size == 0 || size > IO_CAPACITY || offset > pkg.fileSize || size > pkg.fileSize - offset {
        Fail(ErrorChain);
        return;
      }
      requestOffset, requestSize, requestKind, pending := offset, size, kind, true;
      status := Working;
    }

    method ScheduleData()
      requires visited.Length == VISITED_BYTES
      modifies this
      ensures Abs() == StfsExtraction.ScheduleData(pkg, old(Abs()))
    {
      hide DataOffset;
      if bytesDone >= bytesTotal {
        if bytesDone != bytesTotal || blocksDone != expectedBlocks {
          Fail(ErrorChain);
          return;
        }
        status, pending := Complete, false;
        return;
      }
      var remain := bytesTotal - bytesDone;
      Schedule(DataOffset(pkg, currentBlock), if remain < BLOCK_SIZE then remain else BLOCK_SIZE, DataBlockRead);
    }

    method RequestHash(level: nat)
      requires visited.Length == VISITED_BYTES && level <= 2
      modifies this
      ensures Abs() == ScheduleHash(pkg, old(Abs()), level)
    {
      hide HashOffset;
      Schedule(HashOffset(pkg, hashTarget, level) + secondary, BLOCK_SIZE,
               if level == 0 then HashL0 else if level == 1 then HashL1 else HashL2);
    }

    method BeginHashResolution(block: nat)
      requires visited.Length == VISITED_BYTES
      modifies this
      ensures Abs() == BeginHash(pkg, old(Abs()), block)
    {
      hide ScheduleHash;
      if block >= pkg.totalBlocks && pkg.totalBlocks != 0 {
        Fail(ErrorChain);
        return;
      }
      hashTarget := block;
      if pkg.readOnly {
        secondary := 0;
        RequestHash(0);
        return;
      }
      secondary := if pkg.rootSecond then BLOCK_SIZE else 0;
      if pkg.totalBlocks > PER_L1 {
        RequestHash(2);
      } else if pkg.totalBlocks > PER_L0 {
        RequestHash(1);
      } else {
        RequestHash(0);
      }
    }

    method ParseUpperHash(bytes: seq<byte>, level: nat)
      requires visited.Length == VISITED_BYTES && 1 <= level <= 2
      modifies this
      ensures Abs() == StfsExtraction.ParseUpperHash(pkg, old(Abs()), bytes, level)
    {
      hide ScheduleHash, HashInfo;
      var info := HashInfo(bytes, Record(hashTarget, level));
      if info.None? {
        Fail(ErrorChain);
        return;
      }
      secondary := ActiveOffset(info.value);
      RequestHash(level - 1);
    }

    method ParseHashL0(bytes: seq<byte>)
      requires visited.Length == VISITED_BYTES
      modifies this, visited
      ensures Abs() == StfsExtraction.ParseHashL0(pkg, old(Abs()), bytes)
    {
      hide StfsExtraction.ScheduleData, HashInfo;
      var info := HashInfo(bytes, Record(hashTarget, 0));
      if info.None? {
        Fail(ErrorChain);
        return;
      }
      var next := NextInChain(info.value);
      var good := next != END_OF_CHAIN && !(pkg.totalBlocks != 0 && next >= pkg.totalBlocks);
      if good {
        good := MarkBlock(next);
      }
      if !good {
        Fail(ErrorChain);
        return;
      }
      currentBlock := next;
      ScheduleData();
    }

    /** On to the block behind the current one, in a contiguous file. */
    method EnterNext()
      requires visited.Length == VISITED_BYTES
      modifies this, visited
      ensures var st := old(Abs());
              Abs() == if MayEnter(pkg, st.visited, st.current + 1) then EnterBlock(pkg, st, st.current + 1)
                       else StfsExtraction.Fail(st.(current := st.current + 1), ErrorChain)
    {
      hide DataOffset;
      currentBlock := currentBlock + 1;
      var good := !(pkg.totalBlocks != 0 && currentBlock >= pkg.totalBlocks);
      if good {
        good := MarkBlock(currentBlock);
      }
      if !good {
        Fail(ErrorChain);
        return;
      }
      ScheduleData();
    }

    method AcceptData(expected: nat)
      requires visited.Length == VISITED_BYTES
      modifies this, visited
      ensures Abs() == StfsExtraction.AcceptData(pkg, old(Abs()), expected)
    {
      hide DataOffset, BeginHash, EnterBlock, MayEnter;
      if expected > bytesTotal - bytesDone {
        Fail(ErrorChain);
        return;
      }
      bytesDone := bytesDone + expected;
      blocksDone := blocksDone + 1;
      if blocksDone > expectedBlocks {
        Fail(ErrorChain);
        return;
      }
      if bytesDone >= bytesTotal {
        if bytesDone != bytesTotal || blocksDone != expectedBlocks {
          Fail(ErrorChain);
          return;
        }
        status, pending := Complete, false;
        return;
      }
      if contiguous {
        EnterNext();
      } else {
        BeginHashResolution(currentBlock);
      }
    }

    method Reset()
      requires visited.Length == VISITED_BYTES
      modifies this, visited
      ensures Abs() == IDLE
    {
      hide Visited;
      status, currentBlock, bytesTotal, bytesDone, blocksDone := Idle, 0, 0, 0, 0;
      expectedBlocks, contiguous, hashTarget, secondary := 0, false, 0, 0;
      ClearVisited();
      pending, requestSize, requestOffset := false, 0, 0;
    }

    method Begin(index: nat)
      requires visited.Length == VISITED_BYTES
      modifies this, visited
      ensures Abs() == StfsExtraction.Begin(pkg, entries, index)
    {
      hide DataOffset, Visited;
      Reset();
      if index >= |entries| {
        status := ErrorEntry;
        return;
      }
      var e := entries[index];
      if e.directory {
        status := ErrorDirectory;
        return;
      }
      currentBlock, bytesTotal, contiguous := e.startBlock, e.length, e.contiguous;
      expectedBlocks := (e.length + BLOCK_SIZE - 1) / BLOCK_SIZE;
      if e.length == 0 {
        status := Complete;
        return;
      }
      var good := !((pkg.totalBlocks != 0 && e.startBlock >= pkg.totalBlocks)
                    || (e.validBlocks != 0 && expectedBlocks > e.validBlocks)
                    || (e.allocatedBlocks != 0 && expectedBlocks > e.allocatedBlocks)
                    || (pkg.totalBlocks != 0 && expectedBlocks > pkg.totalBlocks));
      if good {
        good := MarkBlock(e.startBlock);
      }
      if !good {
        status := ErrorChain;
        return;
      }
      assert Abs() == IDLE.(current := e.startBlock, bytesTotal := e.length, contiguous := e.contiguous,
                            expected := CeilBlocks(e.length), visited := {e.startBlock});
      ScheduleData();
    }

    method SubmitRead(bytes: seq<byte>)
      requires visited.Length == VISITED_BYTES
      modifies this, visited
      ensures Abs() == Submit(pkg, old(Abs()), bytes)
    {
      hide StfsExtraction.AcceptData, StfsExtraction.ParseUpperHash, StfsExtraction.ParseHashL0;
      if !pending {
        return;
      }
      var expected := requestSize;
      pending := false;
      if |bytes| < expected || |bytes| > IO_CAPACITY {
        Fail(ErrorShortRead);
        return;
      }
      match requestKind
      case DataBlockRead => AcceptData(expected);
      case HashL2 => ParseUpperHash(bytes, 2);
      case HashL1 => ParseUpperHash(bytes, 1);
      case HashL0 => ParseHashL0(bytes);
    }
  }
}
