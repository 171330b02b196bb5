/**
 Where an execution that starts inside a function begins: at the marker of the wanted guest
 address, provided nothing but markers stands before it in its block.
 */
module InteriorEntry {
  import opened Options

  datatype Instr = SourceOffset(address: nat) | Comment | Nop | Other

  type Block = seq<Instr>

  predicate IsMarker(i: Instr) {
    !i.Other?
  }

  /** The i-th instruction of the block is the first marker of the address, and only markers come before it. */
  ghost predicate Leads(block: Block, address: nat, i: nat) {
    && i < |block| && block[i] == SourceOffset(address)
    && forall j :: 0 <= j < i ==> !block[j].Other? && block[j] != SourceOffset(address)
  }

  /** One block: an address first met behind a real instruction does not count. */
  method SearchBlock(block: Block, address: nat) returns (found: Option<nat>)
    ensures found.Some? <==> exists i :: 0 <= i < |block| && Leads(block, address, i)
    ensures found.Some? ==> Leads(block, address, found.value)
  {
    var head, i := true, 0;
    while i < |block|
      invariant 0 <= i <= |block|
      invariant forall j :: 0 <= j < i ==> block[j] != SourceOffset(address)
      invariant head <==> forall j :: 0 <= j < i ==> IsMarker(block[j])
    {
      if block[i] == SourceOffset(address) {
        if head {
          assert Leads(block, address, i);
          return Some(i);
        }
        return None;
      }
      if !IsMarker(block[i]) {
        head := false;
      }
      i := i + 1;
    }
    return None;
  }

  /**
   The whole function: the first block that the address leads. Execution starts there, so it skips
   nothing of that block but markers; without such a block there is no entry.
   */
  method FindEntry(blocks: seq<Block>, address: nat) returns (entry: Option<(nat, nat)>)
    ensures entry.Some? <==> exists b, i :: 0 <= b < |blocks| && 0 <= i < |blocks[b]| && Leads(blocks[b], address, i)
    ensures entry.Some? ==>
              var (b, i) := entry.value;
              && b < |blocks| && Leads(blocks[b], address, i)
              && (forall j :: 0 <= j < i ==> !blocks[b][j].Other?)
              && (forall c, k :: 0 <= c < b && 0 <= k < |blocks[c]| ==> !Leads(blocks[c], address, k))
  {
    for b := 0 to |blocks|
      invariant forall c, k :: 0 <= c < b && 0 <= k < |blocks[c]| ==> !Leads(blocks[c], address, k)
    {
      var found := SearchBlock(blocks[b], address);
      if found.Some? {
        return Some((b, found.value));
      }
    }
    return None;
  }
}
