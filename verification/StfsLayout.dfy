/**
 Where an STFS package keeps things: data blocks and three levels of hash tables interleaved in
 one sequence of 4096-byte blocks behind the header.
 */
module StfsLayout {
  const BLOCK_SIZE := 0x1000
  const PER_L0 := 170
  const PER_L1 := 28900
  const PER_L2 := 4913000

  /** Copies of every hash table: one in a read-only package, two otherwise. */
  ghost predicate GoodCopies(b: nat) { b == 1 || b == 2 }

  /** The blocks k tables occupy: k times b, for the two values b has. */
  function Tables(k: nat, b: nat): nat {
    if b == 1 then k else k + k
  }

  /** block_step0 and block_step1, and t or g times them. */
  function Step0(b: nat): nat { PER_L0 + Tables(1, b) }
  function Step1(b: nat): nat { PER_L1 + Tables(PER_L0 + 1, b) }
  function Steps0(t: nat, b: nat): nat { PER_L0 * t + Tables(t, b) }
  function Steps1(g: nat, b: nat): nat { PER_L1 * g + Tables((PER_L0 + 1) * g, b) }

  /** The block number of data block i: its index, and every table that lies before it. */
  function DataBlock(i: nat, b: nat): nat {
    i + Tables(i / PER_L0 + 1, b)
    + (if i < PER_L0 then 0 else Tables(i / PER_L1 + 1, b))
    + (if i < PER_L1 then 0 else Tables(i / PER_L2 + 1, b))
  }

  /** stfs_block_to_offset's loop over the three levels. */
  method ComputeDataBlock(i: nat, b: nat) returns (block: nat)
    requires GoodCopies(b)
    ensures block == DataBlock(i, b)
  {
    var base, level := PER_L0, 0;
    block := i;
    while level < 3
      invariant 0 <= level <= 3
      invariant level == 0 ==> base == PER_L0 && block == i
      invariant level == 1 ==> base == PER_L1 && i >= PER_L0 && block == i + Tables(i / PER_L0 + 1, b)
      invariant level == 2 ==> base == PER_L2 && i >= PER_L1
      invariant level == 2 ==> block == i + Tables(i / PER_L0 + 1, b) + Tables(i / PER_L1 + 1, b)
      invariant level == 3 ==> block == DataBlock(i, b)
      decreases 3 - level
    {
      OneMore(i, base);
      TablesAreTimes(i / base + 1, b);
      block := block + ((i + base) / base) * b;
      if i < base {
        break;
      }
      base := base * PER_L0;
      level := level + 1;
    }
  }

  lemma TablesAreTimes(k: nat, b: nat)
    requires GoodCopies(b)
    ensures k * b == Tables(k, b)
  {
    if b == 1 { assert k * 1 == k; } else { assert k * 2 == k + k; }
  }

  lemma OneMore(i: nat, base: nat)
    requires base == PER_L0 || base == PER_L1 || base == PER_L2
    ensures (i + base) / base == i / base + 1
  {
    if base == PER_L0 {
    } else if base == PER_L1 {
    } else {
    }
  }

  /** stfs_hash_block_number, with its products written as the steps and copies they count. */
  function HashBlock(i: nat, level: nat, b: nat): nat {
    if level == 0 then
      if i < PER_L0 then 0
      else Steps0(i / PER_L0, b) + Tables(i / PER_L1 + 1, b) + (if i < PER_L1 then 0 else Tables(1, b))
    else if level == 1 then
      if i < PER_L1 then Step0(b) else Steps1(i / PER_L1, b) + Tables(1, b)
    else Step1(b)
  }

  /** The same number by the source's own products. */
  lemma HashBlockAsWritten(i: nat, level: nat, b: nat)
    requires GoodCopies(b)
    ensures var step0, step1 := PER_L0 + b, PER_L1 + (PER_L0 + 1) * b;
            HashBlock(i, level, b) ==
              if level == 0 then
                if i < PER_L0 then 0
                else
                  var block := (i / PER_L0) * step0 + (i / PER_L1 + 1) * b;
                  if i < PER_L1 then block else block + b
              else if level == 1 then
                if i < PER_L1 then step0 else (i / PER_L1) * step1 + b
              else step1
  {
    if b == 1 {
      assert (i / PER_L0) * (PER_L0 + b) == (i / PER_L0) * 171;
      assert (i / PER_L1) * (PER_L1 + (PER_L0 + 1) * b) == (i / PER_L1) * 29071;
    } else {
      assert (i / PER_L0) * (PER_L0 + b) == (i / PER_L0) * 172;
      assert (i / PER_L1) * (PER_L1 + (PER_L0 + 1) * b) == (i / PER_L1) * 29242;
    }
  }

  // ---- the tiling ----

  /** What one block of a package holds. */
  datatype Owner =
    | Data(index: nat)
    | Table0(table: nat, copy: nat)
    | Table1(table: nat, copy: nat)
    | Table2(copy: nat)

  predicate IsOwner(o: Owner, b: nat) {
    match o
    case Data(i) => i < PER_L2
    case Table0(j, c) => j < PER_L1 && c < b
    case Table1(g, c) => g < PER_L0 && c < b
    case Table2(c) => c < b
  }

  /** The block number the formulas give each owner: a table by the first block it covers. */
  function Place(o: Owner, b: nat): nat {
    match o
    case Data(i) => DataBlock(i, b)
    case Table0(j, c) => HashBlock(j * PER_L0, 0, b) + c
    case Table1(g, c) => HashBlock(g * PER_L1, 1, b) + c
    case Table2(c) => HashBlock(0, 2, b) + c
  }

  /** Every block of a full package. */
  function TotalBlocks(b: nat): nat {
    Steps1(PER_L0, b) + Tables(1, b)
  }

  /** The q-th block of a level-0 group is one of its table's copies or one of the blocks it covers. */
  function GroupOwner(table: nat, q: nat, b: nat): Owner {
    if q < b then Table0(table, q) else Data(table * PER_L0 + (q - b))
  }

  /** A run of level-0 groups from table j on. */
  function OwnerInGroup(r: nat, j: nat, b: nat): Owner {
    GroupOwner(j + r / Step0(b), r % Step0(b), b)
  }

  /** Who owns block n, read off the layout: the inverse of Place. */
  function OwnerOf(n: nat, b: nat): Owner
    requires GoodCopies(b)
  {
    if n < Step0(b) then OwnerInGroup(n, 0, b)
    else if n < Step0(b) + b then Table1(0, n - Step0(b))
    else if n < Step1(b) then OwnerInGroup(n - Step0(b) - b, 1, b)
    else if n < Step1(b) + b then Table2(n - Step1(b))
    else
      var m := n - Step1(b) - b;
      var g, r := 1 + m / Step1(b), m % Step1(b);
      if r < b then Table1(g, r) else OwnerInGroup(r - b, g * PER_L0, b)
  }

  /** The table that covers data block i, and the block's place behind it. */
  lemma DataFollowsItsTable(i: nat, b: nat)
    requires GoodCopies(b) && i < PER_L2
    ensures DataBlock(i, b) == HashBlock(i, 0, b) + b + i % PER_L0
  {
    assert i == PER_L0 * (i / PER_L0) + i % PER_L0;
  }

  lemma DivSteps0(t: nat, q: nat, b: nat)
    requires GoodCopies(b) && q < Step0(b)
    ensures (Steps0(t, b) + q) / Step0(b) == t && (Steps0(t, b) + q) % Step0(b) == q
  {
    if b == 1 {
      assert (171 * t + q) / 171 == t;
    } else {
      assert (172 * t + q) / 172 == t;
    }
  }

  lemma DivSteps1(g: nat, r: nat, b: nat)
    requires GoodCopies(b) && r < Step1(b)
    ensures (Steps1(g, b) + r) / Step1(b) == g && (Steps1(g, b) + r) % Step1(b) == r
  {
    if b == 1 {
      assert (29071 * g + r) / 29071 == g;
    } else {
      assert (29242 * g + r) / 29242 == g;
    }
  }

  /** Taking a block number apart by the strides. */
  lemma SplitSteps0(n: nat, k: nat, b: nat)
    requires GoodCopies(b) && n < Steps0(k, b)
    ensures n / Step0(b) < k && n == Steps0(n / Step0(b), b) + n % Step0(b)
  {
    if b == 1 {
      assert n == 171 * (n / 171) + n % 171;
    } else {
      assert n == 172 * (n / 172) + n % 172;
    }
  }

  lemma SplitSteps1(n: nat, k: nat, b: nat)
    requires GoodCopies(b) && n < Steps1(k, b)
    ensures n / Step1(b) < k && n == Steps1(n / Step1(b), b) + n % Step1(b)
  {
    if b == 1 {
      assert n == 29071 * (n / 29071) + n % 29071;
    } else {
      assert n == 29242 * (n / 29242) + n % 29242;
    }
  }

  /** Level-0 table t + 1 of the first group. */
  lemma PlaceInFirst(t: nat, b: nat)
    requires GoodCopies(b) && t < PER_L0 - 1
    ensures Place(Table0(t + 1, 0), b) == Step0(b) + b + Steps0(t, b)
  {
    assert (t + 1) * PER_L0 / PER_L0 == t + 1;
    assert (t + 1) * PER_L0 / PER_L1 == 0;
  }

  /** Level-0 table t of group g + 1. */
  lemma PlaceInLater(g: nat, t: nat, b: nat)
    requires GoodCopies(b) && t < PER_L0 && g < PER_L0 - 1
    ensures Place(Table0((g + 1) * PER_L0 + t, 0), b) == Step1(b) + b + (Steps1(g, b) + (b + Steps0(t, b)))
  {
    var j := (g + 1) * PER_L0 + t;
    assert j * PER_L0 / PER_L0 == j;
    assert j * PER_L0 / PER_L1 == g + 1;
  }

  /** Level-1 table g + 1. */
  lemma PlaceOfTable1(g: nat, c: nat, b: nat)
    requires GoodCopies(b)
    ensures Place(Table1(g + 1, c), b) == Step1(b) + b + (Steps1(g, b) + c)
  {
    assert (g + 1) * PER_L1 / PER_L1 == g + 1;
  }

  lemma PlaceAlongGroup(table: nat, q: nat, b: nat)
    requires GoodCopies(b) && table < PER_L1 && q < Step0(b)
    ensures IsOwner(GroupOwner(table, q, b), b)
    ensures Place(GroupOwner(table, q, b), b) == Place(Table0(table, 0), b) + q
  {
    if q >= b {
      var i := table * PER_L0 + (q - b);
      assert i / PER_L0 == table && i % PER_L0 == q - b;
      DataFollowsItsTable(i, b);
      SameTable(i, b);
    }
  }

  // ---- every block has one owner ----

  lemma OwnerInFirst(t: nat, q: nat, b: nat)
    requires GoodCopies(b) && q < Step0(b) && t < PER_L0 - 1
    ensures var at := Step0(b) + b + Steps0(t, b) + q;
            at < TotalBlocks(b) && OwnerOf(at, b) == GroupOwner(t + 1, q, b)
  {
    DivSteps0(t, q, b);
  }

  lemma OwnerInLater(g: nat, t: nat, q: nat, b: nat)
    requires GoodCopies(b) && q < Step0(b) && t < PER_L0 && g < PER_L0 - 1
    ensures var at := Step1(b) + b + (Steps1(g, b) + (b + Steps0(t, b))) + q;
            at < TotalBlocks(b) && OwnerOf(at, b) == GroupOwner((g + 1) * PER_L0 + t, q, b)
  {
    DivSteps0(t, q, b);
    DivSteps1(g, b + Steps0(t, b) + q, b);
  }

  lemma OwnerOfLaterTable1(g: nat, c: nat, b: nat)
    requires GoodCopies(b) && g < PER_L0 - 1 && c < b
    ensures var at := Step1(b) + b + (Steps1(g, b) + c);
            at < TotalBlocks(b) && OwnerOf(at, b) == Table1(g + 1, c)
  {
    DivSteps1(g, c, b);
  }

  lemma OwnerOfTable1(g: nat, c: nat, b: nat)
    requires GoodCopies(b) && g < PER_L0 && c < b
    ensures Place(Table1(g, c), b) < TotalBlocks(b) && OwnerOf(Place(Table1(g, c), b), b) == Table1(g, c)
  {
    if g > 0 {
      PlaceOfTable1(g - 1, c, b);
      OwnerOfLaterTable1(g - 1, c, b);
    }
  }

  lemma OwnerAlongLaterGroup(j: nat, q: nat, b: nat)
    requires GoodCopies(b) && PER_L0 <= j < PER_L1 && q < Step0(b)
    ensures var at := Place(Table0(j, 0), b) + q;
            at < TotalBlocks(b) && OwnerOf(at, b) == GroupOwner(j, q, b)
  {
    hide OwnerOf, Place, GroupOwner;
    var g, t := j / PER_L0 - 1, j % PER_L0;
    assert j == (g + 1) * PER_L0 + t;
    PlaceInLater(g, t, b);
    OwnerInLater(g, t, q, b);
  }

  /** Reading a group's block back from where the formulas put it. */
  lemma OwnerAlongGroup(j: nat, q: nat, b: nat)
    requires GoodCopies(b) && j < PER_L1 && q < Step0(b)
    ensures var at := Place(Table0(j, 0), b) + q;
            at < TotalBlocks(b) && OwnerOf(at, b) == GroupOwner(j, q, b)
  {
    if j == 0 {
      DivSteps0(0, q, b);
    } else if j < PER_L0 {
      PlaceInFirst(j - 1, b);
      OwnerInFirst(j - 1, q, b);
    } else {
      OwnerAlongLaterGroup(j, q, b);
    }
  }

  lemma OwnerOfTable2(c: nat, b: nat)
    requires GoodCopies(b) && IsOwner(Table2(c), b)
    ensures Place(Table2(c), b) < TotalBlocks(b)
    ensures OwnerOf(Place(Table2(c), b), b) == Table2(c)
  {
  }

  /** No two owners share a block: the formulas can be inverted. */
  lemma OwnerOfPlace(o: Owner, b: nat)
    requires GoodCopies(b) && IsOwner(o, b)
    ensures Place(o, b) < TotalBlocks(b)
    ensures OwnerOf(Place(o, b), b) == o
  {
    hide OwnerOf, TotalBlocks;
    match o
    case Data(i) =>
      var j, q := i / PER_L0, b + i % PER_L0;
      assert i == j * PER_L0 + i % PER_L0;
      PlaceAlongGroup(j, q, b);
      OwnerAlongGroup(j, q, b);
    case Table0(j, c) => OwnerAlongGroup(j, c, b);
    case Table1(g, c) => OwnerOfTable1(g, c, b);
    case Table2(c) => OwnerOfTable2(c, b);
  }

  /** A place and its owner that undo each other. */
  ghost predicate Fits(n: nat, b: nat)
    requires GoodCopies(b)
  {
    IsOwner(OwnerOf(n, b), b) && Place(OwnerOf(n, b), b) == n
  }

  lemma FitsInFirst(t: nat, q: nat, b: nat)
    requires GoodCopies(b) && q < Step0(b) && t < PER_L0 - 1
    ensures Fits(Step0(b) + b + Steps0(t, b) + q, b)
  {
    OwnerInFirst(t, q, b);
    PlaceInFirst(t, b);
    PlaceAlongGroup(t + 1, q, b);
  }

  lemma FitsInLater(g: nat, t: nat, q: nat, b: nat)
    requires GoodCopies(b) && q < Step0(b) && t < PER_L0 && g < PER_L0 - 1
    ensures Fits(Step1(b) + b + (Steps1(g, b) + (b + Steps0(t, b))) + q, b)
  {
    OwnerInLater(g, t, q, b);
    PlaceInLater(g, t, b);
    PlaceAlongGroup((g + 1) * PER_L0 + t, q, b);
  }

  lemma FitsTable1(g: nat, c: nat, b: nat)
    requires GoodCopies(b) && c < b && g < PER_L0 - 1
    ensures Fits(Step1(b) + b + (Steps1(g, b) + c), b)
  {
    PlaceOfTable1(g, c, b);
    OwnerOfTable1(g + 1, c, b);
  }

  lemma FitsBehindTable2(m: nat, b: nat)
    requires GoodCopies(b) && m < Steps1(PER_L0 - 1, b)
    ensures Fits(Step1(b) + b + m, b)
  {
    SplitSteps1(m, PER_L0 - 1, b);
    var g, r := m / Step1(b), m % Step1(b);
    if r < b {
      FitsTable1(g, r, b);
    } else {
      SplitSteps0(r - b, PER_L0, b);
      FitsInLater(g, (r - b) / Step0(b), (r - b) % Step0(b), b);
    }
  }

  /** No gaps: every block of the package is where the formulas put its owner. */
  lemma PlaceOfOwner(n: nat, b: nat)
    requires GoodCopies(b) && n < TotalBlocks(b)
    ensures IsOwner(OwnerOf(n, b), b)
    ensures Place(OwnerOf(n, b), b) == n
  {
    if n < Step0(b) {
      DivSteps0(0, n, b);
      PlaceAlongGroup(0, n, b);
    } else if n < Step0(b) + b {
    } else if n < Step1(b) {
      var m := n - Step0(b) - b;
      SplitSteps0(m, PER_L0 - 1, b);
      FitsInFirst(m / Step0(b), m % Step0(b), b);
    } else if n >= Step1(b) + b {
      FitsBehindTable2(n - Step1(b) - b, b);
    }
  }

  lemma Floors(i: nat)
    ensures (i / PER_L0) * PER_L0 / PER_L0 == i / PER_L0
    ensures (i / PER_L1) * PER_L1 / PER_L1 == i / PER_L1
    ensures (i / PER_L0) * PER_L0 / PER_L1 == i / PER_L1
  {
    var j, g := i / PER_L0, i / PER_L1;
    assert i == PER_L0 * j + i % PER_L0;
    assert i == PER_L1 * g + i % PER_L1;
    assert PER_L0 * g <= j < PER_L0 * (g + 1);
    var k := j * PER_L0;
    assert PER_L1 * g <= k < PER_L1 * (g + 1);
    assert k == PER_L1 * g + (k - PER_L1 * g);
  }

  /** A table's address does not depend on which of its blocks is asked about. */
  lemma SameTable(i: nat, b: nat)
    ensures HashBlock(i, 0, b) == HashBlock((i / PER_L0) * PER_L0, 0, b)
    ensures HashBlock(i, 1, b) == HashBlock((i / PER_L1) * PER_L1, 1, b)
  {
    Floors(i);
  }

  /** The table of a level that covers data block i. */
  function TableFor(i: nat, level: nat, copy: nat): Owner {
    if level == 0 then Table0(i / PER_L0, copy)
    else if level == 1 then Table1(i / PER_L1, copy)
    else Table2(copy)
  }

  lemma PlaceOfTableFor(i: nat, level: nat, copy: nat, b: nat)
    requires i < PER_L2 && level <= 2 && copy < b
    ensures IsOwner(TableFor(i, level, copy), b)
    ensures Place(TableFor(i, level, copy), b) == HashBlock(i, level, b) + copy
  {
    SameTable(i, b);
    assert i / PER_L0 < PER_L1 && i / PER_L1 < PER_L0;
  }

  /** What a hash resolution reads, whichever copy is active, is that table and never a block of data. */
  lemma HashReadIsATable(i: nat, level: nat, copy: nat, j: nat, b: nat)
    requires GoodCopies(b) && i < PER_L2 && j < PER_L2 && level <= 2 && copy < b
    ensures HashBlock(i, level, b) + copy != DataBlock(j, b)
    ensures HashBlock(i, level, b) + copy < TotalBlocks(b)
    ensures OwnerOf(HashBlock(i, level, b) + copy, b) == TableFor(i, level, copy)
  {
    PlaceOfTableFor(i, level, copy, b);
    OwnerOfPlace(TableFor(i, level, copy), b);
    OwnerOfPlace(Data(j), b);
  }
}
