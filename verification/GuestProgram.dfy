/**
 Guest code as calls and branches, and the machine it was written for: one flat instruction
 pointer and one stack of return addresses. How the recursive host executor represents that
 stack is HostExecutor.dfy's business; nothing here knows about it.
 */
module GuestProgram {
  import opened Options

  /** The guest's registers and memory, as far as conditions, targets and computations see them. */
  type Guest = seq<nat>

  datatype Condition = Always | When(id: nat)

  datatype Destination = Direct(address: nat) | Pointer(id: nat)

  /**
   One guest operation. A link is the return address a linking branch sets; a call without one is
   a tail call. A possible return is a branch through the link register: it may be the callee's
   return or a call, which only its target tells. A branch past its function's end has a null label.
   */
  datatype GuestOp =
    | Compute(id: nat)
    | Call(when: Condition, to: Destination, link: Option<nat>)
    | PossibleReturn(when: Condition, id: nat, link: Option<nat>)
    | Branch(when: Condition, pos: nat, link: Option<nat>)
    | Return(when: Condition)

  datatype Program = Program(
    code: map<nat, seq<GuestOp>>,
    holds: (nat, Guest) -> bool,
    pointer: (nat, Guest) -> nat,
    compute: (nat, Guest) -> Option<Guest>)

  datatype BlockKind = UnresolvedCall | Unsupported | NoReturnBoundary

  /** A caller that a linked call suspended: the return address it set, and where it goes on. */
  datatype Frame = Frame(ret: nat, func: nat, pos: nat)

  datatype Flat =
    | Running(func: nat, pos: nat, s: Guest, stack: seq<Frame>)
    | Halted(s: Guest)
    | Stuck(kind: BlockKind)

  function LinkOf(op: GuestOp): Option<nat> {
    match op
    case Call(_, _, link) => link
    case PossibleReturn(_, _, link) => link
    case Branch(_, _, link) => link
    case _ => None
  }

  predicate Met(p: Program, c: Condition, s: Guest) {
    c.Always? || p.holds(c.id, s)
  }

  /** Branches go to the low 32 bits of their target. */
  function Low32(a: nat): nat {
    a % 0x1_0000_0000
  }

  /** Return addresses are compared as word-aligned 32-bit addresses. */
  function Aligned(a: nat): nat {
    Low32(a) - Low32(a) % 4
  }

  /** Of a 64-bit address only bits 2 to 31 take part in a comparison, and bits 0 to 31 in a branch. */
  lemma AddressBits(high: nat, word: nat, low: nat)
    requires word < 0x4000_0000 && low < 4
    ensures Low32(high * 0x1_0000_0000 + word * 4 + low) == word * 4 + low
    ensures Aligned(high * 0x1_0000_0000 + word * 4 + low) == word * 4
  {
    assert (high * 0x1_0000_0000 + (word * 4 + low)) % 0x1_0000_0000 == word * 4 + low;
  }

  lemma AlignedDiffers(a: nat)
    ensures Aligned(a + 4) != Aligned(a)
  {
  }

  function TargetOf(p: Program, to: Destination, s: Guest): nat {
    match to
    case Direct(a) => a
    case Pointer(id) => Low32(p.pointer(id, s))
  }

  /** Returning to whoever made the last linked call, or to the host. */
  function Pop(stack: seq<Frame>, s: Guest): Flat {
    if stack == [] then Halted(s)
    else var top := stack[|stack| - 1]; Running(top.func, top.pos, s, stack[..|stack| - 1])
  }

  /** Whether a branch to target is the current function's return. seed is the entry's link register, 0 for none. */
  predicate IsReturn(seed: nat, stack: seq<Frame>, target: nat) {
    if stack != [] then Aligned(target) == Aligned(stack[|stack| - 1].ret)
    else seed == 0 || Aligned(target) == Aligned(seed)
  }

  function Enter(p: Program, m: Flat, target: nat, link: Option<nat>): Flat
    requires m.Running?
  {
    if target !in p.code then Stuck(UnresolvedCall)
    else
      Running(target, 0, m.s,
              match link
              case None => m.stack
              case Some(ret) => m.stack + [Frame(ret, m.func, m.pos + 1)])
  }

  function Step(p: Program, seed: nat, m: Flat): Flat {
    if !m.Running? then m
    else if m.func !in p.code then Stuck(UnresolvedCall)
    else if m.pos >= |p.code[m.func]| then Stuck(NoReturnBoundary)
    else
      match p.code[m.func][m.pos]
      case Compute(id) => (
        match p.compute(id, m.s)
        case None => Stuck(Unsupported)
        case Some(s) => m.(pos := m.pos + 1, s := s))
      case Call(when, to, link) =>
        if Met(p, when, m.s) then Enter(p, m, TargetOf(p, to, m.s), link) else m.(pos := m.pos + 1)
      case PossibleReturn(when, id, link) =>
        if !Met(p, when, m.s) then m.(pos := m.pos + 1)
        else if IsReturn(seed, m.stack, p.pointer(id, m.s)) then Pop(m.stack, m.s)
        else Enter(p, m, Low32(p.pointer(id, m.s)), link)
      case Branch(when, pos, _) =>
        if !Met(p, when, m.s) then m.(pos := m.pos + 1)
        else if pos > |p.code[m.func]| then Stuck(Unsupported)
        else m.(pos := pos)
      case Return(when) => if Met(p, when, m.s) then Pop(m.stack, m.s) else m.(pos := m.pos + 1)
  }

  function Steps(p: Program, seed: nat, n: nat, m: Flat): Flat {
    if n == 0 then m else Steps(p, seed, n - 1, Step(p, seed, m))
  }

  lemma {:induction false} StepsCompose(p: Program, seed: nat, a: nat, b: nat, m: Flat)
    ensures Steps(p, seed, a + b, m) == Steps(p, seed, b, Steps(p, seed, a, m))
  {
    if a > 0 {
      StepsCompose(p, seed, a - 1, b, Step(p, seed, m));
    }
  }

  lemma {:induction false} EndedStays(p: Program, seed: nat, n: nat, m: Flat)
    requires !m.Running?
    ensures Steps(p, seed, n, m) == m
  {
    if n > 0 {
      EndedStays(p, seed, n - 1, m);
    }
  }

  // ---- a program one can follow by hand ----

  /**
   A linked call of a function that drops one register after another by calling itself in tail position,
   and returns through the link register when none is left.
   */
  function Dropping(): Program {
    Program(
      map[0x100 := [Call(Always, Direct(0x200), Some(0x104)), Return(Always)],
          0x200 := [PossibleReturn(When(0), 0, None), Compute(0), Call(Always, Pointer(1), None)]],
      (id, s) => s == [],
      (id, s) => if id == 0 then 0xFFFF_FFFF_0000_0104 else 0xFFFF_FFFF_0000_0200,
      (id, s) => if s == [] then None else Some(s[1..]))
  }

  lemma DropsOne(p: Program, seed: nat, s: Guest, stack: seq<Frame>)
    requires p == Dropping() && s != []
    ensures Step(p, seed, Running(0x200, 0, s, stack)) == Running(0x200, 1, s, stack)
    ensures Step(p, seed, Running(0x200, 1, s, stack)) == Running(0x200, 2, s[1..], stack)
    ensures Step(p, seed, Running(0x200, 2, s[1..], stack)) == Running(0x200, 0, s[1..], stack)
  {
    hide IsReturn, Pop;
  }

  lemma DropsNone(p: Program, seed: nat)
    requires p == Dropping()
    ensures Step(p, seed, Running(0x200, 0, [], [Frame(0x104, 0x100, 1)])) == Running(0x100, 1, [], [])
    ensures Step(p, seed, Running(0x100, 1, [], [])) == Halted([])
  {
    AddressBits(0xFFFF_FFFF, 0x41, 0);
    AddressBits(0, 0x41, 0);
    assert [Frame(0x104, 0x100, 1)][..0] == [];
    hide Aligned, Low32;
  }

  lemma {:induction false} DropsAll(p: Program, seed: nat, s: Guest)
    requires p == Dropping()
    ensures Steps(p, seed, 3 * |s| + 2, Running(0x200, 0, s, [Frame(0x104, 0x100, 1)])) == Halted([])
    decreases |s|
  {
    var stack := [Frame(0x104, 0x100, 1)];
    if s == [] {
      DropsNone(p, seed);
      hide Step, Dropping;
      assert Steps(p, seed, 1, Running(0x100, 1, [], [])) == Steps(p, seed, 0, Halted([]));
    } else {
      DropsOne(p, seed, s, stack);
      DropsAll(p, seed, s[1..]);
      hide Step, Dropping;
      var n := 3 * |s[1..]| + 2;
      assert Steps(p, seed, n + 3, Running(0x200, 0, s, stack)) == Steps(p, seed, n + 2, Running(0x200, 1, s, stack));
    }
  }

  /** However many registers there are, it halts after three steps for each and three more, whatever the entry's link register. */
  lemma DroppingHalts(p: Program, seed: nat, s: Guest)
    requires p == Dropping()
    ensures Steps(p, seed, 3 * |s| + 3, Running(0x100, 0, s, [])) == Halted([])
  {
    var called := Running(0x200, 0, s, [Frame(0x104, 0x100, 1)]);
    assert Step(p, seed, Running(0x100, 0, s, [])) == called;
    hide Step, Dropping;
    DropsAll(p, seed, s);
  }
}
