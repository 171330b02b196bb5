/**
 A function one can follow by hand: a counter in the context, counted down to zero round a loop of two
 blocks. Both generators accept it, and what their modules do with it is known in closed form.
 */
module Countdown {
  import opened Options
  import opened LittleEndian
  import opened Hir
  import opened Lowering
  import opened Acceptance
  import opened DispatchLoop
  import TrappingModule
  import opened ResumableModule
  import opened ResumableCall
  import opened Continuations

  const COUNT: Value := Value(0, Int32)
  const LESS: Value := Value(1, Int32)

  const LOAD := 0
  const DECREMENT := 1
  const KEEP := 2

  /** The context is one 32-bit counter; every opcode here passes for a conversion. */
  function Counting(): Isa {
    Isa(op => op <= KEEP, op => false, op => true,
        (op, ctx, args) =>
          if op == LOAD then Some(Decode(ctx))
          else if op == DECREMENT && |args| == 1 && args[0] > 0 then Some(args[0] - 1)
          else None,
        (op, ctx, args) => if |args| == 1 then Some(Encode(args[0], 4)) else None,
        ctx => Decode(ctx))
  }

  /** Load the counter and leave the loop on zero; otherwise fall through, store one less, and go round. */
  function Loop(): Graph {
    [[Produce(COUNT, LOAD, []), BranchIf(false, Ssa(COUNT), Some(2))],
     [Produce(LESS, DECREMENT, [Ssa(COUNT)]), Store(KEEP, [Ssa(LESS)]), Branch(Some(0))],
     [Return]]
  }

  lemma BothHaveLocals(b: Backend)
    ensures HasLocal(b, Loop(), COUNT) && HasLocal(b, Loop(), LESS)
    ensures forall v :: Defines(Loop(), v) ==> v.ty == Int32
  {
    assert Loop()[0][0].dest == COUNT && Loop()[1][0].dest == LESS;
  }

  lemma AllCanLower(b: Backend, k: nat, i: nat)
    requires k < |Loop()| && i < |Loop()[k]|
    ensures CanLower(Counting(), b, Loop(), Loop()[k][i])
  {
    BothHaveLocals(b);
    hide Defines, HasLocal;
  }

  lemma BothAccept(b: Backend)
    ensures Accepts(Counting(), b, Loop())
  {
    var g := Loop();
    BothHaveLocals(b);
    assert Reached(g, 2, 0) && g[2][0].Return?;
    assert Reached(g, 0, 0) && g[0][0].Produce? && Counting().converts(g[0][0].op);
    hide Defines, HasLocal, CanLower;
    forall k: nat, i: nat | Reached(g, k, i)
      ensures CanLower(Counting(), b, g, g[k][i])
    {
      AllCanLower(b, k, i);
    }
  }

  lemma CounterReads(n: nat)
    requires n < 0x1_0000_0000
    ensures Decode(Encode(n, 4)) == n && LowBytes(n, 4) == n
  {
    DecodeEncode(n, 4);
    CapacityOfWord();
    FitsInBytes(n, 4);
  }

  /** Looking at the counter: on to the loop's body, or out of it. */
  lemma Looks(s: State, n: nat)
    requires n < 0x1_0000_0000 && s.ctx == Encode(n, 4)
    ensures RunBlock(Counting(), Loop(), 0, Loop()[0], s) == Goto(if n == 0 then 2 else 1, s.(vals := s.vals[COUNT := n]))
  {
    CounterReads(n);
    var code, after := Loop()[0], s.(vals := s.vals[COUNT := n]);
    hide Encode, Decode, LowBytes;
    assert ReadAll(s, []) == [];
    assert RunInstr(Counting(), Loop(), code[0], s) == Next(after);
    assert code[1..] == [BranchIf(false, Ssa(COUNT), Some(2))] && code[1..][1..] == [];
    assert RunBlock(Counting(), Loop(), 0, code[1..], after) == Goto(if n == 0 then 2 else 1, after);
  }

  /** The body: one less, and back. */
  lemma Steps(s: State, n: nat)
    requires 0 < n < 0x1_0000_0000 && COUNT in s.vals && s.vals[COUNT] == n
    ensures RunBlock(Counting(), Loop(), 1, Loop()[1], s) == Goto(0, State(Encode(n - 1, 4), s.vals[LESS := n - 1]))
  {
    CounterReads(n - 1);
    var code := Loop()[1];
    var s1 := s.(vals := s.vals[LESS := n - 1]);
    var s2 := s1.(ctx := Encode(n - 1, 4));
    hide Encode, Decode, LowBytes;
    assert [Ssa(COUNT)][1..] == [] && [Ssa(LESS)][1..] == [];
    assert ReadAll(s, [Ssa(COUNT)]) == [n];
    assert RunInstr(Counting(), Loop(), code[0], s) == Next(s1);
    assert ReadAll(s1, [Ssa(LESS)]) == [n - 1];
    assert RunInstr(Counting(), Loop(), code[1], s1) == Next(s2);
    assert code[1..] == [Store(KEEP, [Ssa(LESS)]), Branch(Some(0))] && code[1..][1..] == [Branch(Some(0))];
    assert RunBlock(Counting(), Loop(), 1, code[1..][1..], s2) == Goto(0, s2);
    assert RunBlock(Counting(), Loop(), 1, code[1..], s1) == Goto(0, s2);
  }

  /** Round and round: two dispatches for every count, and two to get out. */
  lemma {:induction false} CountsDown(n: nat, vals: map<Value, nat>)
    requires n < 0x1_0000_0000
    ensures var w := Running(0, State(Encode(n, 4), vals));
            && Dispatches(Counting(), Loop(), 2 * n + 2, w) == Finished(Encode(0, 4))
            && Dispatches(Counting(), Loop(), 2 * n + 1, w).Running?
    decreases n
  {
    hide Dispatches, Dispatch, Counting, Loop, Encode, Capacity;
    var isa, g, s := Counting(), Loop(), State(Encode(n, 4), vals);
    OnceRound(s, n);
    var s1 := s.(vals := vals[COUNT := n]);
    if n == 0 {
      hide *;
      TwoDispatches(isa, g, 0, Running(0, s), Running(2, s1), Finished(s.ctx));
    } else {
      var s2 := State(Encode(n - 1, 4), s1.vals[LESS := n - 1]);
      hide *;
      CountsDown(n - 1, s2.vals);
      TwoDispatches(isa, g, 2 * n, Running(0, s), Running(1, s1), Running(0, s2));
    }
  }

  /** Two dispatches: out of the loop with the counter as it is, or once round it. */
  lemma OnceRound(s: State, n: nat)
    requires n < 0x1_0000_0000 && s.ctx == Encode(n, 4)
    ensures var s1 := s.(vals := s.vals[COUNT := n]);
            var w1 := Dispatch(Counting(), Loop(), Running(0, s));
            if n == 0 then w1 == Running(2, s1) && Dispatch(Counting(), Loop(), w1) == Finished(s.ctx)
            else
              && w1 == Running(1, s1)
              && Dispatch(Counting(), Loop(), w1) == Running(0, State(Encode(n - 1, 4), s1.vals[LESS := n - 1]))
  {
    Looks(s, n);
    ThreeBlocks();
    var s1 := s.(vals := s.vals[COUNT := n]);
    if n == 0 {
      Leaves(s1);
    } else {
      Steps(s1, n);
    }
    hide Counting, Loop, RunBlock, Encode;
  }

  lemma ThreeBlocks()
    ensures |Loop()| == 3
  {
  }

  lemma Leaves(s: State)
    ensures Dispatch(Counting(), Loop(), Running(2, s)) == Finished(s.ctx)
  {
  }

  /** Two dispatches taken off the front of a walk. */
  lemma TwoDispatches(isa: Isa, g: Graph, n: nat, w: Walk, w1: Walk, w2: Walk)
    requires Dispatch(isa, g, w) == w1 && Dispatch(isa, g, w1) == w2
    ensures Dispatches(isa, g, n + 2, w) == Dispatches(isa, g, n, w2)
    ensures Dispatches(isa, g, n + 1, w) == Dispatches(isa, g, n, w1)
    ensures Dispatches(isa, g, 1, w) == w1
    ensures n > 0 ==> Dispatches(isa, g, n, w1) == Dispatches(isa, g, n - 1, w2)
    ensures n == 0 ==> Dispatches(isa, g, 2, w) == w2
  {
    hide Dispatch;
    assert Dispatches(isa, g, n + 2, w) == Dispatches(isa, g, n + 1, w1);
    assert Dispatches(isa, g, 1, w) == Dispatches(isa, g, 0, w1);
  }

  /**
   The module that never suspends returns zero and leaves the counter at zero when the count needs no
   more than its 100000 dispatches, and traps on the first that needs more.
   */
  lemma TrappingCountdown(x: Lowered, n: nat, fuel: nat, at: nat)
    requires x.Good() && x.b.Trapping? && x.isa == Counting() && x.g == Loop()
    requires n < 0x1_0000_0000 && fuel >= 100000
    ensures TrappingModule.Run(x, fuel, at, Encode(n, 4))
            == if n <= 49999 then TrappingModule.Ran(0, Encode(0, 4)) else TrappingModule.RunTrapped
  {
    hide Dispatches, TrappingModule.Run, LowerBlocks, GoodLocals, Encode, Decode, Loop;
    ThreeBlocks();
    CountsDown(n, map[]);
    TrappingModule.RunsTheWalk(x, fuel, at, Encode(n, 4));
    CounterReads(0);
    assert Counting().r3(Encode(0, 4)) == 0;
    hide *;
    CutAt(x.isa, x.g, 2 * n + 2, 100000, Entry(Encode(n, 4)), Encode(0, 4));
  }

  /** Where a walk of known length is after any number of dispatches. */
  lemma CutAt(isa: Isa, g: Graph, n: nat, m: nat, w: Walk, ctx: Context)
    requires n > 0 && Dispatches(isa, g, n, w) == Finished(ctx) && Dispatches(isa, g, n - 1, w).Running?
    ensures if n <= m then Dispatches(isa, g, m, w) == Finished(ctx) else Dispatches(isa, g, m, w).Running?
  {
    hide Dispatch;
    if n <= m {
      DispatchesCompose(isa, g, n, m - n, w);
      EndedWalkStays(isa, g, m - n, Finished(ctx));
    } else {
      DispatchesCompose(isa, g, m, n - 1 - m, w);
      if !Dispatches(isa, g, m, w).Running? {
        EndedWalkStays(isa, g, n - 1 - m, Dispatches(isa, g, m, w));
      }
    }
  }

  /** The module that suspends has counted down after ceil((2 n + 2) / 4096) calls, and not before. */
  lemma ResumableCountdown(t: Task, n: nat, calls: nat, fuel: nat, world: World)
    requires GoodTask(t) && t.x.isa == Counting() && t.x.g == Loop() && t.ctx0 == Encode(n, 4)
    requires n < 0x1_0000_0000 && ShowsAfter(t, 0, world) && fuel >= 4096
    ensures var r := RunSchedule([t], fuel, seq(calls, _ => 0), world);
            && r.Some? && Placed(t, r.value)
            && (SlotSays(t.x.locals, r.value.mem, t.slot, SlotCompleted) <==> calls >= (2 * n + 2 + 4095) / 4096)
            && (calls >= (2 * n + 2 + 4095) / 4096 ==> r.value.ctxs[t.at] == Encode(0, 4))
  {
    CountsDown(n, map[]);
    assert RunsFor(t, 2 * n + 2, Encode(0, 4));
    hide Encode, Counting, Loop, RunSchedule, SlotSays, ShowsAfter, RunsFor;
    CallingUntilCompleted(t, 2 * n + 2, Encode(0, 4), calls, fuel, world);
  }
}
