/**
 One call of the resumable module: up to 4096 dispatches of the walk its slot stands for, and a
 slot that stands for what is left of it.
 */
module ResumableCall {
  import opened Options
  import opened LittleEndian
  import opened Hir
  import opened Wasm
  import opened Lowering
  import opened Dispatcher
  import opened DispatchLoop
  import opened ResumableModule

  /** What the calls share: guest contexts by address, and the memory that holds the slots. */
  datatype World = World(ctxs: map<nat, Context>, mem: seq<byte>)

  /** run(ctx, continuation): the two parameters, then zero-initialized locals. */
  function Invocation(x: Lowered, at: nat, p: nat, world: World): Machine {
    Machine([at, p] + seq(2 + |x.locals|, i => 0), [], world.ctxs, world.mem)
  }

  /** One call: the result register and the world it leaves, or None when the machine traps. */
  function Invoke(x: Lowered, fuel: nat, at: nat, p: nat, world: World): Option<(nat, World)>
    requires x.Good()
  {
    match Call(x.isa, fuel, Body(x.b, x.locals, x.order, x.Cascade()), Invocation(x, at, p, world))
    case Returned(m) => if |m.stack| > 0 then Some((m.stack[|m.stack| - 1], World(m.ctxs, m.mem))) else None
    case _ => None
  }

  // ---- the prologue ----

  lemma TestStatusCorrect(isa: Isa, fuel: nat, status: nat, m: Machine)
    requires |m.locals| > SLOT_LOCAL && m.locals[SLOT_LOCAL] + 4 <= |m.mem|
    ensures Exec(isa, fuel, TestStatus(status), m)
            == Normal(Push(m, if Load(m.mem, m.locals[SLOT_LOCAL] + STATUS_AT, 4) == status then 1 else 0))
  {
    Exec4(isa, fuel, LocalGet(SLOT_LOCAL), LoadMem(4, STATUS_AT), Const(status), Eq32, m);
    var p := m.locals[SLOT_LOCAL];
    var v := Load(m.mem, p + STATUS_AT, 4);
    assert (m.stack + [p])[..|m.stack|] == m.stack;
    assert m.stack + [v] + [status] == m.stack + [v, status];
    assert (m.stack + [v, status])[..|m.stack|] == m.stack;
  }

  /** A status test and what it guards. */
  lemma GuardCorrect(isa: Isa, fuel: nat, status: nat, thn: seq<Code>, els: seq<Code>, rest: seq<Code>, m: Machine)
    requires |m.locals| > SLOT_LOCAL && m.locals[SLOT_LOCAL] + 4 <= |m.mem|
    ensures var hit := Load(m.mem, m.locals[SLOT_LOCAL] + STATUS_AT, 4) == status;
            Exec(isa, fuel, TestStatus(status) + ([If(thn, els)] + rest), m)
            == Then(isa, fuel, Leave(Exec(isa, fuel, if hit then thn else els, m), m.stack), rest)
  {
    var top := if Load(m.mem, m.locals[SLOT_LOCAL] + STATUS_AT, 4) == status then 1 else 0;
    ExecAppend(isa, fuel, TestStatus(status), [If(thn, els)] + rest, m);
    TestStatusCorrect(isa, fuel, status, m);
    ExecAppend(isa, fuel, [If(thn, els)], rest, Push(m, top));
    ExecIf(isa, fuel, thn, els, Push(m, top), m.stack, top);
    assert Push(m, top).(stack := m.stack) == m;
  }

  function Resuming(x: Lowered): seq<Code>
    requires x.Good()
  {
    TestStatus(YIELDED) + ([If(Restore(x.b, x.locals, x.order), SetPc(x.b, 0))] + SetStatus(FRESH))
  }

  /** The machine as the dispatcher finds it: the slot marked fresh, everything else restored. */
  function Started(x: Lowered, m: Machine): Machine
    requires x.Good() && x.b.Resumable? && Starts(x, m)
  {
    var p := m.locals[SLOT_LOCAL];
    var m1 :=
      if Load(m.mem, p + STATUS_AT, 4) == YIELDED then Restored(x, m, Load(m.mem, p + PC_AT, 4))
      else WithPc(x.b, m, 0);
    m1.(mem := LittleEndian.Store(m.mem, p + STATUS_AT, 4, FRESH))
  }

  /** While the dispatcher runs the slot reads as fresh, so a call that never comes back is not resumed. */
  lemma StartedIsFresh(x: Lowered, m: Machine)
    requires x.Good() && x.b.Resumable? && Starts(x, m)
    ensures |Started(x, m).mem| == |m.mem|
    ensures SlotSays(x.locals, Started(x, m).mem, m.locals[SLOT_LOCAL], SlotFresh)
  {
    hide Restored, Load, WithPc;
    var p := m.locals[SLOT_LOCAL];
    CapacityOfWord();
    LoadStored(m.mem, p + STATUS_AT, 4, FRESH);
  }

  lemma ResumingRuns(x: Lowered, fuel: nat, m: Machine)
    requires x.Good() && x.b.Resumable? && Starts(x, m)
    ensures Exec(x.isa, fuel, Resuming(x), m) == Normal(Started(x, m))
  {
    GuardCorrect(x.isa, fuel, YIELDED, Restore(x.b, x.locals, x.order), SetPc(x.b, 0), SetStatus(FRESH), m);
    RestoreRuns(x, fuel, m);
    SetPcCorrect(x.isa, x.b, fuel, 0, m);
    var m1 := Started(x, m).(mem := m.mem);
    SetStatusCorrect(x.isa, fuel, FRESH, m1);
  }

  /** The walk a slot that is not completed stands for. */
  function WalkOf(says: SlotState, ctx: Context): Walk
    requires !says.SlotCompleted?
  {
    match says
    case SlotYielded(k, s) => Running(k, s)
    case _ => Entry(ctx)
  }

  ghost predicate GoodSlot(x: Lowered, m: Machine, says: SlotState)
    requires x.Good() && x.b.Resumable? && Starts(x, m)
  {
    && SlotSays(x.locals, m.mem, m.locals[SLOT_LOCAL], says)
    && (says.SlotYielded? ==>
          says.block < |x.g| && Typed(says.s) && says.s.ctx == m.ctxs[m.locals[CONTEXT_LOCAL]])
  }

  /** A slot that was never suspended starts at the first block, with no value defined. */
  lemma FreshCarries(x: Lowered, m: Machine)
    requires x.Good() && x.b.Resumable? && Starts(x, m) && |x.g| > 0
    requires Load(m.mem, m.locals[SLOT_LOCAL] + STATUS_AT, 4) != YIELDED
    requires forall i :: 4 <= i < |m.locals| ==> m.locals[i] == 0
    ensures Carries(x, Started(x, m), Started(x, m), 0, State(m.ctxs[m.locals[CONTEXT_LOCAL]], map[]))
  {
    hide Load, LittleEndian.Store, LowerBlocks, Restored;
    var ctx := m.ctxs[m.locals[CONTEXT_LOCAL]];
    assert m.ctxs == m.ctxs[m.locals[CONTEXT_LOCAL] := ctx];
  }

  /** A suspended slot goes on where it was left. */
  lemma YieldedCarries(x: Lowered, m: Machine, k: nat, s: State)
    requires x.Good() && x.b.Resumable? && Starts(x, m)
    requires HoldsValues(x.locals, m.mem, m.locals[SLOT_LOCAL], s) && k < |x.g|
    requires Load(m.mem, m.locals[SLOT_LOCAL] + STATUS_AT, 4) == YIELDED && Load(m.mem, m.locals[SLOT_LOCAL] + PC_AT, 4) == k
    requires m.ctxs[m.locals[CONTEXT_LOCAL]] == s.ctx
    ensures Carries(x, Started(x, m), Started(x, m), k, s)
  {
    hide Load, LittleEndian.Store, LowerBlocks, Restored, HoldsValues;
    RestoredCarries(x, m, k, s);
    assert m.ctxs == m.ctxs[m.locals[CONTEXT_LOCAL] := s.ctx];
  }

  lemma StartedCarries(x: Lowered, m: Machine, says: SlotState)
    requires x.Good() && x.b.Resumable? && Starts(x, m) && |x.g| > 0
    requires GoodSlot(x, m, says) && !says.SlotCompleted?
    requires forall i :: 4 <= i < |m.locals| ==> m.locals[i] == 0
    ensures var w := WalkOf(says, m.ctxs[m.locals[CONTEXT_LOCAL]]);
            Carries(x, Started(x, m), Started(x, m), w.block, w.s)
  {
    hide Carries, Starts, Started, HoldsValues, Load;
    match says {
      case SlotYielded(k, s) => YieldedCarries(x, m, k, s);
      case _ => FreshCarries(x, m);
    }
  }

  // ---- the call ----

  lemma BodySplits(x: Lowered)
    requires x.Good() && x.b.Resumable?
    ensures Body(x.b, x.locals, x.order, x.Cascade())
            == TestStatus(COMPLETED) + ([If(RESULT + [Plain(ReturnOp)], [])] + (Resuming(x) + Dispatching(x)))
  {
    BodyIsPrologueThenDispatching(x);
    var guard := TestStatus(COMPLETED);
    var done: seq<Code> := [If(RESULT + [Plain(ReturnOp)], [])];
    assert Prologue(x.b, x.locals, x.order) == guard + (done + Resuming(x));
    assert guard + (done + Resuming(x)) + Dispatching(x) == guard + (done + (Resuming(x) + Dispatching(x)));
  }

  /** A completed slot's function is never started again. */
  lemma CompletedReturns(x: Lowered, fuel: nat, m: Machine)
    requires x.Good() && x.b.Resumable? && Starts(x, m)
    requires Load(m.mem, m.locals[SLOT_LOCAL] + STATUS_AT, 4) == COMPLETED
    ensures Exec(x.isa, fuel, Body(x.b, x.locals, x.order, x.Cascade()), m) == Returned(LoadsR3(x.isa, m))
  {
    BodySplits(x);
    GuardCorrect(x.isa, fuel, COMPLETED, RESULT + [Plain(ReturnOp)], [], Resuming(x) + Dispatching(x), m);
    ResultCorrect(x.isa, fuel, m);
  }

  lemma NotCompletedDispatches(x: Lowered, fuel: nat, m: Machine)
    requires x.Good() && x.b.Resumable? && Starts(x, m)
    requires Load(m.mem, m.locals[SLOT_LOCAL] + STATUS_AT, 4) != COMPLETED
    ensures Exec(x.isa, fuel, Body(x.b, x.locals, x.order, x.Cascade()), m)
            == Exec(x.isa, fuel, Dispatching(x), Started(x, m))
  {
    BodySplits(x);
    GuardCorrect(x.isa, fuel, COMPLETED, RESULT + [Plain(ReturnOp)], [], Resuming(x) + Dispatching(x), m);
    ExecAppend(x.isa, fuel, Resuming(x), Dispatching(x), m);
    ResumingRuns(x, fuel, m);
  }

  /** Fuel gone: the slot is saved and the call returns. */
  lemma SpentSaves(x: Lowered, fuel: nat, m0: Machine, m: Machine, k: nat, s: State)
    requires x.Good() && x.b.Resumable? && Carries(x, m0, m, k, s)
    ensures Exec(x.isa, fuel, OutOfBudget(x.b, x.locals, x.order), m)
            == Returned(LoadsR3(x.isa, m.(mem := Suspended(x.locals, x.order, m.mem, m.locals[SLOT_LOCAL], k, s))))
  {
    ExecAppend(x.isa, fuel, Save(x.b, x.locals, x.order), RESULT + [Plain(ReturnOp)], m);
    SaveCorrect(x.isa, fuel, x.locals, x.order, m, k, s);
    ResultCorrect(x.isa, fuel, m.(mem := Suspended(x.locals, x.order, m.mem, m.locals[SLOT_LOCAL], k, s)));
  }

  /** A call on a slot that is not completed: a quantum of the walk the slot stands for. */
  lemma BodyEnds(x: Lowered, fuel: nat, m: Machine, says: SlotState) returns (m': Machine)
    requires x.Good() && x.b.Resumable? && Starts(x, m) && |x.g| > 0
    requires GoodSlot(x, m, says) && !says.SlotCompleted?
    requires forall i :: 4 <= i < |m.locals| ==> m.locals[i] == 0
    ensures Starts(x, Started(x, m))
    ensures CallEnds(x, fuel, Started(x, m),
                     Dispatches(x.isa, x.g, x.b.Fuel(), WalkOf(says, m.ctxs[m.locals[CONTEXT_LOCAL]])),
                     Exec(x.isa, fuel + x.b.Fuel(), Body(x.b, x.locals, x.order, x.Cascade()), m), m')
  {
    var w := WalkOf(says, m.ctxs[m.locals[CONTEXT_LOCAL]]);
    NotCompletedDispatches(x, fuel + x.b.Fuel(), m);
    StartedCarries(x, m, says);
    m' := DispatchingCorrect(x, fuel, Started(x, m), w.block, w.s);
  }

  /** A quantum that does not finish: the call returns with the slot suspended. */
  lemma BodyYields(x: Lowered, fuel: nat, m: Machine, says: SlotState, k: nat, s: State) returns (m': Machine)
    requires x.Good() && x.b.Resumable? && Starts(x, m) && |x.g| > 0
    requires GoodSlot(x, m, says) && !says.SlotCompleted?
    requires forall i :: 4 <= i < |m.locals| ==> m.locals[i] == 0
    requires Dispatches(x.isa, x.g, x.b.Fuel(), WalkOf(says, m.ctxs[m.locals[CONTEXT_LOCAL]])) == Running(k, s)
    ensures Exec(x.isa, fuel + x.b.Fuel(), Body(x.b, x.locals, x.order, x.Cascade()), m)
            == Returned(Push(m', x.isa.r3(s.ctx)))
    ensures m'.mem == Suspended(x.locals, x.order, Started(x, m).mem, m.locals[SLOT_LOCAL], k, s)
    ensures m'.ctxs == m.ctxs[m.locals[CONTEXT_LOCAL] := s.ctx]
  {
    hide GoodSlot, Body;
    m' := BodyEnds(x, fuel, m, says);
    SpentSaves(x, fuel, Started(x, m), m', k, s);
    m' := m'.(mem := Suspended(x.locals, x.order, m'.mem, m'.locals[SLOT_LOCAL], k, s));
  }
}
