/**
 The dispatcher loop as a whole: n units of budget carry the machine exactly n dispatches along
 the walk, and the trapping module therefore computes the walk for runs of up to 100000 blocks.
 */
module DispatchLoop {
  import opened Hir
  import opened Wasm
  import opened Lowering
  import opened Dispatcher

  /** One lowered graph: order lists the values that have a local, in the value map's iteration order. */
  datatype Lowered = Lowered(isa: Isa, b: Backend, g: Graph, locals: Locals, order: seq<Value>) {
    ghost predicate Good() {
      && GoodLocals(b, locals)
      && (forall v :: v in order <==> v in locals)
      && LowerBlocks(isa, b, g, 0, locals).Some?
    }

    function Cascade(): seq<Code>
      requires LowerBlocks(isa, b, g, 0, locals).Some?
    {
      LowerBlocks(isa, b, g, 0, locals).value
    }

    function DispatchLoop(): Code
      requires LowerBlocks(isa, b, g, 0, locals).Some?
      requires forall v :: v in order ==> v in locals
    {
      Loop(LoopBody(b, locals, order, Cascade()))
    }
  }

  /** A machine a call may start dispatching from. */
  ghost predicate Starts(x: Lowered, m0: Machine) {
    && |m0.locals| == x.b.Base() + |x.locals|
    && m0.locals[CONTEXT_LOCAL] in m0.ctxs
    && HasSlot(x.b, x.locals, m0)
  }

  /** m was reached from m0 and carries the walk at block k: only the state, the pc and the budget moved. */
  ghost predicate Carries(x: Lowered, m0: Machine, m: Machine, k: nat, s: State) {
    && Starts(x, m0)
    && Agrees(x.b, x.locals, m, s)
    && m.locals[CONTEXT_LOCAL] == m0.locals[CONTEXT_LOCAL]
    && (x.b.Resumable? ==> m.locals[SLOT_LOCAL] == m0.locals[SLOT_LOCAL])
    && m.locals[x.b.Pc()] == k < |x.g|
    && m.ctxs == m0.ctxs[m0.locals[CONTEXT_LOCAL] := s.ctx]
    && m.mem == m0.mem
  }

  function Charged(b: Backend, m: Machine): Machine
    requires b.Budget() < |m.locals| && m.locals[b.Budget()] > 0
  {
    m.(locals := m.locals[b.Budget() := m.locals[b.Budget()] - 1])
  }

  lemma SpendCorrect(isa: Isa, b: Backend, fuel: nat, m: Machine)
    requires b.Budget() < |m.locals| && 0 < m.locals[b.Budget()] < 0x1_0000_0000
    ensures Exec(isa, fuel, Spend(b), m) == Normal(Charged(b, m))
  {
    hide Exec;
    Exec4(isa, fuel, LocalGet(b.Budget()), Const(1), Sub32, LocalSet(b.Budget()), m);
    var n := m.locals[b.Budget()];
    assert m.stack + [n] + [1] == m.stack + [n, 1];
    assert (m.stack + [n, 1])[..|m.stack|] == m.stack;
    MinusOne(n);
    assert (m.stack + [n - 1])[..|m.stack|] == m.stack;
  }

  lemma CheckCorrect(isa: Isa, b: Backend, fuel: nat, locals: Locals, order: seq<Value>, m: Machine)
    requires b.Budget() < |m.locals| && forall v :: v in order ==> v in locals
    ensures Exec(isa, fuel, CheckBudget(b, locals, order), m) ==
            if m.locals[b.Budget()] != 0 then Normal(m)
            else Leave(Exec(isa, fuel, OutOfBudget(b, locals, order), m), m.stack)
  {
    var test := [Plain(LocalGet(b.Budget())), Plain(Eqz)];
    var n := m.locals[b.Budget()];
    ExecAppend(isa, fuel, test, [If(OutOfBudget(b, locals, order), [])], m);
    Exec2(isa, fuel, LocalGet(b.Budget()), Eqz, m);
    assert (m.stack + [n])[..|m.stack|] == m.stack;
    var top := if n == 0 then 1 else 0;
    ExecIf(isa, fuel, OutOfBudget(b, locals, order), [], Push(m, top), m.stack, top);
    assert Push(m, top).(stack := m.stack) == m;
  }

  /** The loop has been left, or the module trapped, when the walk has ended. */
  ghost predicate Ended(x: Lowered, m0: Machine, w: Walk, o: Outcome)
    requires Starts(x, m0)
  {
    match w
    case Finished(ctx) =>
      && o.Jumped? && o.depth == 0 && o.m.mem == DoneMem(x.b, m0)
      && |o.m.locals| == |m0.locals| && o.m.locals[CONTEXT_LOCAL] == m0.locals[CONTEXT_LOCAL]
      && o.m.ctxs == m0.ctxs[m0.locals[CONTEXT_LOCAL] := ctx]
    case _ => o.Trap?
  }

  /** One trip round the loop body with budget left is one dispatch. */
  lemma IterationCorrect(x: Lowered, fuel: nat, m0: Machine, m: Machine, k: nat, s: State)
    requires x.Good() && Carries(x, m0, m, k, s)
    requires 0 < m.locals[x.b.Budget()] < 0x1_0000_0000
    ensures Iterates(x.b, x.locals, Charged(x.b, m), RunBlock(x.isa, x.g, k, x.g[k], s),
                     Exec(x.isa, fuel, LoopBody(x.b, x.locals, x.order, x.Cascade()), m))
  {
    ExecAppend(x.isa, fuel, CheckBudget(x.b, x.locals, x.order), Spend(x.b) + x.Cascade(), m);
    CheckCorrect(x.isa, x.b, fuel, x.locals, x.order, m);
    ExecAppend(x.isa, fuel, Spend(x.b), x.Cascade(), m);
    SpendCorrect(x.isa, x.b, fuel, m);
    CascadeCorrect(x.isa, x.b, fuel, x.g, 0, x.locals, Charged(x.b, m), s);
  }

  /** The loop's own view: it goes round again one dispatch further on, or the walk has ended. */
  lemma LoopStep(x: Lowered, fuel: nat, m0: Machine, m: Machine, k: nat, s: State) returns (next: Machine)
    requires x.Good() && Carries(x, m0, m, k, s)
    requires 0 < m.locals[x.b.Budget()] < 0x1_0000_0000 && fuel > 0
    ensures var w := Dispatch(x.isa, x.g, Running(k, s));
            if w.Running? then
              && Carries(x, m0, next, w.block, w.s)
              && next.locals[x.b.Budget()] + 1 == m.locals[x.b.Budget()]
              && ExecOne(x.isa, fuel, x.DispatchLoop(), m) == ExecOne(x.isa, fuel - 1, x.DispatchLoop(), next)
            else Ended(x, m0, w, ExecOne(x.isa, fuel, x.DispatchLoop(), m))
  {
    hide Exec, RunBlock, GoodLocals, LowerBlocks;
    next := m;
    IterationCorrect(x, fuel, m0, m, k, s);
    var o := Exec(x.isa, fuel, LoopBody(x.b, x.locals, x.order, x.Cascade()), m);
    if RunBlock(x.isa, x.g, k, x.g[k], s).Goto? {
      next := o.m.(stack := m.stack);
    }
  }

  /**
   n units of budget carry the loop n dispatches along the walk, or to its end. What is left
   is the same loop with an empty budget.
   */
  lemma {:induction false} LoopCarries(x: Lowered, fuel: nat, n: nat, m0: Machine, m: Machine, k: nat, s: State)
    returns (m': Machine)
    requires x.Good() && Carries(x, m0, m, k, s)
    requires m.locals[x.b.Budget()] == n < 0x1_0000_0000
    ensures var w := Dispatches(x.isa, x.g, n, Running(k, s));
            if w.Running? then
              && Carries(x, m0, m', w.block, w.s) && m'.locals[x.b.Budget()] == 0
              && ExecOne(x.isa, fuel + n, x.DispatchLoop(), m) == ExecOne(x.isa, fuel, x.DispatchLoop(), m')
            else Ended(x, m0, w, ExecOne(x.isa, fuel + n, x.DispatchLoop(), m))
  {
    hide ExecOne, Dispatch, LowerBlocks;
    m' := m;
    if n > 0 {
      var next := LoopStep(x, fuel + n, m0, m, k, s);
      var w := Dispatch(x.isa, x.g, Running(k, s));
      assert Dispatches(x.isa, x.g, n, Running(k, s)) == Dispatches(x.isa, x.g, n - 1, w);
      if w.Running? {
        m' := LoopCarries(x, fuel, n - 1, m0, next, w.block, w.s);
      } else {
        EndedWalkStays(x.isa, x.g, n - 1, w);
      }
    }
  }

  /** With no budget left the loop does what a spent budget does, if that leaves the function. */
  lemma SpentLoop(x: Lowered, fuel: nat, m: Machine)
    requires x.Good() && x.b.Budget() < |m.locals| && m.locals[x.b.Budget()] == 0
    ensures var spent := Exec(x.isa, fuel, OutOfBudget(x.b, x.locals, x.order), m);
            spent.Trap? || spent.Returned? ==> ExecOne(x.isa, fuel, x.DispatchLoop(), m) == spent
  {
    ExecAppend(x.isa, fuel, CheckBudget(x.b, x.locals, x.order), Spend(x.b) + x.Cascade(), m);
    CheckCorrect(x.isa, x.b, fuel, x.locals, x.order, m);
  }

  // ---- around the loop ----

  function LoadsR3(isa: Isa, m: Machine): Machine
    requires CONTEXT_LOCAL < |m.locals| && m.locals[CONTEXT_LOCAL] in m.ctxs
  {
    Push(m, isa.r3(m.ctxs[m.locals[CONTEXT_LOCAL]]))
  }

  lemma ResultCorrect(isa: Isa, fuel: nat, m: Machine)
    requires CONTEXT_LOCAL < |m.locals| && m.locals[CONTEXT_LOCAL] in m.ctxs
    ensures Exec(isa, fuel, RESULT, m) == Normal(LoadsR3(isa, m))
    ensures Exec(isa, fuel, RESULT + [Plain(ReturnOp)], m) == Returned(LoadsR3(isa, m))
  {
    Exec2(isa, fuel, LocalGet(CONTEXT_LOCAL), LoadR3, m);
    var p := m.locals[CONTEXT_LOCAL];
    assert (m.stack + [p])[..|m.stack|] == m.stack;
    ExecAppend(isa, fuel, RESULT, [Plain(ReturnOp)], m);
    Exec1(isa, fuel, ReturnOp, LoadsR3(isa, m));
  }

  lemma SetBudgetCorrect(isa: Isa, b: Backend, fuel: nat, m: Machine)
    requires b.Budget() < |m.locals|
    ensures Exec(isa, fuel, SetBudget(b), m) == Normal(m.(locals := m.locals[b.Budget() := b.Fuel()]))
  {
    Exec2(isa, fuel, Const(b.Fuel()), LocalSet(b.Budget()), m);
    assert (m.stack + [b.Fuel()])[..|m.stack|] == m.stack;
  }

  lemma BlockOfLoop(isa: Isa, fuel: nat, loop: Code, m: Machine)
    ensures Exec(isa, fuel, [Block([loop])], m) == Leave(ExecOne(isa, fuel, loop, m), m.stack)
  {
    ExecCons(isa, fuel, Block([loop]), [], m);
    assert [Block([loop])] + [] == [Block([loop])];
    ExecCons(isa, fuel, loop, [], m);
    assert [loop] + [] == [loop];
  }

  /** From the end of the prologue on: budget, dispatcher, result. */
  function Dispatching(x: Lowered): seq<Code>
    requires x.Good()
  {
    SetBudget(x.b) + ([Block([x.DispatchLoop()])] + RESULT)
  }

  lemma BodyIsPrologueThenDispatching(x: Lowered)
    requires x.Good()
    ensures Body(x.b, x.locals, x.order, x.Cascade()) == Prologue(x.b, x.locals, x.order) + Dispatching(x)
  {
  }

  function Budgeted(x: Lowered, m: Machine): Machine
    requires x.b.Budget() < |m.locals|
  {
    m.(locals := m.locals[x.b.Budget() := x.b.Fuel()])
  }

  lemma DispatchingIsLoop(x: Lowered, fuel: nat, m: Machine)
    requires x.Good() && x.b.Budget() < |m.locals|
    ensures Exec(x.isa, fuel, Dispatching(x), m)
            == Then(x.isa, fuel, Leave(ExecOne(x.isa, fuel, x.DispatchLoop(), Budgeted(x, m)), m.stack), RESULT)
  {
    ExecAppend(x.isa, fuel, SetBudget(x.b), [Block([x.DispatchLoop()])] + RESULT, m);
    SetBudgetCorrect(x.isa, x.b, fuel, m);
    ExecAppend(x.isa, fuel, [Block([x.DispatchLoop()])], RESULT, Budgeted(x, m));
    BlockOfLoop(x.isa, fuel, x.DispatchLoop(), Budgeted(x, m));
  }

  /** What a call comes to after its prologue: the walk's end, or a spent budget at m'. */
  ghost predicate CallEnds(x: Lowered, fuel: nat, m: Machine, w: Walk, o: Outcome, m': Machine)
    requires x.Good() && Starts(x, m)
  {
    match w
    case Finished(ctx) =>
      && o.Normal? && o.m.mem == DoneMem(x.b, m)
      && o.m.stack == m.stack + [x.isa.r3(ctx)]
      && o.m.ctxs == m.ctxs[m.locals[CONTEXT_LOCAL] := ctx]
    case Faulted => o.Trap?
    case Running(k, s) =>
      && Carries(x, m, m', k, s)
      && var spent := Exec(x.isa, fuel, OutOfBudget(x.b, x.locals, x.order), m');
         spent.Trap? || spent.Returned? ==> o == spent
  }

  /** One call makes up to Fuel() dispatches of the walk it starts from. */
  lemma DispatchingCorrect(x: Lowered, fuel: nat, m: Machine, k: nat, s: State) returns (m': Machine)
    requires x.Good() && Carries(x, m, m, k, s)
    ensures CallEnds(x, fuel, m, Dispatches(x.isa, x.g, x.b.Fuel(), Running(k, s)),
                     Exec(x.isa, fuel + x.b.Fuel(), Dispatching(x), m), m')
  {
    hide Exec, Dispatching, ExecOne, LowerBlocks, Starts, DoneMem, OutOfBudget;
    var all := fuel + x.b.Fuel();
    var w := Dispatches(x.isa, x.g, x.b.Fuel(), Running(k, s));
    DispatchingIsLoop(x, all, m);
    m' := LoopCarries(x, fuel, x.b.Fuel(), m, Budgeted(x, m), k, s);
    match w
    case Running(_, _) => SpentLoop(x, fuel, m');
    case Finished(_) =>
      var o := ExecOne(x.isa, all, x.DispatchLoop(), Budgeted(x, m));
      ResultCorrect(x.isa, all, o.m.(stack := m.stack));
    case _ =>
  }
}
