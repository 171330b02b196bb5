/** The trapping module of prepare-wasm-fpu-overlay.py, run as its host runs it. */
module TrappingModule {
  import opened Hir
  import opened Wasm
  import opened Lowering
  import opened Dispatcher
  import opened DispatchLoop

  /** The result register and the context a run leaves behind, or a machine trap. */
  datatype RunResult = Ran(r3: nat, ctx: Context) | RunTrapped

  /** run(ctx): its parameter, then zero-initialized locals. */
  function Invocation(x: Lowered, at: nat, ctx: Context): Machine {
    Machine([at] + seq(2 + |x.locals|, i => 0), [], map[at := ctx], [])
  }

  function Run(x: Lowered, fuel: nat, at: nat, ctx: Context): RunResult
    requires x.Good()
  {
    match Call(x.isa, fuel, Body(x.b, x.locals, x.order, x.Cascade()), Invocation(x, at, ctx))
    case Returned(m) =>
      if |m.stack| > 0 && at in m.ctxs then Ran(m.stack[|m.stack| - 1], m.ctxs[at]) else RunTrapped
    case _ => RunTrapped
  }

  /** The prologue of the trapping module sets the pc. */
  lemma BodyStartsAtZero(x: Lowered, fuel: nat, m: Machine)
    requires x.Good() && x.b.Trapping? && x.b.Pc() < |m.locals|
    ensures Exec(x.isa, fuel, Body(x.b, x.locals, x.order, x.Cascade()), m) == Exec(x.isa, fuel, Dispatching(x), WithPc(x.b, m, 0))
  {
    hide Exec, Dispatching, LowerBlocks, Body, SetPc;
    BodyIsPrologueThenDispatching(x);
    ExecAppend(x.isa, fuel, Prologue(x.b, x.locals, x.order), Dispatching(x), m);
    SetPcCorrect(x.isa, x.b, fuel, 0, m);
  }

  lemma EntryCarries(x: Lowered, at: nat, ctx: Context)
    requires x.Good() && x.b.Trapping? && |x.g| > 0
    ensures var m := WithPc(x.b, Invocation(x, at, ctx), 0);
            Carries(x, m, m, 0, State(ctx, map[]))
  {
    hide LowerBlocks;
    var m := WithPc(x.b, Invocation(x, at, ctx), 0);
    assert m.ctxs == m.ctxs[at := ctx];
  }

  lemma SpentTraps(x: Lowered, fuel: nat, m: Machine)
    requires x.Good() && x.b.Trapping?
    ensures Exec(x.isa, fuel, OutOfBudget(x.b, x.locals, x.order), m) == Trap
  {
    Exec1(x.isa, fuel, Unreachable, m);
  }

  /** What the host sees of a call that ended as the walk says. */
  lemma EndIsRun(x: Lowered, fuel: nat, m: Machine, at: nat, ctx: Context, w: Walk, o: Outcome, m': Machine)
    requires x.Good() && x.b.Trapping? && Starts(x, m) && m.locals[CONTEXT_LOCAL] == at && m.ctxs == map[at := ctx]
    requires CallEnds(x, fuel, m, w, o, m')
    ensures if w.Finished? then o.Normal? && o.m.stack != [] && o.m.stack[|o.m.stack| - 1] == x.isa.r3(w.ctx)
                                && at in o.m.ctxs && o.m.ctxs[at] == w.ctx
            else o.Trap?
  {
    hide Exec, LowerBlocks, Carries;
    SpentTraps(x, fuel, m');
  }

  /**
   On every accepted graph and every context: if the walk returns within 100000 dispatches the
   module returns its r3 and leaves its context, and otherwise it traps.
   */
  lemma RunsTheWalk(x: Lowered, fuel: nat, at: nat, ctx: Context)
    requires x.Good() && x.b.Trapping? && |x.g| > 0
    requires fuel >= 100000
    ensures var w := Dispatches(x.isa, x.g, 100000, Entry(ctx));
            Run(x, fuel, at, ctx) == if w.Finished? then Ran(x.isa.r3(w.ctx), w.ctx) else RunTrapped
  {
    hide Dispatches, Exec, LowerBlocks, Body, Dispatching, CallEnds, Starts, GoodLocals;
    var m := WithPc(x.b, Invocation(x, at, ctx), 0);
    EntryCarries(x, at, ctx);
    assert Starts(x, m) && m.locals[CONTEXT_LOCAL] == at && m.ctxs == map[at := ctx];
    BodyStartsAtZero(x, fuel, Invocation(x, at, ctx));
    var m' := DispatchingCorrect(x, fuel - 100000, m, 0, State(ctx, map[]));
    EndIsRun(x, fuel - 100000, m, at, ctx, Dispatches(x.isa, x.g, 100000, Entry(ctx)), Exec(x.isa, fuel, Dispatching(x), m), m');
  }
}
