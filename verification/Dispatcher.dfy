/**
 The emitted dispatcher computes what walking the graph computes: one block per loop
 iteration, every branch depth reaching the loop or the exit, an untaken branch falling through.
 */
module Dispatcher {
  import opened Options
  import opened LittleEndian
  import opened Hir
  import opened Wasm
  import opened Lowering

  /** The machine carries the state: the context behind local 0, each value in its local. */
  ghost predicate Agrees(b: Backend, locals: Locals, m: Machine, s: State) {
    && |m.locals| == b.Base() + |locals|
    && m.locals[CONTEXT_LOCAL] in m.ctxs
    && m.ctxs[m.locals[CONTEXT_LOCAL]] == s.ctx
    && forall v :: v in locals && locals[v] < |m.locals| ==> m.locals[locals[v]] == ValueOf(s, v)
  }

  /** The resumable module owns the slot it was called with. */
  ghost predicate HasSlot(b: Backend, locals: Locals, m: Machine) {
    b.Resumable? ==> |m.locals| >= 4 && m.locals[SLOT_LOCAL] + VALUES_AT + 8 * |locals| <= |m.mem|
  }

  /** From m to m' the state becomes s and the next block pc, and no other local or context moves. */
  ghost predicate Became(b: Backend, locals: Locals, m: Machine, m': Machine, s: State, pc: nat) {
    && |m.locals| == b.Base() + |locals|
    && m.locals[CONTEXT_LOCAL] in m.ctxs
    && Agrees(b, locals, m', s)
    && (forall i :: 0 <= i < b.Base() && i != b.Pc() ==> m'.locals[i] == m.locals[i])
    && m'.locals[b.Pc()] == pc
    && m'.ctxs == m.ctxs[m.locals[CONTEXT_LOCAL] := s.ctx]
  }

  /** The slot memory after a return boundary. */
  function DoneMem(b: Backend, m: Machine): seq<byte>
    requires b.Resumable? ==> |m.locals| >= 4 && m.locals[SLOT_LOCAL] + 4 <= |m.mem|
  {
    if b.Trapping? then m.mem else LittleEndian.Store(m.mem, m.locals[SLOT_LOCAL] + STATUS_AT, 4, COMPLETED)
  }

  /** What running lowered code from m must come to when the HIR comes to f. */
  ghost predicate Matches(b: Backend, locals: Locals, m: Machine, f: Flow, o: Outcome)
    requires HasSlot(b, locals, m)
  {
    match f
    case Next(s) =>
      && o.Normal?
      && |m.locals| == b.Base() + |locals|
      && o.m.stack == m.stack && o.m.mem == m.mem && Became(b, locals, m, o.m, s, m.locals[b.Pc()])
    case Goto(k, s) =>
      o.Jumped? && o.depth == 1 && o.m.mem == m.mem && Became(b, locals, m, o.m, s, k)
    case Exit(s) =>
      && o.Jumped? && o.depth == 2 && |m.locals| == b.Base() + |locals|
      && o.m.mem == DoneMem(b, m) && Became(b, locals, m, o.m, s, m.locals[b.Pc()])
    case Fault => o.Trap?
  }

  // ---- operands ----

  lemma LowerOperandCorrect(isa: Isa, b: Backend, fuel: nat, o: Operand, locals: Locals, m: Machine, s: State)
    requires GoodLocals(b, locals) && Agrees(b, locals, m, s)
    requires LowerOperand(o, locals).Some?
    ensures Exec(isa, fuel, LowerOperand(o, locals).value, m) == Normal(Push(m, Read(s, o)))
  {
    match o
    case Constant(bits, ty) => Exec1(isa, fuel, Const(LowBytes(bits, ConstantWidth(ty))), m);
    case Ssa(v) => Exec1(isa, fuel, LocalGet(locals[v]), m);
  }

  lemma {:induction false} LowerOperandsCorrect(
    isa: Isa, b: Backend, fuel: nat, srcs: seq<Operand>, locals: Locals, m: Machine, s: State)
    requires GoodLocals(b, locals) && Agrees(b, locals, m, s)
    requires LowerOperands(srcs, locals).Some?
    ensures Exec(isa, fuel, LowerOperands(srcs, locals).value, m)
            == Normal(m.(stack := m.stack + ReadAll(s, srcs)))
  {
    hide LowerOperand, Read;
    if srcs == [] {
      assert m.stack + [] == m.stack;
    } else {
      var first := LowerOperand(srcs[0], locals).value;
      var rest := LowerOperands(srcs[1..], locals).value;
      ExecAppend(isa, fuel, first, rest, m);
      LowerOperandCorrect(isa, b, fuel, srcs[0], locals, m, s);
      var m' := Push(m, Read(s, srcs[0]));
      LowerOperandsCorrect(isa, b, fuel, srcs[1..], locals, m', s);
      assert m'.stack + ReadAll(s, srcs[1..]) == m.stack + ReadAll(s, srcs);
    }
  }

  lemma LowerTruthCorrect(
    isa: Isa, b: Backend, fuel: nat, o: Operand, sense: bool, locals: Locals, m: Machine, s: State)
    requires GoodLocals(b, locals) && Agrees(b, locals, m, s)
    requires LowerTruth(o, sense, locals).Some?
    ensures Exec(isa, fuel, LowerTruth(o, sense, locals).value, m)
            == Normal(Push(m, if (Read(s, o) != 0) == sense then 1 else 0))
  {
    var code := LowerOperand(o, locals).value;
    var eqz := [Plain(Eqz)];
    var last := if sense then [Plain(Eqz)] else [];
    LowerOperandCorrect(isa, b, fuel, o, locals, m, s);
    ExecAppend(isa, fuel, code + eqz, last, m);
    ExecAppend(isa, fuel, code, eqz, m);
    var m1 := Push(m, Read(s, o));
    Exec1(isa, fuel, Eqz, m1);
    var m2 := Push(m, if Read(s, o) == 0 then 1 else 0);
    assert m1.stack[..|m1.stack| - 1] == m.stack;
    assert ExecOp(isa, Eqz, m1) == Normal(m2);
    if sense {
      Exec1(isa, fuel, Eqz, m2);
      assert m2.stack[..|m2.stack| - 1] == m.stack;
    }
  }

  // ---- control ----

  function WithPc(b: Backend, m: Machine, pc: nat): Machine
    requires b.Pc() < |m.locals|
  {
    m.(locals := m.locals[b.Pc() := pc])
  }

  lemma SetPcCorrect(isa: Isa, b: Backend, fuel: nat, pc: nat, m: Machine)
    requires b.Pc() < |m.locals|
    ensures Exec(isa, fuel, SetPc(b, pc), m) == Normal(WithPc(b, m, pc))
  {
    Exec2(isa, fuel, Const(pc), LocalSet(b.Pc()), m);
    assert (m.stack + [pc])[..|m.stack|] == m.stack;
  }

  lemma SetPcThenBr(isa: Isa, b: Backend, fuel: nat, pc: nat, depth: nat, m: Machine)
    requires b.Pc() < |m.locals|
    ensures Exec(isa, fuel, SetPc(b, pc) + [Plain(Br(depth))], m) == Jumped(depth, WithPc(b, m, pc))
  {
    ExecAppend(isa, fuel, SetPc(b, pc), [Plain(Br(depth))], m);
    SetPcCorrect(isa, b, fuel, pc, m);
    Exec1(isa, fuel, Br(depth), WithPc(b, m, pc));
  }

  lemma WithPcBecomes(b: Backend, locals: Locals, m: Machine, s: State, pc: nat)
    requires GoodLocals(b, locals) && Agrees(b, locals, m, s)
    ensures Became(b, locals, m, WithPc(b, m, pc), s, pc)
    ensures Became(b, locals, m, m, s, m.locals[b.Pc()])
  {
  }

  lemma SetStatusCorrect(isa: Isa, fuel: nat, status: nat, m: Machine)
    requires |m.locals| >= 4 && m.locals[SLOT_LOCAL] + 4 <= |m.mem|
    ensures Exec(isa, fuel, SetStatus(status), m)
            == Normal(m.(mem := LittleEndian.Store(m.mem, m.locals[SLOT_LOCAL] + STATUS_AT, 4, status)))
  {
    Exec3(isa, fuel, LocalGet(SLOT_LOCAL), Const(status), StoreMem(4, STATUS_AT), m);
    var p := m.locals[SLOT_LOCAL];
    assert m.stack + [p] + [status] == m.stack + [p, status];
    assert (m.stack + [p, status])[..|m.stack|] == m.stack;
  }

  lemma ExitCorrect(isa: Isa, b: Backend, fuel: nat, m: Machine)
    requires b.Resumable? ==> |m.locals| >= 4 && m.locals[SLOT_LOCAL] + 4 <= |m.mem|
    ensures Exec(isa, fuel, LowerExit(b), m) == Jumped(2, m.(mem := DoneMem(b, m)))
  {
    var m' := m.(mem := DoneMem(b, m));
    ExecAppend(isa, fuel, MarkDone(b), [Plain(Br(2))], m);
    if b.Resumable? {
      SetStatusCorrect(isa, fuel, COMPLETED, m);
    }
    Exec1(isa, fuel, Br(2), m');
  }

  // ---- one instruction ----

  lemma ComputeRuns(isa: Isa, op: nat, args: seq<nat>, width: nat, m: Machine)
    requires |m.locals| > 0 && m.locals[0] in m.ctxs
    ensures ExecOp(isa, Compute(op, |args|, width), m.(stack := m.stack + args))
            == match isa.produce(op, m.ctxs[m.locals[0]], args)
               case None => Trap
               case Some(v) => Normal(Push(m, LowBytes(v, width)))
  {
    var stack := m.stack + args;
    assert stack[|stack| - |args|..] == args;
    assert stack[..|stack| - |args|] == m.stack;
  }

  lemma SetRuns(isa: Isa, local: nat, r: nat, m: Machine)
    requires local < |m.locals|
    ensures ExecOp(isa, LocalSet(local), Push(m, r)) == Normal(m.(locals := m.locals[local := r]))
  {
    assert (m.stack + [r])[..|m.stack|] == m.stack;
  }

  /** Assigning a value's local assigns the value, and touches nothing else. */
  lemma AssignedBecomes(b: Backend, locals: Locals, m: Machine, s: State, dest: Value, r: nat)
    requires GoodLocals(b, locals) && Agrees(b, locals, m, s) && dest in locals
    ensures locals[dest] < |m.locals|
    ensures Became(b, locals, m, m.(locals := m.locals[locals[dest] := r]), s.(vals := s.vals[dest := r]), m.locals[b.Pc()])
  {
    assert m.ctxs == m.ctxs[m.locals[CONTEXT_LOCAL] := s.ctx];
  }

  lemma ProduceCorrect(isa: Isa, b: Backend, fuel: nat, g: Graph, i: Instr, locals: Locals, m: Machine, s: State)
    requires i.Produce? && GoodLocals(b, locals) && Agrees(b, locals, m, s) && HasSlot(b, locals, m)
    requires LowerInstr(isa, b, |g|, i, locals).Some?
    ensures Matches(b, locals, m, RunInstr(isa, g, i, s),
                    Exec(isa, fuel, LowerInstr(isa, b, |g|, i, locals).value, m))
  {
    hide Exec, ExecOp, LowerOperands, Became, LowBytes;
    var operands := LowerOperands(i.srcs, locals).value;
    var compute, put := Compute(i.op, |i.srcs|, Width(i.dest.ty)), LocalSet(locals[i.dest]);
    var args := ReadAll(s, i.srcs);
    ExecAppend(isa, fuel, operands, [Plain(compute), Plain(put)], m);
    LowerOperandsCorrect(isa, b, fuel, i.srcs, locals, m, s);
    Exec2(isa, fuel, compute, put, m.(stack := m.stack + args));
    ComputeRuns(isa, i.op, args, Width(i.dest.ty), m);
    var result := isa.produce(i.op, s.ctx, args);
    if result.Some? {
      var r := LowBytes(result.value, Width(i.dest.ty));
      AssignedBecomes(b, locals, m, s, i.dest, r);
      SetRuns(isa, locals[i.dest], r, m);
    }
  }

  lemma StoreCorrect(isa: Isa, b: Backend, fuel: nat, g: Graph, i: Instr, locals: Locals, m: Machine, s: State)
    requires i.Store? && GoodLocals(b, locals) && Agrees(b, locals, m, s) && HasSlot(b, locals, m)
    requires LowerInstr(isa, b, |g|, i, locals).Some?
    ensures Matches(b, locals, m, RunInstr(isa, g, i, s),
                    Exec(isa, fuel, LowerInstr(isa, b, |g|, i, locals).value, m))
  {
    hide GoodLocals, HasSlot, Exec, LowerOperands, ReadAll;
    var operands := LowerOperands(i.srcs, locals).value;
    ExecAppend(isa, fuel, operands, [Plain(Effect(i.op, |i.srcs|))], m);
    LowerOperandsCorrect(isa, b, fuel, i.srcs, locals, m, s);
    var m1 := m.(stack := m.stack + ReadAll(s, i.srcs));
    Exec1(isa, fuel, Effect(i.op, |i.srcs|), m1);
    assert m1.stack[|m1.stack| - |i.srcs|..] == ReadAll(s, i.srcs);
    assert m1.stack[..|m1.stack| - |i.srcs|] == m.stack;
  }

  lemma BranchIfCorrect(isa: Isa, b: Backend, fuel: nat, g: Graph, i: Instr, locals: Locals, m: Machine, s: State)
    requires i.BranchIf? && GoodLocals(b, locals) && Agrees(b, locals, m, s) && HasSlot(b, locals, m)
    requires LowerInstr(isa, b, |g|, i, locals).Some?
    ensures Matches(b, locals, m, RunInstr(isa, g, i, s),
                    Exec(isa, fuel, LowerInstr(isa, b, |g|, i, locals).value, m))
  {
    var truth := LowerTruth(i.cond, i.sense, locals).value;
    var k := i.target.value;
    var taken := SetPc(b, k) + [Plain(Br(2))];
    ExecAppend(isa, fuel, truth, LowerGuardedJump(b, k), m);
    LowerTruthCorrect(isa, b, fuel, i.cond, i.sense, locals, m, s);
    var top := if (Read(s, i.cond) != 0) == i.sense then 1 else 0;
    ExecIf(isa, fuel, taken, [], Push(m, top), m.stack, top);
    assert Push(m, top).(stack := m.stack) == m;
    SetPcThenBr(isa, b, fuel, k, 2, m);
    WithPcBecomes(b, locals, m, s, k);
  }

  lemma InstrCorrect(isa: Isa, b: Backend, fuel: nat, g: Graph, i: Instr, locals: Locals, m: Machine, s: State)
    requires GoodLocals(b, locals) && Agrees(b, locals, m, s) && HasSlot(b, locals, m)
    requires LowerInstr(isa, b, |g|, i, locals).Some?
    ensures Matches(b, locals, m, RunInstr(isa, g, i, s),
                    Exec(isa, fuel, LowerInstr(isa, b, |g|, i, locals).value, m))
  {
    WithPcBecomes(b, locals, m, s, 0);
    match i
    case Produce(_, _, _) => ProduceCorrect(isa, b, fuel, g, i, locals, m, s);
    case Store(_, _) => StoreCorrect(isa, b, fuel, g, i, locals, m, s);
    case BranchIf(_, _, _) => BranchIfCorrect(isa, b, fuel, g, i, locals, m, s);
    case Branch(target) =>
      SetPcThenBr(isa, b, fuel, target.value, 1, m);
      WithPcBecomes(b, locals, m, s, target.value);
    case Return => ExitCorrect(isa, b, fuel, m);
    case CallIndirect(_) => ExitCorrect(isa, b, fuel, m);
    case _ =>
  }

  // ---- one block ----

  lemma MatchesAfter(b: Backend, locals: Locals, m: Machine, m': Machine, s: State, f: Flow, o: Outcome)
    requires HasSlot(b, locals, m) && HasSlot(b, locals, m')
    requires |m.locals| == b.Base() + |locals|
    requires Became(b, locals, m, m', s, m.locals[b.Pc()]) && m'.stack == m.stack && m'.mem == m.mem
    requires Matches(b, locals, m', f, o)
    ensures Matches(b, locals, m, f, o)
  {
  }

  /** The code emitted for the rest of a block does what the rest of the block does. */
  lemma {:induction false} InstrsCorrect(
    isa: Isa, b: Backend, fuel: nat, g: Graph, k: nat, code: seq<Instr>, locals: Locals, m: Machine, s: State)
    requires GoodLocals(b, locals) && Agrees(b, locals, m, s) && HasSlot(b, locals, m)
    requires LowerInstrs(isa, b, |g|, k, code, locals).Some?
    ensures Matches(b, locals, m, RunBlock(isa, g, k, code, s),
                    Exec(isa, fuel, LowerInstrs(isa, b, |g|, k, code, locals).value, m))
    decreases |code|
  {
    if code == [] {
      WithPcBecomes(b, locals, m, s, k + 1);
      if k + 1 < |g| {
        SetPcThenBr(isa, b, fuel, k + 1, 1, m);
      } else {
        ExitCorrect(isa, b, fuel, m);
      }
    } else {
      var first := LowerInstr(isa, b, |g|, code[0], locals).value;
      InstrCorrect(isa, b, fuel, g, code[0], locals, m, s);
      if !Terminates(code[0]) {
        var rest := LowerInstrs(isa, b, |g|, k, code[1..], locals).value;
        ExecAppend(isa, fuel, first, rest, m);
        var f := RunInstr(isa, g, code[0], s);
        if f.Next? {
          var m' := Exec(isa, fuel, first, m).m;
          InstrsCorrect(isa, b, fuel, g, k, code[1..], locals, m', f.s);
          MatchesAfter(b, locals, m, m', f.s, RunBlock(isa, g, k, code[1..], f.s), Exec(isa, fuel, rest, m'));
        }
      }
    }
  }

  // ---- the cascade of pc tests ----

  lemma TestCorrect(isa: Isa, b: Backend, fuel: nat, k: nat, m: Machine)
    requires b.Pc() < |m.locals|
    ensures Exec(isa, fuel, LowerTest(b, k), m) == Normal(Push(m, if m.locals[b.Pc()] == k then 1 else 0))
  {
    Exec3(isa, fuel, LocalGet(b.Pc()), Const(k), Eq32, m);
    var pc := m.locals[b.Pc()];
    assert m.stack + [pc] + [k] == m.stack + [pc, k];
    assert (m.stack + [pc, k])[..|m.stack|] == m.stack;
  }

  /** The same obligation seen from the loop body: one label fewer. */
  ghost predicate Iterates(b: Backend, locals: Locals, m: Machine, f: Flow, o: Outcome)
    requires HasSlot(b, locals, m)
  {
    match f
    case Goto(k, s) =>
      o.Jumped? && o.depth == 0 && o.m.mem == m.mem && Became(b, locals, m, o.m, s, k)
    case Exit(s) =>
      && o.Jumped? && o.depth == 1 && |m.locals| == b.Base() + |locals|
      && o.m.mem == DoneMem(b, m) && Became(b, locals, m, o.m, s, m.locals[b.Pc()])
    case _ => o.Trap?
  }

  /** A pc that names none of the blocks leaves the dispatcher, with nothing changed. */
  ghost predicate CascadeDoes(b: Backend, locals: Locals, g: Graph, from: nat, isa: Isa, m: Machine, s: State, o: Outcome)
    requires HasSlot(b, locals, m) && b.Pc() < |m.locals|
  {
    var k := m.locals[b.Pc()];
    if from <= k < |g| then Iterates(b, locals, m, RunBlock(isa, g, k, g[k], s), o) else o == Jumped(1, m)
  }

  /** One test and its block: the block runs if the pc names it, and else nothing has happened. */
  lemma TestedBlock(isa: Isa, b: Backend, fuel: nat, k: nat, body: seq<Code>, rest: seq<Code>, m: Machine)
    requires b.Pc() < |m.locals|
    ensures Exec(isa, fuel, LowerTest(b, k) + ([If(body, [])] + rest), m)
            == if m.locals[b.Pc()] == k then Then(isa, fuel, Leave(Exec(isa, fuel, body, m), m.stack), rest)
               else Exec(isa, fuel, rest, m)
  {
    hide Exec;
    var top := if m.locals[b.Pc()] == k then 1 else 0;
    ExecAppend(isa, fuel, LowerTest(b, k), [If(body, [])] + rest, m);
    TestCorrect(isa, b, fuel, k, m);
    ExecAppend(isa, fuel, [If(body, [])], rest, Push(m, top));
    ExecIf(isa, fuel, body, [], Push(m, top), m.stack, top);
    assert Push(m, top).(stack := m.stack) == m;
    ExecNone(isa, fuel, m);
  }

  /** A block's code, seen from the loop body. */
  lemma LeftBlockIterates(b: Backend, isa: Isa, fuel: nat, locals: Locals, m: Machine, f: Flow, o: Outcome, rest: seq<Code>)
    requires HasSlot(b, locals, m) && |m.locals| == b.Base() + |locals|
    requires Matches(b, locals, m, f, o) && !f.Next?
    ensures Iterates(b, locals, m, f, Then(isa, fuel, Leave(o, m.stack), rest))
  {
  }

  lemma LowerBlocksFrom(isa: Isa, b: Backend, g: Graph, k: nat, locals: Locals)
    requires k <= |g| && LowerBlocks(isa, b, g, k, locals).Some?
    ensures k == |g| ==> LowerBlocks(isa, b, g, k, locals).value == [Plain(Br(1))]
    ensures k < |g| ==>
              && LowerInstrs(isa, b, |g|, k, g[k], locals).Some? && LowerBlocks(isa, b, g, k + 1, locals).Some?
              && LowerBlocks(isa, b, g, k, locals).value
                 == LowerTest(b, k) + ([If(LowerInstrs(isa, b, |g|, k, g[k], locals).value, [])]
                                       + LowerBlocks(isa, b, g, k + 1, locals).value)
  {
    hide LowerTest, LowerInstrs;
  }

  /** Exactly the block the pc names runs, whatever tests come before it; a pc that names none leaves. */
  lemma {:induction false} CascadeCorrect(
    isa: Isa, b: Backend, fuel: nat, g: Graph, from: nat, locals: Locals, m: Machine, s: State)
    requires GoodLocals(b, locals) && Agrees(b, locals, m, s) && HasSlot(b, locals, m)
    requires from <= |g| && LowerBlocks(isa, b, g, from, locals).Some?
    ensures CascadeDoes(b, locals, g, from, isa, m, s, Exec(isa, fuel, LowerBlocks(isa, b, g, from, locals).value, m))
    decreases |g| - from
  {
    assert |m.locals| == b.Base() + |locals| && b.Pc() < b.Base();
    hide *;
    LowerBlocksFrom(isa, b, g, from, locals);
    if from == |g| {
      LeavesDispatcher(isa, b, fuel, g, locals, m, s);
    } else {
      var body := LowerInstrs(isa, b, |g|, from, g[from], locals).value;
      var rest := LowerBlocks(isa, b, g, from + 1, locals).value;
      TestedBlock(isa, b, fuel, from, body, rest, m);
      if m.locals[b.Pc()] == from {
        InstrsCorrect(isa, b, fuel, g, from, g[from], locals, m, s);
        LeftBlockIterates(b, isa, fuel, locals, m, RunBlock(isa, g, from, g[from], s), Exec(isa, fuel, body, m), rest);
      } else {
        CascadeCorrect(isa, b, fuel, g, from + 1, locals, m, s);
      }
      CascadeWidens(isa, b, g, from, locals, m, s, Exec(isa, fuel, LowerBlocks(isa, b, g, from, locals).value, m));
    }
  }

  lemma LeavesDispatcher(isa: Isa, b: Backend, fuel: nat, g: Graph, locals: Locals, m: Machine, s: State)
    requires HasSlot(b, locals, m) && b.Pc() < |m.locals|
    ensures CascadeDoes(b, locals, g, |g|, isa, m, s, Exec(isa, fuel, [Plain(Br(1))], m))
  {
    Exec1(isa, fuel, Br(1), m);
  }

  lemma CascadeWidens(isa: Isa, b: Backend, g: Graph, from: nat, locals: Locals, m: Machine, s: State, o: Outcome)
    requires HasSlot(b, locals, m) && b.Pc() < |m.locals| && from < |g|
    ensures m.locals[b.Pc()] != from ==>
              (CascadeDoes(b, locals, g, from, isa, m, s, o) <==> CascadeDoes(b, locals, g, from + 1, isa, m, s, o))
    ensures m.locals[b.Pc()] == from ==>
              (CascadeDoes(b, locals, g, from, isa, m, s, o) <==> Iterates(b, locals, m, RunBlock(isa, g, from, g[from], s), o))
  {
    hide HasSlot, Iterates, RunBlock;
  }
}
