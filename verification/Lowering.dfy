/**
 The two code generators, prepare-wasm-fpu-overlay.py (a dispatch budget that traps) and
 prepare-wasm-backend-cfg-overlay.py (fuel that suspends): from a block graph to one
 block/loop dispatcher. The Lower functions say what is emitted; the methods of Emitter.dfy
 emit it.
 */
module Lowering {
  import opened Options
  import opened LittleEndian
  import opened Hir
  import opened Wasm

  datatype Backend = Trapping | Resumable {
    /** The local that holds the dispatcher's block number. */
    function Pc(): nat { if Trapping? then 1 else 2 }
    /** The local that counts the dispatches left. */
    function Budget(): nat { if Trapping? then 2 else 3 }
    /** The first local that carries an HIR value. */
    function Base(): nat { if Trapping? then 3 else 4 }
    /** Dispatches one call may make. */
    function Fuel(): nat { if Trapping? then 100000 else 4096 }
  }

  const CONTEXT_LOCAL := 0
  const SLOT_LOCAL := 1

  const FRESH := 0
  const YIELDED := 1
  const COMPLETED := 2

  const STATUS_AT := 0
  const PC_AT := 4
  const VALUES_AT := 8

  /** Where each HIR value lives: its Wasm local. */
  type Locals = map<Value, nat>

  /** What BuildLocals owes the rest: distinct locals, all declared, none of them a control local. */
  ghost predicate GoodLocals(b: Backend, locals: Locals) {
    && (forall v :: v in locals ==> b.Base() <= locals[v] < b.Base() + |locals|)
    && (forall v, u :: v in locals && u in locals && locals[v] == locals[u] ==> v == u)
  }

  // ---- values ----

  function LowerOperand(o: Operand, locals: Locals): Option<seq<Code>> {
    match o
    case Missing => None
    case Constant(bits, ty) =>
      if ty.Vec128? then None else Some([Plain(Const(LowBytes(bits, ConstantWidth(ty))))])
    case Ssa(v) => if v in locals then Some([Plain(LocalGet(locals[v]))]) else None
  }

  function LowerOperands(srcs: seq<Operand>, locals: Locals): Option<seq<Code>> {
    if srcs == [] then Some([])
    else
      match (LowerOperand(srcs[0], locals), LowerOperands(srcs[1..], locals))
      case (Some(a), Some(b)) => Some(a + b)
      case _ => None
  }

  /** 1 when the operand is non-zero (sense) or zero (not sense): eqz once or twice. */
  function LowerTruth(o: Operand, sense: bool, locals: Locals): Option<seq<Code>> {
    match LowerOperand(o, locals)
    case None => None
    case Some(code) =>
      if !IsInteger(OperandType(o)) then None
      else Some(code + [Plain(Eqz)] + (if sense then [Plain(Eqz)] else []))
  }

  // ---- control ----

  function SetPc(b: Backend, pc: nat): seq<Code> {
    [Plain(Const(pc)), Plain(LocalSet(b.Pc()))]
  }

  function SetStatus(status: nat): seq<Code> {
    [Plain(LocalGet(SLOT_LOCAL)), Plain(Const(status)), Plain(StoreMem(4, STATUS_AT))]
  }

  /** What a return boundary does before it leaves: only the resumable backend records it. */
  function MarkDone(b: Backend): seq<Code> {
    if b.Trapping? then [] else SetStatus(COMPLETED)
  }

  function LowerExit(b: Backend): seq<Code> {
    MarkDone(b) + [Plain(Br(2))]
  }

  /** A jump from directly inside a block's own if: the loop is one label further out. */
  function LowerJump(b: Backend, pc: nat): seq<Code> {
    SetPc(b, pc) + [Plain(Br(1))]
  }

  /** The same jump from inside a further if. */
  function LowerGuardedJump(b: Backend, pc: nat): seq<Code> {
    [If(SetPc(b, pc) + [Plain(Br(2))], [])]
  }

  predicate Terminates(i: Instr) {
    i.Branch? || i.Return? || i.CallIndirect?
  }

  function LowerInstr(isa: Isa, b: Backend, blocks: nat, i: Instr, locals: Locals): Option<seq<Code>> {
    match i
    case Produce(dest, op, srcs) => (
      match LowerOperands(srcs, locals)
      case Some(code) =>
        if isa.lowers(op) && dest in locals
        then Some(code + [Plain(Compute(op, |srcs|, Width(dest.ty))), Plain(LocalSet(locals[dest]))])
        else None
      case None => None)
    case Marker(op) => if isa.skips(op) then Some([]) else None
    case Store(op, srcs) => (
      match LowerOperands(srcs, locals)
      case Some(code) => if isa.lowers(op) then Some(code + [Plain(Effect(op, |srcs|))]) else None
      case None => None)
    case Branch(target) =>
      if target.Some? && target.value < blocks then Some(LowerJump(b, target.value)) else None
    case BranchIf(sense, cond, target) => (
      match LowerTruth(cond, sense, locals)
      case Some(code) =>
        if target.Some? && target.value < blocks
        then Some(code + LowerGuardedJump(b, target.value))
        else None
      case None => None)
    case Return => Some(LowerExit(b))
    case CallIndirect(possibleReturn) => if possibleReturn then Some(LowerExit(b)) else None
    case Unsupported => None
  }

  /** Where control goes when a block runs off its end. */
  function LowerFallThrough(b: Backend, blocks: nat, k: nat): seq<Code> {
    if k + 1 < blocks then LowerJump(b, k + 1) else LowerExit(b)
  }

  /** The rest of block k; nothing after a terminator is looked at. */
  function LowerInstrs(isa: Isa, b: Backend, blocks: nat, k: nat, code: seq<Instr>, locals: Locals)
    : Option<seq<Code>>
  {
    if code == [] then Some(LowerFallThrough(b, blocks, k))
    else
      match LowerInstr(isa, b, blocks, code[0], locals)
      case None => None
      case Some(first) =>
        if Terminates(code[0]) then Some(first)
        else
          match LowerInstrs(isa, b, blocks, k, code[1..], locals)
          case None => None
          case Some(rest) => Some(first + rest)
  }

  function LowerTest(b: Backend, k: nat): seq<Code> {
    [Plain(LocalGet(b.Pc())), Plain(Const(k)), Plain(Eq32)]
  }

  /** The cascade of pc tests from block k on; a pc that matches none leaves the dispatcher. */
  function LowerBlocks(isa: Isa, b: Backend, g: Graph, k: nat, locals: Locals): Option<seq<Code>>
    requires k <= |g|
    decreases |g| - k
  {
    if k == |g| then Some([Plain(Br(1))])
    else
      match (LowerInstrs(isa, b, |g|, k, g[k], locals), LowerBlocks(isa, b, g, k + 1, locals))
      case (Some(body), Some(rest)) => Some(LowerTest(b, k) + ([If(body, [])] + rest))
      case _ => None
  }

  function Spend(b: Backend): seq<Code> {
    [Plain(LocalGet(b.Budget())), Plain(Const(1)), Plain(Sub32), Plain(LocalSet(b.Budget()))]
  }

  const RESULT: seq<Code> := [Plain(LocalGet(CONTEXT_LOCAL)), Plain(LoadR3)]

  // ---- continuation slots ----

  function SlotOffset(locals: Locals, v: Value): nat
    requires v in locals
  {
    VALUES_AT + 8 * (if locals[v] >= 4 then locals[v] - 4 else 0)
  }

  function SaveValues(locals: Locals, order: seq<Value>): seq<Code>
    requires forall v :: v in order ==> v in locals
  {
    if order == [] then []
    else
      [Plain(LocalGet(SLOT_LOCAL)), Plain(LocalGet(locals[order[0]])),
       Plain(StoreMem(Width(order[0].ty), SlotOffset(locals, order[0])))]
      + SaveValues(locals, order[1..])
  }

  function Save(b: Backend, locals: Locals, order: seq<Value>): seq<Code>
    requires forall v :: v in order ==> v in locals
  {
    [Plain(LocalGet(SLOT_LOCAL)), Plain(LocalGet(b.Pc())), Plain(StoreMem(4, PC_AT))]
    + (SaveValues(locals, order) + SetStatus(YIELDED))
  }

  function RestoreValues(locals: Locals, order: seq<Value>): seq<Code>
    requires forall v :: v in order ==> v in locals
  {
    if order == [] then []
    else
      [Plain(LocalGet(SLOT_LOCAL)), Plain(LoadMem(Width(order[0].ty), SlotOffset(locals, order[0]))),
       Plain(LocalSet(locals[order[0]]))]
      + RestoreValues(locals, order[1..])
  }

  function Restore(b: Backend, locals: Locals, order: seq<Value>): seq<Code>
    requires forall v :: v in order ==> v in locals
  {
    [Plain(LocalGet(SLOT_LOCAL)), Plain(LoadMem(4, PC_AT)), Plain(LocalSet(b.Pc()))]
    + RestoreValues(locals, order)
  }

  /** What the loop does when no dispatch is left. */
  function OutOfBudget(b: Backend, locals: Locals, order: seq<Value>): seq<Code>
    requires forall v :: v in order ==> v in locals
  {
    if b.Trapping? then [Plain(Unreachable)]
    else Save(b, locals, order) + (RESULT + [Plain(ReturnOp)])
  }

  function CheckBudget(b: Backend, locals: Locals, order: seq<Value>): seq<Code>
    requires forall v :: v in order ==> v in locals
  {
    [Plain(LocalGet(b.Budget())), Plain(Eqz)] + [If(OutOfBudget(b, locals, order), [])]
  }

  function LoopBody(b: Backend, locals: Locals, order: seq<Value>, cascade: seq<Code>): seq<Code>
    requires forall v :: v in order ==> v in locals
  {
    CheckBudget(b, locals, order) + (Spend(b) + cascade)
  }

  function TestStatus(status: nat): seq<Code> {
    [Plain(LocalGet(SLOT_LOCAL)), Plain(LoadMem(4, STATUS_AT)), Plain(Const(status)), Plain(Eq32)]
  }

  /** What a call does before the dispatcher: start at block 0, or pick up where the slot says. */
  function Prologue(b: Backend, locals: Locals, order: seq<Value>): seq<Code>
    requires forall v :: v in order ==> v in locals
  {
    if b.Trapping? then SetPc(b, 0)
    else
      TestStatus(COMPLETED) + ([If(RESULT + [Plain(ReturnOp)], [])]
      + (TestStatus(YIELDED) + ([If(Restore(b, locals, order), SetPc(b, 0))]
      + SetStatus(FRESH))))
  }

  function SetBudget(b: Backend): seq<Code> {
    [Plain(Const(b.Fuel())), Plain(LocalSet(b.Budget()))]
  }

  /** The whole function body around a cascade; order is the iteration order of the value map. */
  function Body(b: Backend, locals: Locals, order: seq<Value>, cascade: seq<Code>): seq<Code>
    requires forall v :: v in order ==> v in locals
  {
    Prologue(b, locals, order)
    + (SetBudget(b) + ([Block([Loop(LoopBody(b, locals, order, cascade))])] + RESULT))
  }
}
