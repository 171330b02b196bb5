/**
 The finalized HIR that the Wasm backends receive, and what running it means: a graph of
 blocks walked one block at a time. What one value-producing or storing opcode computes is a
 parameter (Isa); how its operands and result travel is not.
 */
module Hir {
  import opened Options
  import opened LittleEndian

  /** Everything the guest code reaches through its context pointer. */
  type Context = seq<byte>

  /** The opcodes a backend knows, and what each computes. None is a machine trap. */
  datatype Isa = Isa(
    lowers: nat -> bool,
    skips: nat -> bool,
    converts: nat -> bool,
    produce: (nat, Context, seq<nat>) -> Option<nat>,
    store: (nat, Context, seq<nat>) -> Option<Context>,
    r3: Context -> nat)

  datatype ValueType = Int8 | Int16 | Int32 | Int64 | Float32 | Float64 | Vec128

  /** An SSA value; the pair stands for the identity of the Value object. */
  datatype Value = Value(id: nat, ty: ValueType)

  datatype Operand = Missing | Constant(bits: nat, ty: ValueType) | Ssa(value: Value)

  /** A label's block, by its position in the builder's list; None is a null label or a foreign block. */
  type Label = Option<nat>

  datatype Instr =
    | Produce(dest: Value, op: nat, srcs: seq<Operand>)
    | Marker(op: nat)
    | Store(op: nat, srcs: seq<Operand>)
    | Branch(target: Label)
    | BranchIf(sense: bool, cond: Operand, target: Label)
    | Return
    | CallIndirect(possibleReturn: bool)
    | Unsupported

  type Graph = seq<seq<Instr>>

  predicate IsInteger(ty: ValueType) {
    ty.Int8? || ty.Int16? || ty.Int32? || ty.Int64?
  }

  predicate IsWide(ty: ValueType) {
    ty.Int64? || ty.Float64?
  }

  function OperandType(o: Operand): ValueType
    requires !o.Missing?
  {
    match o
    case Constant(_, ty) => ty
    case Ssa(v) => v.ty
  }

  /** Bytes of the Wasm local that carries a value of this type. */
  function Width(ty: ValueType): (n: nat)
    ensures n == 4 || n == 8
  {
    if IsWide(ty) then 8 else 4
  }

  /** Bytes of the value itself: EmitMask narrows 8- and 16-bit constants. */
  function ConstantWidth(ty: ValueType): (n: nat)
    ensures n <= Width(ty)
  {
    match ty
    case Int8 => 1
    case Int16 => 2
    case _ => Width(ty)
  }

  datatype State = State(ctx: Context, vals: map<Value, nat>)

  /** A value not yet defined reads as zero, as a fresh Wasm local does. */
  function ValueOf(s: State, v: Value): nat {
    if v in s.vals then s.vals[v] else 0
  }

  function Read(s: State, o: Operand): nat {
    match o
    case Missing => 0
    case Constant(bits, ty) => LowBytes(bits, ConstantWidth(ty))
    case Ssa(v) => ValueOf(s, v)
  }

  function ReadAll(s: State, srcs: seq<Operand>): (r: seq<nat>)
    ensures |r| == |srcs|
  {
    if srcs == [] then [] else [Read(s, srcs[0])] + ReadAll(s, srcs[1..])
  }

  /** Operands are read in their order. */
  lemma {:induction false} ReadAllAt(s: State, srcs: seq<Operand>, i: nat)
    requires i < |srcs|
    ensures ReadAll(s, srcs)[i] == Read(s, srcs[i])
  {
    hide Read;
    if i > 0 {
      ReadAllAt(s, srcs[1..], i - 1);
    }
  }

  /** Every value fits the Wasm local that will carry it. */
  ghost predicate Typed(s: State) {
    forall v :: v in s.vals ==> s.vals[v] < Capacity(Width(v.ty))
  }

  /** Where control is after one instruction, or after the rest of one block. */
  datatype Flow = Next(s: State) | Goto(block: nat, s: State) | Exit(s: State) | Fault

  function Jump(g: Graph, target: Label, s: State): Flow {
    if target.Some? && target.value < |g| then Goto(target.value, s) else Fault
  }

  function RunInstr(isa: Isa, g: Graph, i: Instr, s: State): Flow {
    match i
    case Produce(dest, op, srcs) => (
      match isa.produce(op, s.ctx, ReadAll(s, srcs))
      case None => Fault
      case Some(v) => Next(s.(vals := s.vals[dest := LowBytes(v, Width(dest.ty))])))
    case Marker(_) => Next(s)
    case Store(op, srcs) => (
      match isa.store(op, s.ctx, ReadAll(s, srcs))
      case None => Fault
      case Some(ctx) => Next(s.(ctx := ctx)))
    case Branch(target) => Jump(g, target, s)
    case BranchIf(sense, cond, target) =>
      if (Read(s, cond) != 0) == sense then Jump(g, target, s) else Next(s)
    case Return => Exit(s)
    case CallIndirect(possibleReturn) => if possibleReturn then Exit(s) else Fault
    case Unsupported => Fault
  }

  /** Runs what is left of block k: an untaken branch goes on with the next instruction. */
  function RunBlock(isa: Isa, g: Graph, k: nat, code: seq<Instr>, s: State): Flow
    ensures !RunBlock(isa, g, k, code, s).Next?
    ensures RunBlock(isa, g, k, code, s).Goto? ==> RunBlock(isa, g, k, code, s).block < |g|
  {
    if code == [] then
      if k + 1 < |g| then Goto(k + 1, s) else Exit(s)
    else
      match RunInstr(isa, g, code[0], s)
      case Next(s') => RunBlock(isa, g, k, code[1..], s')
      case other => other
  }

  /** A walk over the graph, counted in blocks dispatched. */
  datatype Walk = Running(block: nat, s: State) | Finished(ctx: Context) | Faulted

  function Dispatch(isa: Isa, g: Graph, w: Walk): Walk {
    match w
    case Running(k, s) =>
      if k >= |g| then Faulted
      else (
        match RunBlock(isa, g, k, g[k], s)
        case Goto(k', s') => Running(k', s')
        case Exit(s') => Finished(s'.ctx)
        case _ => Faulted)
    case _ => w
  }

  function Dispatches(isa: Isa, g: Graph, n: nat, w: Walk): (r: Walk)
  {
    if n == 0 then w else Dispatches(isa, g, n - 1, Dispatch(isa, g, w))
  }

  /** The walk that starts at the first block with no value defined yet. */
  function Entry(ctx: Context): Walk {
    Running(0, State(ctx, map[]))
  }

  ghost predicate GoodWalk(g: Graph, w: Walk) {
    w.Running? ==> w.block < |g| && Typed(w.s)
  }

  lemma {:induction false} BlockKeepsTypes(isa: Isa, g: Graph, k: nat, code: seq<Instr>, s: State)
    requires Typed(s)
    ensures var f := RunBlock(isa, g, k, code, s); !f.Fault? ==> Typed(f.s)
  {
    if code != [] && RunInstr(isa, g, code[0], s).Next? {
      BlockKeepsTypes(isa, g, k, code[1..], RunInstr(isa, g, code[0], s).s);
    }
  }

  lemma DispatchKeepsGood(isa: Isa, g: Graph, w: Walk)
    requires GoodWalk(g, w)
    ensures GoodWalk(g, Dispatch(isa, g, w))
  {
    if w.Running? {
      BlockKeepsTypes(isa, g, w.block, g[w.block], w.s);
    }
  }

  lemma {:induction false} DispatchesKeepGood(isa: Isa, g: Graph, n: nat, w: Walk)
    requires GoodWalk(g, w)
    ensures GoodWalk(g, Dispatches(isa, g, n, w))
  {
    if n > 0 {
      DispatchKeepsGood(isa, g, w);
      DispatchesKeepGood(isa, g, n - 1, Dispatch(isa, g, w));
    }
  }

  /** A walk may be cut anywhere and picked up again. */
  lemma {:induction false} DispatchesCompose(isa: Isa, g: Graph, m: nat, n: nat, w: Walk)
    ensures Dispatches(isa, g, m + n, w) == Dispatches(isa, g, n, Dispatches(isa, g, m, w))
  {
    if m > 0 {
      DispatchesCompose(isa, g, m - 1, n, Dispatch(isa, g, w));
    }
  }

  lemma {:induction false} EndedWalkStays(isa: Isa, g: Graph, n: nat, w: Walk)
    requires !w.Running?
    ensures Dispatches(isa, g, n, w) == w
  {
    if n > 0 {
      EndedWalkStays(isa, g, n - 1, w);
    }
  }
}
