/**
 Tail fragments start in the middle of a function's HIR, after loads of guest registers that later
 instructions still use. Recovery reads such a value from the context at the moment it is missed.
 This module says of single operations when that is the same as having evaluated the skipped loads
 on entry; FragmentWalk.dfy says it of whole fragments.
 */
module ContextRecovery {
  import opened Options
  import opened LittleEndian
  import opened Hir

  type Bytes = seq<byte>
  type Values = map<Value, Bytes>

  /** What defines a value in the whole function, skipped part included. */
  datatype Def = LoadedFrom(offset: nat) | AssignedFrom(src: Operand) | Computed

  type Defs = map<Value, Def>

  /** The operations of a fragment, by how they read their operands. Test is what a conditional branch reads. */
  datatype Op =
    | LoadContext(dest: Value, offset: nat)
    | Assign(dest: Value, src: Operand)
    | Compute(dest: Value, op: nat, srcs: seq<Operand>)
    | Binary(dest: Value, op: nat, lhs: Operand, rhs: Operand)
    | StoreContext(offset: nat, src: Operand)
    | Test(cond: Operand)

  /** What opcodes compute: None is an operation the executor does not support. */
  type Alu = (nat, ValueType, seq<Bytes>) -> Option<Bytes>

  datatype Live = Live(ctx: Bytes, values: Values)

  const MAX_CHAIN := 9

  function Size(ty: ValueType): nat {
    match ty
    case Int8 => 1
    case Int16 => 2
    case Int32 => 4
    case Int64 => 8
    case Float32 => 4
    case Float64 => 8
    case Vec128 => 16
  }

  /** A result as wide as its type. */
  function Fit(b: Bytes, n: nat): (r: Bytes)
    ensures |r| == n
  {
    if |b| >= n then b[..n] else b + seq(n - |b|, _ => 0)
  }

  /** The bytes of a type are what its name says; a constant's are those the generators write. */
  lemma SizeInBits(ty: ValueType)
    ensures 8 * Size(ty) == match ty
                            case Int8 => 8 case Int16 => 16 case Int32 => 32 case Int64 => 64
                            case Float32 => 32 case Float64 => 64 case Vec128 => 128
    ensures !ty.Vec128? ==> Size(ty) == ConstantWidth(ty)
  {
  }

  lemma {:induction false} DecodeZeros(b: Bytes, n: nat)
    ensures Decode(b + seq(n, _ => 0)) == Decode(b)
  {
    var zeros: Bytes := seq(n, _ => 0);
    if b != [] {
      assert (b + zeros)[1..] == b[1..] + zeros;
      DecodeZeros(b[1..], n);
    } else if n > 0 {
      assert zeros[1..] == seq(n - 1, _ => 0);
      assert [] + zeros == zeros && [] + zeros[1..] == zeros[1..];
      DecodeZeros([], n - 1);
    }
  }

  lemma {:induction false} DecodeFront(b: Bytes, n: nat)
    requires n <= |b|
    ensures Decode(b[..n]) == LowBytes(Decode(b), n)
  {
    if n > 0 {
      assert b[..n][1..] == b[1..][..n - 1];
      DecodeFront(b[1..], n - 1);
      assert Decode(b) % 256 == b[0] && Decode(b) / 256 == Decode(b[1..]);
    }
  }

  /** A result is cut or extended with zeros: its value modulo what its type can hold. */
  lemma FitsValue(b: Bytes, n: nat)
    ensures Decode(Fit(b, n)) == LowBytes(Decode(b), n)
  {
    if |b| >= n {
      DecodeFront(b, n);
    } else {
      DecodeZeros(b, n - |b|);
      DecodeFront(Fit(b, n), n);
      assert Fit(b, n)[..n] == Fit(b, n);
    }
  }

  predicate InContext(ctx: Bytes, offset: nat, size: nat) {
    offset + size <= |ctx|
  }

  // ---- recovery ----

  /** ResolveContextProvenance: a load at the end of at most eight assigns of one type. */
  function Recover(defs: Defs, ctx: Bytes, v: Value, left: nat): Option<Bytes>
    decreases left
  {
    if left == 0 || v !in defs then None
    else
      match defs[v]
      case LoadedFrom(offset) =>
        if InContext(ctx, offset, Size(v.ty)) then Some(ctx[offset..offset + Size(v.ty)]) else None
      case AssignedFrom(src) => if src.Ssa? && src.value.ty == v.ty then Recover(defs, ctx, src.value, left - 1) else None
      case Computed => None
  }

  /** Where in the context a value comes from, whatever is there. */
  function Source(defs: Defs, v: Value, left: nat): Option<nat>
    decreases left
  {
    if left == 0 || v !in defs then None
    else
      match defs[v]
      case LoadedFrom(offset) => Some(offset)
      case AssignedFrom(src) => if src.Ssa? && src.value.ty == v.ty then Source(defs, src.value, left - 1) else None
      case Computed => None
  }

  // ---- running a fragment ----

  function Resolve(values: Values, o: Operand): Option<Bytes> {
    match o
    case Missing => None
    case Constant(bits, ty) => Some(Fit(Encode(bits, Size(ty)), Size(ty)))
    case Ssa(v) => if v in values then Some(values[v]) else None
  }

  /** An operand that may be recovered from the live context. */
  function ResolveOrRecover(defs: Defs, recovering: bool, st: Live, o: Operand): Option<Bytes> {
    if Resolve(st.values, o).Some? || !recovering || !o.Ssa? then Resolve(st.values, o)
    else Recover(defs, st.ctx, o.value, MAX_CHAIN)
  }

  function ResolveAll(values: Values, srcs: seq<Operand>): Option<seq<Bytes>> {
    if srcs == [] then Some([])
    else
      match (Resolve(values, srcs[0]), ResolveAll(values, srcs[1..]))
      case (Some(b), Some(rest)) => Some([b] + rest)
      case _ => None
  }

  /** ResolveCondition: only an integer is a condition. */
  function Condition(values: Values, cond: Operand): Option<bool> {
    if cond.Missing? || !IsInteger(OperandType(cond)) then None
    else
      match Resolve(values, cond)
      case None => None
      case Some(b) => Some(Decode(b) != 0)
  }

  function Overwrite(ctx: Bytes, offset: nat, b: Bytes): (r: Bytes)
    requires InContext(ctx, offset, |b|)
    ensures |r| == |ctx|
    ensures forall i :: 0 <= i < |ctx| && !(offset <= i < offset + |b|) ==> r[i] == ctx[i]
  {
    ctx[..offset] + b + ctx[offset + |b|..]
  }

  function Put(st: Live, dest: Value, b: Option<Bytes>): Option<Live> {
    match b
    case None => None
    case Some(bytes) => Some(st.(values := st.values[dest := Fit(bytes, Size(dest.ty))]))
  }

  function OperandSize(o: Operand): nat {
    if o.Missing? then 0 else Size(OperandType(o))
  }

  /** One instruction; None when the executor reports it as unsupported. */
  function Step(alu: Alu, defs: Defs, recovering: bool, st: Live, op: Op): Option<Live> {
    match op
    case LoadContext(dest, offset) =>
      if InContext(st.ctx, offset, Size(dest.ty)) then Put(st, dest, Some(st.ctx[offset..offset + Size(dest.ty)])) else None
    case Assign(dest, src) => Put(st, dest, Resolve(st.values, src))
    case Compute(dest, o, srcs) => (
      match ResolveAll(st.values, srcs)
      case None => None
      case Some(args) => Put(st, dest, alu(o, dest.ty, args)))
    case Binary(dest, o, lhs, rhs) => (
      match (ResolveOrRecover(defs, recovering, st, lhs), ResolveOrRecover(defs, recovering, st, rhs))
      case (Some(a), Some(b)) => Put(st, dest, alu(o, dest.ty, [a, b]))
      case _ => None)
    case StoreContext(offset, src) => (
      if src.Missing? || !InContext(st.ctx, offset, OperandSize(src)) then None
      else
        match ResolveOrRecover(defs, recovering, st, src)
        case None => None
        case Some(b) =>
          var stored := st.(ctx := Overwrite(st.ctx, offset, Fit(b, OperandSize(src))));
          if src.Ssa? && src.value !in st.values then Some(stored.(values := st.values[src.value := b])) else Some(stored))
    case Test(cond) => if Condition(st.values, cond).Some? then Some(st) else None
  }

  // ---- what is known, and what may be missed ----

  /** The values an instruction leaves known. */
  function Learns(op: Op): set<Value> {
    match op
    case StoreContext(_, src) => if src.Ssa? then {src.value} else {}
    case Test(_) => {}
    case _ => {op.dest}
  }

  /** The operands an instruction reads, and may recover. */
  function Recoverable(op: Op): set<Value> {
    match op
    case Binary(_, _, lhs, rhs) => (if lhs.Ssa? then {lhs.value} else {}) + (if rhs.Ssa? then {rhs.value} else {})
    case StoreContext(_, src) => if src.Ssa? then {src.value} else {}
    case _ => {}
  }

  /** The operands an instruction reads and never recovers. */
  function Strict(op: Op): set<Value> {
    match op
    case Assign(_, src) => if src.Ssa? then {src.value} else {}
    case Compute(_, _, srcs) => set i: nat | i < |srcs| && srcs[i].Ssa? :: srcs[i].value
    case Test(cond) => if cond.Ssa? then {cond.value} else {}
    case _ => {}
  }

  datatype Range = Range(offset: nat, size: nat)

  function Stores(op: Op): seq<Range> {
    match op
    case StoreContext(offset, src) => [Range(offset, OperandSize(src))]
    case _ => []
  }

  predicate Disjoint(a: Range, b: Range) {
    a.offset + a.size <= b.offset || b.offset + b.size <= a.offset
  }

  predicate SlotUntouched(defs: Defs, v: Value, stores: seq<Range>) {
    var at := Source(defs, v, MAX_CHAIN);
    at.Some? ==> forall i :: 0 <= i < |stores| ==> Disjoint(Range(at.value, Size(v.ty)), stores[i])
  }

  /** Nothing the operation may have to recover has been stored over. */
  predicate RecoversInTime(defs: Defs, op: Op, known: set<Value>, stores: seq<Range>) {
    forall v :: v in Recoverable(op) && v !in known ==> SlotUntouched(defs, v, stores)
  }

  /** The values the skipped part would have given, had it been evaluated on entry. */
  function PreEvaluated(defs: Defs, ctx: Bytes): Values {
    map v | v in defs && Recover(defs, ctx, v, MAX_CHAIN).Some? :: Recover(defs, ctx, v, MAX_CHAIN).value
  }

  // ---- lemmas ----

  /** A value's source is all its recovery looks at. */
  lemma {:induction false} RecoverReadsSource(defs: Defs, ctx: Bytes, v: Value, left: nat)
    ensures var at := Source(defs, v, left);
            Recover(defs, ctx, v, left)
            == if at.Some? && InContext(ctx, at.value, Size(v.ty)) then Some(ctx[at.value..at.value + Size(v.ty)]) else None
    decreases left
  {
    if left > 0 && v in defs && defs[v].AssignedFrom? && defs[v].src.Ssa? && defs[v].src.value.ty == v.ty {
      RecoverReadsSource(defs, ctx, defs[v].src.value, left - 1);
    }
  }

  /** Outside the ranges stored so far, the context is still what it was on entry. */
  ghost predicate StoredOnly(ctx0: Bytes, ctx: Bytes, stores: seq<Range>) {
    && |ctx| == |ctx0|
    && forall i :: 0 <= i < |ctx|
                   && (forall k :: 0 <= k < |stores| ==> !(stores[k].offset <= i < stores[k].offset + stores[k].size))
                   ==> ctx[i] == ctx0[i]
  }

  lemma SlicesAgree(a: Bytes, b: Bytes, from: nat, n: nat)
    requires from + n <= |a| && |a| == |b|
    requires forall i :: from <= i < from + n ==> a[i] == b[i]
    ensures a[from..from + n] == b[from..from + n]
  {
  }

  lemma RecoverUntouched(defs: Defs, ctx0: Bytes, ctx: Bytes, stores: seq<Range>, v: Value)
    requires StoredOnly(ctx0, ctx, stores) && SlotUntouched(defs, v, stores)
    ensures Recover(defs, ctx, v, MAX_CHAIN) == Recover(defs, ctx0, v, MAX_CHAIN)
  {
    RecoverReadsSource(defs, ctx, v, MAX_CHAIN);
    RecoverReadsSource(defs, ctx0, v, MAX_CHAIN);
    var at := Source(defs, v, MAX_CHAIN);
    if at.Some? && InContext(ctx, at.value, Size(v.ty)) {
      forall i | at.value <= i < at.value + Size(v.ty)
        ensures ctx[i] == ctx0[i]
      {
        forall k | 0 <= k < |stores|
          ensures !(stores[k].offset <= i < stores[k].offset + stores[k].size)
        {
          assert Disjoint(Range(at.value, Size(v.ty)), stores[k]);
        }
      }
      SlicesAgree(ctx, ctx0, at.value, Size(v.ty));
    }
  }

  /**
   Two runs in step: one that recovers, and a strict one that was given the pre-evaluated values
   on entry. Their contexts are the same, and the strict one's values are the pre-evaluated ones
   with what the other has learnt on top.
   */
  ghost predicate InStep(defs: Defs, ctx0: Bytes, a: Live, b: Live, known: set<Value>, stores: seq<Range>) {
    && a.ctx == b.ctx && StoredOnly(ctx0, a.ctx, stores)
    && a.values.Keys == known
    && b.values == PreEvaluated(defs, ctx0) + a.values
  }

  /** An operand that may be recovered is the same in both. */
  lemma SameOperand(defs: Defs, ctx0: Bytes, a: Live, b: Live, known: set<Value>, stores: seq<Range>, o: Operand)
    requires InStep(defs, ctx0, a, b, known, stores)
    requires o.Ssa? && o.value !in known ==> SlotUntouched(defs, o.value, stores)
    ensures ResolveOrRecover(defs, true, a, o) == Resolve(b.values, o)
  {
    if o.Ssa? && o.value !in known {
      RecoverUntouched(defs, ctx0, a.ctx, stores, o.value);
      if o.value !in defs {
        assert Recover(defs, a.ctx, o.value, MAX_CHAIN).None?;
      }
    }
  }

  lemma {:induction false} SameStrictOperands(defs: Defs, ctx0: Bytes, a: Live, b: Live, srcs: seq<Operand>)
    requires b.values == PreEvaluated(defs, ctx0) + a.values
    requires forall i :: 0 <= i < |srcs| && srcs[i].Ssa? ==> srcs[i].value in a.values
    ensures ResolveAll(a.values, srcs) == ResolveAll(b.values, srcs)
  {
    if srcs != [] {
      SameStrictOperands(defs, ctx0, a, b, srcs[1..]);
    }
  }

  lemma {:induction false} MissingOperandFails(values: Values, srcs: seq<Operand>, i: nat)
    requires i < |srcs| && srcs[i].Ssa? && srcs[i].value !in values
    ensures ResolveAll(values, srcs).None?
  {
    if i > 0 {
      MissingOperandFails(values, srcs[1..], i - 1);
    }
  }

  // ---- the two runs stay in step ----

  lemma PutInStep(
    defs: Defs, ctx0: Bytes, a: Live, b: Live, known: set<Value>, stores: seq<Range>, dest: Value, r: Option<Bytes>)
    requires InStep(defs, ctx0, a, b, known, stores)
    ensures r.Some? ==> InStep(defs, ctx0, Put(a, dest, r).value, Put(b, dest, r).value, known + {dest}, stores)
  {
    if r.Some? {
      var bytes := Fit(r.value, Size(dest.ty));
      assert b.values[dest := bytes] == PreEvaluated(defs, ctx0) + a.values[dest := bytes];
    }
  }

  lemma StoreInStep(alu: Alu, defs: Defs, ctx0: Bytes, a: Live, b: Live, known: set<Value>, stores: seq<Range>, op: Op)
    requires InStep(defs, ctx0, a, b, known, stores) && op.StoreContext?
    requires op.src.Ssa? && op.src.value !in known ==> SlotUntouched(defs, op.src.value, stores)
    ensures var a', b' := Step(alu, defs, true, a, op), Step(alu, defs, false, b, op);
            && (a'.Some? <==> b'.Some?)
            && (a'.Some? ==> InStep(defs, ctx0, a'.value, b'.value, known + Learns(op), stores + Stores(op)))
  {
    hide Recover, Source;
    SameOperand(defs, ctx0, a, b, known, stores, op.src);
    var r := ResolveOrRecover(defs, true, a, op.src);
    if !op.src.Missing? && InContext(a.ctx, op.offset, OperandSize(op.src)) && r.Some? {
      var a', b' := Step(alu, defs, true, a, op).value, Step(alu, defs, false, b, op).value;
      StoredOneMore(ctx0, a.ctx, stores, op.offset, Fit(r.value, OperandSize(op.src)));
      assert b'.values == PreEvaluated(defs, ctx0) + a'.values;
    }
  }

  lemma StoredOneMore(ctx0: Bytes, ctx: Bytes, stores: seq<Range>, offset: nat, b: Bytes)
    requires StoredOnly(ctx0, ctx, stores) && InContext(ctx, offset, |b|)
    ensures StoredOnly(ctx0, Overwrite(ctx, offset, b), stores + [Range(offset, |b|)])
  {
    var more := stores + [Range(offset, |b|)];
    var ctx' := Overwrite(ctx, offset, b);
    forall i | 0 <= i < |ctx'| && (forall k :: 0 <= k < |more| ==> !(more[k].offset <= i < more[k].offset + more[k].size))
      ensures ctx'[i] == ctx0[i]
    {
      assert more[|stores|] == Range(offset, |b|);
      forall k | 0 <= k < |stores|
        ensures !(stores[k].offset <= i < stores[k].offset + stores[k].size)
      {
        assert more[k] == stores[k];
      }
    }
  }

  /** One instruction, when nothing it may recover has been stored over. */
  lemma StepInStep(alu: Alu, defs: Defs, ctx0: Bytes, a: Live, b: Live, known: set<Value>, stores: seq<Range>, op: Op)
    requires InStep(defs, ctx0, a, b, known, stores)
    requires RecoversInTime(defs, op, known, stores)
    ensures var a', b' := Step(alu, defs, true, a, op), Step(alu, defs, false, b, op);
            && (a'.Some? <==> b'.Some? && Strict(op) <= known)
            && (a'.Some? ==> InStep(defs, ctx0, a'.value, b'.value, known + Learns(op), stores + Stores(op)))
  {
    hide Recover, Source, StoredOnly, InStep, PreEvaluated;
    assert stores + [] == stores;
    match op
    case LoadContext(dest, offset) =>
      LoadInStep(alu, defs, ctx0, a, b, known, stores, op);
    case Assign(dest, src) =>
      AssignInStep(alu, defs, ctx0, a, b, known, stores, op);
    case Compute(dest, o, srcs) =>
      ComputeInStep(alu, defs, ctx0, a, b, known, stores, op);
    case Binary(dest, o, lhs, rhs) =>
      BinaryInStep(alu, defs, ctx0, a, b, known, stores, op);
    case StoreContext(offset, src) =>
      StoreInStep(alu, defs, ctx0, a, b, known, stores, op);
    case Test(cond) =>
      TestInStep(alu, defs, ctx0, a, b, known, stores, op);
  }

  lemma TestInStep(alu: Alu, defs: Defs, ctx0: Bytes, a: Live, b: Live, known: set<Value>, stores: seq<Range>, op: Op)
    requires InStep(defs, ctx0, a, b, known, stores) && op.Test?
    ensures var a', b' := Step(alu, defs, true, a, op), Step(alu, defs, false, b, op);
            && (a'.Some? <==> b'.Some? && Strict(op) <= known)
            && (a'.Some? ==> a'.value == a && b'.value == b && InStep(defs, ctx0, a, b, known + Learns(op), stores))
            && (a'.Some? ==> Condition(a.values, op.cond) == Condition(b.values, op.cond))
  {
    hide Recover, Source, StoredOnly, PreEvaluated;
    assert known + {} == known;
  }

  lemma LoadInStep(alu: Alu, defs: Defs, ctx0: Bytes, a: Live, b: Live, known: set<Value>, stores: seq<Range>, op: Op)
    requires InStep(defs, ctx0, a, b, known, stores) && op.LoadContext?
    ensures var a', b' := Step(alu, defs, true, a, op), Step(alu, defs, false, b, op);
            && (a'.Some? <==> b'.Some?)
            && (a'.Some? ==> InStep(defs, ctx0, a'.value, b'.value, known + Learns(op), stores))
  {
    hide Recover, Source, StoredOnly, PreEvaluated, Size, InStep, Put;
    InStepContext(defs, ctx0, a, b, known, stores);
    var n := Size(op.dest.ty);
    if InContext(a.ctx, op.offset, n) {
      PutInStep(defs, ctx0, a, b, known, stores, op.dest, Some(a.ctx[op.offset..op.offset + n]));
      PutGives(a, op.dest, a.ctx[op.offset..op.offset + n]);
      PutGives(b, op.dest, a.ctx[op.offset..op.offset + n]);
    }
  }

  lemma PutGives(st: Live, dest: Value, b: Bytes)
    ensures Put(st, dest, Some(b)).Some?
  {
  }

  lemma AssignInStep(alu: Alu, defs: Defs, ctx0: Bytes, a: Live, b: Live, known: set<Value>, stores: seq<Range>, op: Op)
    requires InStep(defs, ctx0, a, b, known, stores) && op.Assign?
    ensures var a', b' := Step(alu, defs, true, a, op), Step(alu, defs, false, b, op);
            && (a'.Some? <==> b'.Some? && Strict(op) <= known)
            && (a'.Some? ==> InStep(defs, ctx0, a'.value, b'.value, known + Learns(op), stores))
  {
    hide Recover, Source, StoredOnly, PreEvaluated;
    PutInStep(defs, ctx0, a, b, known, stores, op.dest, Resolve(a.values, op.src));
  }

  lemma ComputeInStep(alu: Alu, defs: Defs, ctx0: Bytes, a: Live, b: Live, known: set<Value>, stores: seq<Range>, op: Op)
    requires InStep(defs, ctx0, a, b, known, stores) && op.Compute?
    ensures var a', b' := Step(alu, defs, true, a, op), Step(alu, defs, false, b, op);
            && (a'.Some? ==> b'.Some? && Strict(op) <= known)
            && (b'.Some? && Strict(op) <= known ==> a'.Some?)
            && (a'.Some? ==> InStep(defs, ctx0, a'.value, b'.value, known + Learns(op), stores))
  {
    hide Recover, Source, StoredOnly, PreEvaluated;
    if Strict(op) <= known {
      forall i | 0 <= i < |op.srcs| && op.srcs[i].Ssa?
        ensures op.srcs[i].value in a.values
      {
        assert op.srcs[i].value in Strict(op);
      }
      SameStrictOperands(defs, ctx0, a, b, op.srcs);
      var args := ResolveAll(a.values, op.srcs);
      if args.Some? {
        PutInStep(defs, ctx0, a, b, known, stores, op.dest, alu(op.op, op.dest.ty, args.value));
      }
    } else {
      var v :| v in Strict(op) && v !in known;
      var i: nat :| i < |op.srcs| && op.srcs[i].Ssa? && op.srcs[i].value == v;
      MissingOperandFails(a.values, op.srcs, i);
    }
  }

  lemma BinaryInStep(alu: Alu, defs: Defs, ctx0: Bytes, a: Live, b: Live, known: set<Value>, stores: seq<Range>, op: Op)
    requires InStep(defs, ctx0, a, b, known, stores) && op.Binary?
    requires RecoversInTime(defs, op, known, stores)
    ensures var a', b' := Step(alu, defs, true, a, op), Step(alu, defs, false, b, op);
            && (a'.Some? <==> b'.Some?)
            && (a'.Some? ==> InStep(defs, ctx0, a'.value, b'.value, known + Learns(op), stores))
  {
    hide Recover, Source, StoredOnly, PreEvaluated, SlotUntouched;
    SameOperand(defs, ctx0, a, b, known, stores, op.lhs);
    SameOperand(defs, ctx0, a, b, known, stores, op.rhs);
    var l, r := ResolveOrRecover(defs, true, a, op.lhs), ResolveOrRecover(defs, true, a, op.rhs);
    if l.Some? && r.Some? {
      PutInStep(defs, ctx0, a, b, known, stores, op.dest, alu(op.op, op.dest.ty, [l.value, r.value]));
    }
  }

  lemma InStepContext(defs: Defs, ctx0: Bytes, a: Live, b: Live, known: set<Value>, stores: seq<Range>)
    requires InStep(defs, ctx0, a, b, known, stores)
    ensures a.ctx == b.ctx
  {
  }

  // ---- what is recovered ----

  /** From a value down to the load it comes from, one assign of the same type at a time. */
  ghost predicate IsChain(defs: Defs, chain: seq<Value>, offset: nat) {
    && chain != []
    && (forall i :: 0 <= i < |chain| ==> chain[i] in defs && chain[i].ty == chain[0].ty)
    && (forall i :: 0 <= i < |chain| - 1 ==> defs[chain[i]] == AssignedFrom(Ssa(chain[i + 1])))
    && defs[chain[|chain| - 1]] == LoadedFrom(offset)
  }

  lemma {:induction false} ChainGivesSource(defs: Defs, chain: seq<Value>, offset: nat, left: nat)
    requires IsChain(defs, chain, offset) && |chain| <= left
    ensures Source(defs, chain[0], left) == Some(offset)
    decreases |chain|
  {
    if |chain| > 1 {
      var rest := chain[1..];
      assert forall i :: 0 <= i < |rest| - 1 ==> defs[rest[i]] == AssignedFrom(Ssa(rest[i + 1])) by {
        forall i | 0 <= i < |rest| - 1
          ensures defs[rest[i]] == AssignedFrom(Ssa(rest[i + 1]))
        {
          assert rest[i] == chain[i + 1] && rest[i + 1] == chain[i + 2];
        }
      }
      ChainGivesSource(defs, rest, offset, left - 1);
      assert defs[chain[0]] == AssignedFrom(Ssa(chain[1]));
    }
  }

  lemma {:induction false} SourceGivesChain(defs: Defs, v: Value, left: nat) returns (chain: seq<Value>)
    requires Source(defs, v, left).Some?
    ensures IsChain(defs, chain, Source(defs, v, left).value) && chain[0] == v && |chain| <= left
    decreases left
  {
    if defs[v].LoadedFrom? {
      chain := [v];
    } else {
      var rest := SourceGivesChain(defs, defs[v].src.value, left - 1);
      chain := [v] + rest;
    }
  }

  /** A value is recovered exactly when it is a load in range, or at most eight assigns of its type away from one. */
  lemma RecoveredIffChain(defs: Defs, ctx: Bytes, v: Value)
    ensures Recover(defs, ctx, v, MAX_CHAIN).Some? <==>
            exists chain, offset: nat :: IsChain(defs, chain, offset) && chain[0] == v && |chain| <= 8 + 1
                                         && InContext(ctx, offset, Size(v.ty))
  {
    RecoverReadsSource(defs, ctx, v, MAX_CHAIN);
    if Source(defs, v, MAX_CHAIN).Some? {
      var _ := SourceGivesChain(defs, v, MAX_CHAIN);
    }
    if chain, offset: nat :| IsChain(defs, chain, offset) && chain[0] == v && |chain| <= MAX_CHAIN
                             && InContext(ctx, offset, Size(v.ty))
    {
      ChainGivesSource(defs, chain, offset, MAX_CHAIN);
    }
  }

  /** A store that never changes what is recovered, whatever the context and the bytes stored. */
  ghost predicate NeverMatters(defs: Defs, v: Value, store: Range) {
    forall ctx: Bytes, b: Bytes {:trigger Overwrite(ctx, store.offset, b)} ::
      |b| == store.size && InContext(ctx, store.offset, |b|) ==>
        Recover(defs, Overwrite(ctx, store.offset, b), v, MAX_CHAIN) == Recover(defs, ctx, v, MAX_CHAIN)
  }

  /** So the condition on slots is exact: a store never matters to a value if and only if it misses the value's slot. */
  lemma OnlyDisjointStoresNeverMatter(defs: Defs, v: Value, at: nat, store: Range)
    requires Source(defs, v, MAX_CHAIN) == Some(at) && store.size > 0
    ensures NeverMatters(defs, v, store) <==> Disjoint(Range(at, Size(v.ty)), store)
  {
    hide Recover, Source;
    var n := Size(v.ty);
    if Disjoint(Range(at, n), store) {
      forall ctx: Bytes, b: Bytes | |b| == store.size && InContext(ctx, store.offset, |b|)
        ensures Recover(defs, Overwrite(ctx, store.offset, b), v, MAX_CHAIN) == Recover(defs, ctx, v, MAX_CHAIN)
      {
        var after := Overwrite(ctx, store.offset, b);
        RecoverReadsSource(defs, ctx, v, MAX_CHAIN);
        RecoverReadsSource(defs, after, v, MAX_CHAIN);
        if InContext(ctx, at, n) {
          assert after[at..at + n] == ctx[at..at + n];
        }
      }
    } else {
      var ctx: Bytes := seq(at + n + store.offset + store.size, _ => 0);
      var b: Bytes := seq(store.size, _ => 1);
      var after := Overwrite(ctx, store.offset, b);
      RecoverReadsSource(defs, ctx, v, MAX_CHAIN);
      RecoverReadsSource(defs, after, v, MAX_CHAIN);
      var i := if at < store.offset then store.offset else at;
      assert after[i] == 1 && ctx[i] == 0;
      assert after[at..at + n][i - at] == 1 && ctx[at..at + n][i - at] == 0;
    }
  }

  // ---- the skipped part ----

  /** The loads and assigns of the skipped part, evaluated in order on a context. */
  function Skipped(prefix: seq<Op>, ctx: Bytes): Values {
    if prefix == [] then map[]
    else
      var before := Skipped(prefix[..|prefix| - 1], ctx);
      match prefix[|prefix| - 1]
      case LoadContext(dest, offset) =>
        if InContext(ctx, offset, Size(dest.ty)) then before[dest := ctx[offset..offset + Size(dest.ty)]] else before
      case Assign(dest, src) =>
        if src.Ssa? && src.value.ty == dest.ty && src.value in before then before[dest := before[src.value]] else before
      case _ => before
  }

  /** Each value of the skipped part is defined there as the definitions say. */
  ghost predicate Defines(defs: Defs, prefix: seq<Op>) {
    forall i :: 0 <= i < |prefix| && !prefix[i].StoreContext? && !prefix[i].Test? ==>
      && prefix[i].dest in defs
      && defs[prefix[i].dest] ==
         match prefix[i]
         case LoadContext(_, offset) => LoadedFrom(offset)
         case Assign(_, src) => AssignedFrom(src)
         case _ => Computed
  }

  /** What the skipped part gives a value is what its chain recovers, however long the chain. */
  lemma {:induction false} SkippedIsRecovered(defs: Defs, prefix: seq<Op>, ctx: Bytes, v: Value) returns (left: nat)
    requires Defines(defs, prefix) && v in Skipped(prefix, ctx)
    ensures Recover(defs, ctx, v, left) == Some(Skipped(prefix, ctx)[v])
    decreases |prefix|
  {
    var before := prefix[..|prefix| - 1];
    var op := prefix[|prefix| - 1];
    if op.LoadContext? && op.dest == v && InContext(ctx, op.offset, Size(v.ty)) {
      left := 1;
    } else if op.Assign? && op.dest == v && op.src.Ssa? && op.src.value.ty == v.ty && op.src.value in Skipped(before, ctx) {
      left := SkippedIsRecovered(defs, before, ctx, op.src.value);
      left := left + 1;
    } else {
      left := SkippedIsRecovered(defs, before, ctx, v);
    }
  }

  lemma {:induction false} LongerFuel(defs: Defs, ctx: Bytes, v: Value, left: nat, more: nat)
    requires Recover(defs, ctx, v, left).Some? && left <= more
    ensures Recover(defs, ctx, v, more) == Recover(defs, ctx, v, left)
    decreases left
  {
    if defs[v].AssignedFrom? {
      LongerFuel(defs, ctx, defs[v].src.value, left - 1, more - 1);
    }
  }

  /** Pre-evaluated values are the values of the skipped part, run on the context of the entry. */
  lemma PreEvaluatedIsSkipped(defs: Defs, prefix: seq<Op>, ctx: Bytes, v: Value)
    requires Defines(defs, prefix) && v in Skipped(prefix, ctx) && v in PreEvaluated(defs, ctx)
    ensures PreEvaluated(defs, ctx)[v] == Skipped(prefix, ctx)[v]
  {
    var left := SkippedIsRecovered(defs, prefix, ctx, v);
    var more := if left < MAX_CHAIN then MAX_CHAIN else left;
    LongerFuel(defs, ctx, v, left, more);
    LongerFuel(defs, ctx, v, MAX_CHAIN, more);
  }
}
