/**
 A tail fragment is a graph of blocks, entered anywhere and walked one instruction at a time, with
 branches and loops. A value that recovery does not remember is recovered anew each time round, so
 whether it is recovered in time depends on the way the walk has taken.
 */
module FragmentWalk {
  import opened Options
  import opened LittleEndian
  import opened Hir
  import opened ContextRecovery

  /** A label that is no block's is None in the source; here any number past the last block. */
  datatype Code =
    | Do(op: Op)
    | Jump(to: nat)
    | JumpIf(sense: bool, cond: Operand, to: nat)
    | Leave
    | LeaveIf(cond: Operand)

  type Fragment = seq<seq<Code>>

  datatype Place = At(block: nat, pos: nat, st: Live) | Left(st: Live) | RanOff(st: Live) | Blocked

  /** The next instruction from a position: a block that is over falls into the next. */
  function Settle(g: Fragment, block: nat, pos: nat): (r: (nat, nat))
    ensures r.0 < |g| ==> r.1 < |g[r.0]|
    decreases if block < |g| then |g| - block else 0
  {
    if block < |g| && pos >= |g[block]| then Settle(g, block + 1, 0) else (block, pos)
  }

  predicate Arrived(g: Fragment, w: Place) {
    w.At? && Settle(g, w.block, w.pos).0 < |g|
  }

  function CodeAt(g: Fragment, w: Place): Code
    requires Arrived(g, w)
  {
    var (b, p) := Settle(g, w.block, w.pos);
    g[b][p]
  }

  /** What the instruction does to context and values, if anything. */
  function OpOf(c: Code): Option<Op> {
    match c
    case Do(op) => Some(op)
    case JumpIf(_, cond, _) => Some(Test(cond))
    case LeaveIf(cond) => Some(Test(cond))
    case _ => None
  }

  function Go(g: Fragment, block: nat, st: Live): Place {
    if block < |g| then At(block, 0, st) else Blocked
  }

  /** Where an instruction leads that was supported, from the values it found. */
  function Lead(g: Fragment, at: (nat, nat), c: Code, values: Values, st: Live): Place {
    match c
    case Do(_) => At(at.0, at.1 + 1, st)
    case Jump(to) => Go(g, to, st)
    case JumpIf(sense, cond, to) => if Condition(values, cond) == Some(sense) then Go(g, to, st) else At(at.0, at.1 + 1, st)
    case Leave => Left(st)
    case LeaveIf(cond) => if Condition(values, cond) == Some(true) then Left(st) else At(at.0, at.1 + 1, st)
  }

  // ---- control is the HIR's ----

  /** The HIR instruction of a jump, a conditional jump or a return. */
  function HirOf(c: Code): Option<Instr> {
    match c
    case Jump(to) => Some(Branch(Some(to)))
    case JumpIf(sense, cond, to) => Some(BranchIf(sense, cond, Some(to)))
    case Leave => Some(Return)
    case _ => None
  }

  /** The same values, as bytes and as numbers. */
  ghost predicate SameValues(values: Values, s: State) {
    values.Keys == s.vals.Keys && forall v :: v in values ==> s.vals[v] == Decode(values[v])
  }

  lemma ConditionIsRead(values: Values, cond: Operand, s: State)
    requires SameValues(values, s)
    ensures Condition(values, cond).Some? <==>
              && !cond.Missing? && IsInteger(OperandType(cond))
              && (cond.Ssa? ==> cond.value in values)
    ensures Condition(values, cond).Some? ==> (Condition(values, cond).value <==> Read(s, cond) != 0)
  {
    if !cond.Missing? && IsInteger(OperandType(cond)) {
      OperandIsRead(values, cond, s);
    }
    hide Read, Decode, Size, Fit;
  }

  lemma OperandIsRead(values: Values, o: Operand, s: State)
    requires SameValues(values, s) && (o.Constant? ==> !o.ty.Vec128?)
    ensures Resolve(values, o).Some? ==> Decode(Resolve(values, o).value) == Read(s, o)
  {
    if o.Constant? {
      var n := Size(o.ty);
      SizeInBits(o.ty);
      DecodeEncode(o.bits, n);
      assert Fit(Encode(o.bits, n), n) == Encode(o.bits, n);
      hide Encode, Decode, LowBytes, Size;
    }
  }

  /** Operands are resolved in their order, to the values the HIR reads. */
  lemma {:induction false} OperandsAreRead(values: Values, srcs: seq<Operand>, s: State, i: nat)
    requires SameValues(values, s) && i < |srcs|
    requires forall o :: o in srcs && o.Constant? ==> !o.ty.Vec128?
    requires ResolveAll(values, srcs).Some?
    ensures |ResolveAll(values, srcs).value| == |srcs| && Decode(ResolveAll(values, srcs).value[i]) == ReadAll(s, srcs)[i]
    decreases |srcs|
  {
    hide Resolve, Decode, SameValues, Read;
    OperandIsRead(values, srcs[0], s);
    ResolvedSize(values, srcs);
    if i > 0 {
      OperandsAreRead(values, srcs[1..], s, i - 1);
    }
  }

  lemma {:induction false} ResolvedSize(values: Values, srcs: seq<Operand>)
    requires ResolveAll(values, srcs).Some?
    ensures |ResolveAll(values, srcs).value| == |srcs|
  {
    hide Resolve;
    if srcs != [] {
      ResolvedSize(values, srcs[1..]);
    }
  }

  /** A binary operation whose operands are known is the computation of its two operands, the left one first. */
  lemma BinaryIsCompute(alu: Alu, defs: Defs, recovering: bool, st: Live, dest: Value, op: nat, lhs: Operand, rhs: Operand)
    requires Resolve(st.values, lhs).Some? && Resolve(st.values, rhs).Some?
    ensures Step(alu, defs, recovering, st, Binary(dest, op, lhs, rhs)) == Step(alu, defs, recovering, st, Compute(dest, op, [lhs, rhs]))
  {
    hide Resolve, Recover, Put;
    var a, b := Resolve(st.values, lhs).value, Resolve(st.values, rhs).value;
    assert [rhs][1..] == [] && [lhs, rhs][1..] == [rhs];
    assert ResolveAll(st.values, []) == Some([]);
    assert ResolveAll(st.values, [rhs]) == Some([b] + []);
    assert ResolveAll(st.values, [lhs, rhs]) == Some([a] + ([b] + []));
    assert [a] + ([b] + []) == [a, b];
  }

  /** Behind a block's last instruction both go on with the next block. */
  lemma FallsAsHir(isa: Isa, hir: Graph, g: Fragment, k: nat, s: State)
    requires |hir| == |g| && k < |g|
    ensures var f := RunBlock(isa, hir, k, [], s);
            Settle(g, k, |g[k]|) == if f.Goto? then Settle(g, f.block, 0) else (|g|, 0)
  {
  }

  /** A fragment's jumps, conditional jumps and returns go where the HIR's go: a true branch on anything but zero. */
  lemma ControlIsHirs(
    isa: Isa, hir: Graph, g: Fragment, at: (nat, nat), c: Code, values: Values, st: Live, s: State)
    requires |hir| == |g| && SameValues(values, s) && HirOf(c).Some?
    requires c.JumpIf? ==> Condition(values, c.cond).Some?
    ensures Lead(g, at, c, values, st) ==
              match RunInstr(isa, hir, HirOf(c).value, s)
              case Goto(k, _) => At(k, 0, st)
              case Next(_) => At(at.0, at.1 + 1, st)
              case Exit(_) => Left(st)
              case Fault => Blocked
  {
    if c.JumpIf? {
      ConditionIsRead(values, c.cond, s);
    }
  }

  /** A conditional return returns when a true branch on the same condition would be taken, and else goes on. */
  lemma LeavesAsTaken(g: Fragment, at: (nat, nat), cond: Operand, values: Values, st: Live, to: nat)
    requires to < |g| && Condition(values, cond).Some?
    ensures Lead(g, at, LeaveIf(cond), values, st) ==
              if Condition(values, cond).value then Left(st) else Lead(g, at, JumpIf(true, cond, to), values, st)
  {
  }

  /** A position behind the end of its block stands for the start of the next block that is not empty. */
  lemma {:induction false} SettleFallsThrough(g: Fragment, block: nat, pos: nat)
    ensures var (b, p) := Settle(g, block, pos);
            if block >= |g| || pos < |g[block]| then b == block && p == pos
            else && block < b <= |g| && p == 0 && (b < |g| ==> g[b] != [])
                 && forall j :: block < j < b ==> g[j] == []
    decreases if block < |g| then |g| - block else 0
  {
    if block < |g| && pos >= |g[block]| {
      SettleFallsThrough(g, block + 1, 0);
    }
  }

  // ---- a walk ----

  function WalkStep(alu: Alu, defs: Defs, recovering: bool, g: Fragment, w: Place): Place {
    if !w.At? then w
    else if !Arrived(g, w) then RanOff(w.st)
    else
      var c := CodeAt(g, w);
      var next := if OpOf(c).None? then Some(w.st) else Step(alu, defs, recovering, w.st, OpOf(c).value);
      if next.None? then Blocked else Lead(g, Settle(g, w.block, w.pos), c, w.st.values, next.value)
  }

  function WalkSteps(alu: Alu, defs: Defs, recovering: bool, g: Fragment, n: nat, w: Place): Place {
    if n == 0 then w else WalkSteps(alu, defs, recovering, g, n - 1, WalkStep(alu, defs, recovering, g, w))
  }

  lemma WalkNone(alu: Alu, defs: Defs, recovering: bool, g: Fragment, w: Place)
    ensures WalkSteps(alu, defs, recovering, g, 0, w) == w
  {
  }

  lemma {:induction false} WalkStepsCompose(alu: Alu, defs: Defs, recovering: bool, g: Fragment, a: nat, b: nat, w: Place)
    ensures WalkSteps(alu, defs, recovering, g, a + b, w)
            == WalkSteps(alu, defs, recovering, g, b, WalkSteps(alu, defs, recovering, g, a, w))
  {
    hide WalkStep;
    if a > 0 {
      WalkStepsCompose(alu, defs, recovering, g, a - 1, b, WalkStep(alu, defs, recovering, g, w));
    }
  }

  lemma WalkOneMore(alu: Alu, defs: Defs, recovering: bool, g: Fragment, n: nat, w: Place)
    ensures WalkSteps(alu, defs, recovering, g, n + 1, w)
            == WalkStep(alu, defs, recovering, g, WalkSteps(alu, defs, recovering, g, n, w))
  {
    hide WalkStep;
    WalkStepsCompose(alu, defs, recovering, g, n, 1, w);
    var last := WalkSteps(alu, defs, recovering, g, n, w);
    WalkNone(alu, defs, recovering, g, WalkStep(alu, defs, recovering, g, last));
  }

  // ---- along a walk ----

  function LearnsHere(g: Fragment, w: Place): set<Value> {
    if Arrived(g, w) && OpOf(CodeAt(g, w)).Some? then Learns(OpOf(CodeAt(g, w)).value) else {}
  }

  function StoresHere(g: Fragment, w: Place): seq<Range> {
    if Arrived(g, w) && OpOf(CodeAt(g, w)).Some? then Stores(OpOf(CodeAt(g, w)).value) else []
  }

  predicate InTimeHere(defs: Defs, g: Fragment, w: Place, known: set<Value>, stores: seq<Range>) {
    Arrived(g, w) && OpOf(CodeAt(g, w)).Some? ==> RecoversInTime(defs, OpOf(CodeAt(g, w)).value, known, stores)
  }

  predicate KnownHere(g: Fragment, w: Place, known: set<Value>) {
    Arrived(g, w) && OpOf(CodeAt(g, w)).Some? ==> Strict(OpOf(CodeAt(g, w)).value) <= known
  }

  /** In the first n instructions no slot is stored over before a value is recovered from it, on whatever trip. */
  predicate InTime(alu: Alu, defs: Defs, g: Fragment, n: nat, w: Place, known: set<Value>, stores: seq<Range>) {
    n > 0 ==>
      && InTimeHere(defs, g, w, known, stores)
      && InTime(alu, defs, g, n - 1, WalkStep(alu, defs, true, g, w), known + LearnsHere(g, w), stores + StoresHere(g, w))
  }

  /** In the first n instructions everything read without recovery, conditions included, was defined or stored on the way. */
  predicate ReadsKnown(alu: Alu, defs: Defs, g: Fragment, n: nat, w: Place, known: set<Value>) {
    n > 0 ==>
      && KnownHere(g, w, known)
      && ReadsKnown(alu, defs, g, n - 1, WalkStep(alu, defs, false, g, w), known + LearnsHere(g, w))
  }

  // ---- the two walks go the same way ----

  ghost predicate WalksInStep(defs: Defs, ctx0: Bytes, a: Place, b: Place, known: set<Value>, stores: seq<Range>) {
    match (a, b)
    case (At(i, j, s), At(k, l, t)) => i == k && j == l && InStep(defs, ctx0, s, t, known, stores)
    case (Left(s), Left(t)) => s.ctx == t.ctx
    case (RanOff(s), RanOff(t)) => s.ctx == t.ctx
    case (Blocked, Blocked) => true
    case _ => false
  }

  lemma {:induction false} EndedWalkStays(alu: Alu, defs: Defs, recovering: bool, g: Fragment, n: nat, w: Place)
    requires !w.At?
    ensures WalkSteps(alu, defs, recovering, g, n, w) == w
  {
    if n > 0 {
      EndedWalkStays(alu, defs, recovering, g, n - 1, w);
    }
  }

  lemma {:induction false} EndedWalkReadsKnown(alu: Alu, defs: Defs, g: Fragment, n: nat, w: Place, known: set<Value>)
    requires !w.At?
    ensures ReadsKnown(alu, defs, g, n, w, known)
  {
    if n > 0 {
      EndedWalkReadsKnown(alu, defs, g, n - 1, w, known + LearnsHere(g, w));
    }
  }

  /** One instruction: both are supported, and lead the same way, unless a value that was skipped is read strictly. */
  lemma WalkStepInStep(
    alu: Alu, defs: Defs, ctx0: Bytes, g: Fragment, a: Place, b: Place, known: set<Value>, stores: seq<Range>)
    requires a.At? && WalksInStep(defs, ctx0, a, b, known, stores) && InTimeHere(defs, g, a, known, stores)
    ensures var a', b' := WalkStep(alu, defs, true, g, a), WalkStep(alu, defs, false, g, b);
            && (a'.Blocked? <==> b'.Blocked? || !KnownHere(g, b, known))
            && (!a'.Blocked? ==> WalksInStep(defs, ctx0, a', b', known + LearnsHere(g, a), stores + StoresHere(g, a)))
  {
    hide InStep, Step, Strict, Learns, Stores, RecoversInTime, Settle;
    assert known + {} == known && stores + [] == stores;
    InStepContext(defs, ctx0, a.st, b.st, known, stores);
    if Arrived(g, a) && OpOf(CodeAt(g, a)).Some? {
      var op := OpOf(CodeAt(g, a)).value;
      StepInStep(alu, defs, ctx0, a.st, b.st, known, stores, op);
      if op.Test? {
        TestInStep(alu, defs, ctx0, a.st, b.st, known, stores, op);
      }
    }
  }

  lemma {:induction false} WalksStayInStep(
    alu: Alu, defs: Defs, ctx0: Bytes, g: Fragment, n: nat, a: Place, b: Place, known: set<Value>, stores: seq<Range>)
    requires a.At? && WalksInStep(defs, ctx0, a, b, known, stores) && InTime(alu, defs, g, n, a, known, stores)
    ensures var a', b' := WalkSteps(alu, defs, true, g, n, a), WalkSteps(alu, defs, false, g, n, b);
            && (a'.Blocked? <==> b'.Blocked? || !ReadsKnown(alu, defs, g, n, b, known))
            && (!a'.Blocked? ==> SamePlace(a', b'))
  {
    hide InStep, WalkStep, LearnsHere, StoresHere, InTimeHere, KnownHere;
    if n == 0 {
      InStepContext(defs, ctx0, a.st, b.st, known, stores);
    } else {
      WalkStepInStep(alu, defs, ctx0, g, a, b, known, stores);
      var a', b' := WalkStep(alu, defs, true, g, a), WalkStep(alu, defs, false, g, b);
      HereAlike(g, a, b);
      if a'.At? {
        WalksStayInStep(alu, defs, ctx0, g, n - 1, a', b', known + LearnsHere(g, a), stores + StoresHere(g, a));
      } else {
        EndedWalkStays(alu, defs, true, g, n - 1, a');
        if !b'.At? {
          EndedWalkStays(alu, defs, false, g, n - 1, b');
          EndedWalkReadsKnown(alu, defs, g, n - 1, b', known + LearnsHere(g, b));
        }
      }
    }
  }

  lemma HereAlike(g: Fragment, a: Place, b: Place)
    requires a.At? && b.At? && a.block == b.block && a.pos == b.pos
    ensures LearnsHere(g, a) == LearnsHere(g, b) && StoresHere(g, a) == StoresHere(g, b)
  {
  }

  /** The same instruction, or the same end, with the same context. */
  predicate SamePlace(a: Place, b: Place) {
    match (a, b)
    case (At(i, j, s), At(k, l, t)) => i == k && j == l && s.ctx == t.ctx
    case (Left(s), Left(t)) => s.ctx == t.ctx
    case (RanOff(s), RanOff(t)) => s.ctx == t.ctx
    case (Blocked, Blocked) => true
    case _ => false
  }

  /**
   A fragment that recovers every value in time goes, for any number of instructions, the way it
   would go had the skipped values been evaluated on entry, with the same context. It is supported
   exactly as long as that walk is and reads no skipped value without recovery.
   */
  lemma RecoveringIsPreEvaluating(alu: Alu, defs: Defs, g: Fragment, block: nat, pos: nat, ctx: Bytes, n: nat)
    requires InTime(alu, defs, g, n, At(block, pos, Live(ctx, map[])), {}, [])
    ensures var start := At(block, pos, Live(ctx, PreEvaluated(defs, ctx)));
            var recovering := WalkSteps(alu, defs, true, g, n, At(block, pos, Live(ctx, map[])));
            var ideal := WalkSteps(alu, defs, false, g, n, start);
            && (recovering.Blocked? <==> ideal.Blocked? || !ReadsKnown(alu, defs, g, n, start, {}))
            && (!recovering.Blocked? ==> SamePlace(recovering, ideal))
  {
    assert PreEvaluated(defs, ctx) + map[] == PreEvaluated(defs, ctx);
    WalksStayInStep(alu, defs, ctx, g, n, At(block, pos, Live(ctx, map[])),
                    At(block, pos, Live(ctx, PreEvaluated(defs, ctx))), {}, []);
  }

  // ---- recovery that is never too late ----

  /** The operation is one of the graph's. */
  ghost predicate IsIn(op: Op, g: Fragment) {
    exists b, i :: 0 <= b < |g| && 0 <= i < |g[b]| && OpOf(g[b][i]) == Some(op)
  }

  /** None of these ranges touches the slot of a value the graph may recover. */
  ghost predicate MissesSlots(defs: Defs, g: Fragment, stores: seq<Range>) {
    forall op, v :: IsIn(op, g) && v in Recoverable(op) ==> SlotUntouched(defs, v, stores)
  }

  /** Nothing the graph stores does. */
  ghost predicate StoresMissSlots(defs: Defs, g: Fragment) {
    forall op :: IsIn(op, g) ==> MissesSlots(defs, g, Stores(op))
  }

  lemma HereIsIn(g: Fragment, w: Place)
    requires Arrived(g, w) && OpOf(CodeAt(g, w)).Some?
    ensures IsIn(OpOf(CodeAt(g, w)).value, g)
  {
    var (b, p) := Settle(g, w.block, w.pos);
    assert OpOf(g[b][p]) == OpOf(CodeAt(g, w));
  }

  lemma SlotMissesBoth(defs: Defs, v: Value, a: seq<Range>, b: seq<Range>)
    requires SlotUntouched(defs, v, a) && SlotUntouched(defs, v, b)
    ensures SlotUntouched(defs, v, a + b)
  {
  }

  lemma MissedHere(defs: Defs, g: Fragment, w: Place, known: set<Value>, stores: seq<Range>)
    requires StoresMissSlots(defs, g) && MissesSlots(defs, g, stores)
    ensures InTimeHere(defs, g, w, known, stores) && MissesSlots(defs, g, stores + StoresHere(g, w))
  {
    hide SlotUntouched, IsIn, Recoverable, Stores, Arrived, CodeAt;
    if Arrived(g, w) && OpOf(CodeAt(g, w)).Some? {
      HereIsIn(g, w);
      forall op, v | IsIn(op, g) && v in Recoverable(op)
        ensures SlotUntouched(defs, v, stores + StoresHere(g, w))
      {
        SlotMissesBoth(defs, v, stores, StoresHere(g, w));
      }
    } else {
      assert stores + [] == stores;
    }
  }

  lemma {:induction false} MissedIsInTime(
    alu: Alu, defs: Defs, g: Fragment, n: nat, w: Place, known: set<Value>, stores: seq<Range>)
    requires StoresMissSlots(defs, g) && MissesSlots(defs, g, stores)
    ensures InTime(alu, defs, g, n, w, known, stores)
  {
    hide InTimeHere, MissesSlots, StoresMissSlots, WalkStep, LearnsHere, StoresHere;
    if n > 0 {
      MissedHere(defs, g, w, known, stores);
      MissedIsInTime(alu, defs, g, n - 1, WalkStep(alu, defs, true, g, w), known + LearnsHere(g, w), stores + StoresHere(g, w));
    }
  }

  /**
   A graph none of whose stores overlaps the slot of a value it may recover needs no look at its run:
   from any entry and any context it goes as if the skipped values had been evaluated.
   */
  lemma DisjointStoresAreInTime(alu: Alu, defs: Defs, g: Fragment, block: nat, pos: nat, ctx: Bytes, n: nat)
    requires StoresMissSlots(defs, g)
    ensures InTime(alu, defs, g, n, At(block, pos, Live(ctx, map[])), {}, [])
    ensures var start := At(block, pos, Live(ctx, PreEvaluated(defs, ctx)));
            var recovering := WalkSteps(alu, defs, true, g, n, At(block, pos, Live(ctx, map[])));
            var ideal := WalkSteps(alu, defs, false, g, n, start);
            && (recovering.Blocked? <==> ideal.Blocked? || !ReadsKnown(alu, defs, g, n, start, {}))
            && (!recovering.Blocked? ==> SamePlace(recovering, ideal))
  {
    MissedIsInTime(alu, defs, g, n, At(block, pos, Live(ctx, map[])), {}, []);
    RecoveringIsPreEvaluating(alu, defs, g, block, pos, ctx, n);
  }

  // ---- recovery that comes too late ----

  /** A register whose load was skipped, and what the fragment computes from it. */
  const LATE: Value := Value(0, Int8)
  const SUM: Value := Value(1, Int8)

  function LateDefs(): Defs {
    map[LATE := LoadedFrom(0), SUM := Computed]
  }

  const ADD := Binary(SUM, 0, Ssa(LATE), Constant(1, Int8))
  const KEEP := StoreContext(0, Ssa(SUM))

  /** A loop that combines the register with one and stores the result over it. */
  function Counter(): Fragment {
    [[Do(ADD), Do(KEEP), Jump(0)]]
  }

  function CounterAt(pos: nat, register: Bytes, values: Values): Place {
    At(0, pos, Live(register, values))
  }

  lemma CounterCode(g: Fragment, w: Place)
    requires g == Counter() && w.At? && w.block == 0 && w.pos < 3
    ensures Arrived(g, w) && Settle(g, 0, w.pos) == (0, w.pos)
    ensures CodeAt(g, w) == [Do(ADD), Do(KEEP), Jump(0)][w.pos] && |g| == 1
  {
  }

  lemma AddsOne(alu: Alu, defs: Defs, recovering: bool, st: Live, seen: byte, sum: byte)
    requires ResolveOrRecover(defs, recovering, st, Ssa(LATE)) == Some([seen]) && alu(0, Int8, [[seen], [1]]) == Some([sum])
    ensures Step(alu, defs, recovering, st, ADD) == Some(st.(values := st.values[SUM := [sum]]))
  {
    hide Recover;
    assert Encode(1, 1) == [1] && Fit([1], 1) == [1] && Fit([sum], 1) == [sum];
  }

  lemma KeepsSum(alu: Alu, defs: Defs, recovering: bool, st: Live, sum: byte)
    requires |st.ctx| == 1 && SUM in st.values && st.values[SUM] == [sum]
    ensures Step(alu, defs, recovering, st, KEEP) == Some(st.(ctx := [sum]))
  {
    hide Recover;
    assert Fit([sum], 1) == [sum] && Overwrite(st.ctx, 0, [sum]) == [sum];
  }

  lemma TripSteps(alu: Alu, g: Fragment, defs: Defs, recovering: bool, register: byte, values: Values, seen: byte, sum: byte)
    requires g == Counter()
    requires ResolveOrRecover(defs, recovering, Live([register], values), Ssa(LATE)) == Some([seen])
    requires alu(0, Int8, [[seen], [1]]) == Some([sum])
    ensures var more := values[SUM := [sum]];
            && WalkStep(alu, defs, recovering, g, CounterAt(0, [register], values)) == CounterAt(1, [register], more)
            && WalkStep(alu, defs, recovering, g, CounterAt(1, [register], more)) == CounterAt(2, [sum], more)
            && WalkStep(alu, defs, recovering, g, CounterAt(2, [sum], more)) == CounterAt(0, [sum], more)
  {
    hide Step, ResolveOrRecover, Counter, Settle, Arrived, CodeAt;
    var more := values[SUM := [sum]];
    var w0, w1, w2 := CounterAt(0, [register], values), CounterAt(1, [register], more), CounterAt(2, [sum], more);
    CounterCode(g, w0);
    CounterCode(g, w1);
    CounterCode(g, w2);
    AddsOne(alu, defs, recovering, w0.st, seen, sum);
    KeepsSum(alu, defs, recovering, w1.st, sum);
  }

  /** Once round the loop: the register is what was computed from what was seen of it. */
  lemma OneTrip(alu: Alu, g: Fragment, defs: Defs, recovering: bool, register: byte, values: Values, seen: byte, sum: byte)
    requires g == Counter()
    requires ResolveOrRecover(defs, recovering, Live([register], values), Ssa(LATE)) == Some([seen])
    requires alu(0, Int8, [[seen], [1]]) == Some([sum])
    ensures WalkSteps(alu, defs, recovering, g, 3, CounterAt(0, [register], values))
            == CounterAt(0, [sum], values[SUM := [sum]])
  {
    TripSteps(alu, g, defs, recovering, register, values, seen, sum);
    hide WalkStep, CounterAt, ResolveOrRecover;
    var more := values[SUM := [sum]];
    var w1, w2, w3 := CounterAt(1, [register], more), CounterAt(2, [sum], more), CounterAt(0, [sum], more);
    assert WalkSteps(alu, defs, recovering, g, 2, w1) == WalkSteps(alu, defs, recovering, g, 1, w2)
           == WalkSteps(alu, defs, recovering, g, 0, w3);
  }

  lemma TwoTrips(
    alu: Alu, g: Fragment, defs: Defs, recovering: bool, register: byte, values: Values,
    s1: byte, t1: byte, s2: byte, t2: byte)
    requires g == Counter()
    requires ResolveOrRecover(defs, recovering, Live([register], values), Ssa(LATE)) == Some([s1])
    requires alu(0, Int8, [[s1], [1]]) == Some([t1])
    requires ResolveOrRecover(defs, recovering, Live([t1], values[SUM := [t1]]), Ssa(LATE)) == Some([s2])
    requires alu(0, Int8, [[s2], [1]]) == Some([t2])
    ensures var w := WalkSteps(alu, defs, recovering, g, 6, CounterAt(0, [register], values));
            w.At? && w.block == 0 && w.pos == 0 && w.st.ctx == [t2]
  {
    hide ResolveOrRecover;
    OneTrip(alu, g, defs, recovering, register, values, s1, t1);
    OneTrip(alu, g, defs, recovering, t1, values[SUM := [t1]], s2, t2);
    WalkStepsCompose(alu, defs, recovering, g, 3, 3, CounterAt(0, [register], values));
  }

  lemma InTimeOnce(alu: Alu, defs: Defs, g: Fragment, n: nat, w: Place, c: Code, known: set<Value>, stores: seq<Range>)
    requires n > 0 && Arrived(g, w) && CodeAt(g, w) == c
    ensures var op := OpOf(c);
            InTime(alu, defs, g, n, w, known, stores) <==>
              && (op.Some? ==> RecoversInTime(defs, op.value, known, stores))
              && InTime(alu, defs, g, n - 1, WalkStep(alu, defs, true, g, w),
                        known + (if op.Some? then Learns(op.value) else {}),
                        stores + (if op.Some? then Stores(op.value) else []))
  {
    hide RecoversInTime, Learns, Stores, WalkStep, Arrived, CodeAt;
  }

  /** The first trip recovers in time; the second would read what the first has stored. */
  lemma CounterInTime(alu: Alu, g: Fragment, defs: Defs, register: byte, sum: byte)
    requires g == Counter() && defs == LateDefs()
    requires ResolveOrRecover(defs, true, Live([register], map[]), Ssa(LATE)) == Some([register])
    requires alu(0, Int8, [[register], [1]]) == Some([sum])
    ensures InTime(alu, defs, g, 3, CounterAt(0, [register], map[]), {}, [])
    ensures !InTime(alu, defs, g, 4, CounterAt(0, [register], map[]), {}, [])
  {
    TripSteps(alu, g, defs, true, register, map[], register, sum);
    LateAfterStore(defs);
    hide ResolveOrRecover, InTime, WalkStep, Arrived, CodeAt, Recover, Source, Step, RecoversInTime;
    var more: Values := map[SUM := [sum]];
    var w0, w1 := CounterAt(0, [register], map[]), CounterAt(1, [register], more);
    var w2, w3 := CounterAt(2, [sum], more), CounterAt(0, [sum], more);
    CounterCode(g, w0);
    CounterCode(g, w1);
    CounterCode(g, w2);
    CounterCode(g, w3);
    var none: seq<Range> := [];
    var one := [Range(0, 1)];
    assert {} + Learns(ADD) == {SUM} && {SUM} + Learns(KEEP) == {SUM} && {SUM} + {} == {SUM};
    assert none + Stores(ADD) == none && none + Stores(KEEP) == one && one + none == one;
    forall n: nat
      ensures InTime(alu, defs, g, n + 3, w0, {}, []) <==> InTime(alu, defs, g, n, w3, {SUM}, one)
    {
      InTimeOnce(alu, defs, g, n + 3, w0, Do(ADD), {}, none);
      InTimeOnce(alu, defs, g, n + 2, w1, Do(KEEP), {SUM}, none);
      InTimeOnce(alu, defs, g, n + 1, w2, Jump(0), {SUM}, one);
    }
    assert InTime(alu, defs, g, 0 + 3, w0, {}, []) by {
      InTimeNone(alu, defs, g, w3, {SUM}, one);
    }
    assert !InTime(alu, defs, g, 1 + 3, w0, {}, []) by {
      InTimeOnce(alu, defs, g, 1, w3, Do(ADD), {SUM}, one);
    }
  }

  lemma InTimeNone(alu: Alu, defs: Defs, g: Fragment, w: Place, known: set<Value>, stores: seq<Range>)
    ensures InTime(alu, defs, g, 0, w, known, stores)
  {
  }

  lemma LateAfterStore(defs: Defs)
    requires defs == LateDefs()
    ensures RecoversInTime(defs, ADD, {}, []) && RecoversInTime(defs, KEEP, {SUM}, [])
    ensures !RecoversInTime(defs, ADD, {SUM}, [Range(0, 1)])
  {
    var stores := [Range(0, 1)];
    assert LATE in Recoverable(ADD) && Source(defs, LATE, MAX_CHAIN) == Some(0);
    assert !Disjoint(Range(0, 1), stores[0]);
    assert !SlotUntouched(defs, LATE, stores);
  }

  /**
   Recovered anew on the second trip, the register has already been counted up: it ends at 9, where
   the walk with the skipped load evaluated on entry keeps storing 8.
   */
  lemma SecondTripIsLate(alu: Alu)
    requires alu(0, Int8, [[7], [1]]) == Some([8]) && alu(0, Int8, [[8], [1]]) == Some([9])
    ensures InTime(alu, LateDefs(), Counter(), 3, CounterAt(0, [7], map[]), {}, [])
    ensures !InTime(alu, LateDefs(), Counter(), 4, CounterAt(0, [7], map[]), {}, [])
    ensures var w := WalkSteps(alu, LateDefs(), true, Counter(), 6, CounterAt(0, [7], map[]));
            w.At? && w.st.ctx == [9]
    ensures var w := WalkSteps(alu, LateDefs(), false, Counter(), 6, CounterAt(0, [7], PreEvaluated(LateDefs(), [7])));
            w.At? && w.st.ctx == [8]
  {
    var g, defs, pre := Counter(), LateDefs(), PreEvaluated(LateDefs(), [7]);
    RecoversRegister(defs, 7, map[]);
    RecoversRegister(defs, 8, map[SUM := [8]]);
    OneTrip(alu, g, defs, true, 7, map[], 7, 8);
    TwoTrips(alu, g, defs, true, 7, map[], 7, 8, 8, 9);
    CounterInTime(alu, g, defs, 7, 8);
    PreEvaluatedRegister(defs, 7);
    TwoTrips(alu, g, defs, false, 7, pre, 7, 8, 7, 8);
  }

  lemma RecoversRegister(defs: Defs, register: byte, values: Values)
    requires defs == LateDefs() && LATE !in values
    ensures ResolveOrRecover(defs, true, Live([register], values), Ssa(LATE)) == Some([register])
  {
    RecoverReadsSource(defs, [register], LATE, MAX_CHAIN);
    assert Source(defs, LATE, MAX_CHAIN) == Some(0);
    assert [register][0..1] == [register];
  }

  lemma PreEvaluatedRegister(defs: Defs, register: byte)
    requires defs == LateDefs()
    ensures LATE in PreEvaluated(defs, [register]) && PreEvaluated(defs, [register])[LATE] == [register]
  {
    RecoversRegister(defs, register, map[]);
  }
}
