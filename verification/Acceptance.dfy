/**
 Which graphs the two generators accept. They find out while they write, block by block; here it is said
 at once, of the whole graph.
 */
module Acceptance {
  import opened Options
  import opened Hir
  import opened Lowering

  // ---- what the loops find out ----

  /** The value types a backend gives a local: the resumable one knows integers only. */
  predicate Keeps(b: Backend, ty: ValueType) {
    IsInteger(ty) || (b.Trapping? && (ty.Float32? || ty.Float64?))
  }

  function BlockDests(b: Backend, code: seq<Instr>): set<Value> {
    if code == [] then {}
    else (if code[0].Produce? && Keeps(b, code[0].dest.ty) then {code[0].dest} else {}) + BlockDests(b, code[1..])
  }

  /** Every value a graph defines and the backend can hold, dead code included. */
  function GraphDests(b: Backend, g: Graph): set<Value> {
    if g == [] then {} else BlockDests(b, g[0]) + GraphDests(b, g[1..])
  }

  /** A value the trapping backend refuses the whole graph for. */
  predicate BlockRefused(b: Backend, code: seq<Instr>) {
    code != [] && ((b.Trapping? && code[0].Produce? && !Keeps(b, code[0].dest.ty)) || BlockRefused(b, code[1..]))
  }

  predicate Refused(b: Backend, g: Graph) {
    g != [] && (BlockRefused(b, g[0]) || Refused(b, g[1..]))
  }

  /** Whether a block's reachable part holds a return boundary. */
  function SeesReturn(code: seq<Instr>): bool {
    code != [] && (code[0].Return? || code[0].CallIndirect? || (!Terminates(code[0]) && SeesReturn(code[1..])))
  }

  predicate IsFpu(isa: Isa, i: Instr) {
    i.Produce? && (i.dest.ty.Float32? || i.dest.ty.Float64? || isa.converts(i.op))
  }

  /** Whether a block's reachable part produces a floating-point or converted value. */
  function SeesFpu(isa: Isa, code: seq<Instr>): bool {
    code != [] && (IsFpu(isa, code[0]) || (!Terminates(code[0]) && SeesFpu(isa, code[1..])))
  }

  predicate GraphSeesReturn(g: Graph) {
    g != [] && (SeesReturn(g[0]) || GraphSeesReturn(g[1..]))
  }

  predicate GraphSeesFpu(isa: Isa, g: Graph) {
    g != [] && (SeesFpu(isa, g[0]) || GraphSeesFpu(isa, g[1..]))
  }

  // ---- exactly which graphs are accepted ----

  /** Instruction i of block k is looked at: no terminator comes before it. */
  ghost predicate Reached(g: Graph, k: nat, i: nat) {
    && k < |g| && i < |g[k]|
    && forall j :: 0 <= j < i ==> !g[k][j].Branch? && !g[k][j].Return? && !g[k][j].CallIndirect?
  }

  ghost predicate Defines(g: Graph, v: Value) {
    exists k, i :: 0 <= k < |g| && 0 <= i < |g[k]| && g[k][i].Produce? && g[k][i].dest == v
  }

  /** A value that gets a local: an integer, and with the trapping generator also a floating-point number. */
  ghost predicate HasLocal(b: Backend, g: Graph, v: Value) {
    Defines(g, v) && (v.ty in {Int8, Int16, Int32, Int64} || (b.Trapping? && v.ty in {Float32, Float64}))
  }

  /** An operand the generators can load. */
  ghost predicate CanLoad(b: Backend, g: Graph, o: Operand) {
    match o
    case Missing => false
    case Constant(_, ty) => ty != Vec128
    case Ssa(v) => HasLocal(b, g, v)
  }

  ghost predicate CanLoadAll(b: Backend, g: Graph, srcs: seq<Operand>) {
    forall o :: o in srcs ==> CanLoad(b, g, o)
  }

  /** A label of the graph. */
  predicate Leads(g: Graph, target: Label) {
    target.Some? && target.value < |g|
  }

  /** An instruction the generators know how to write. */
  ghost predicate CanLower(isa: Isa, b: Backend, g: Graph, i: Instr) {
    match i
    case Produce(dest, op, srcs) => isa.lowers(op) && HasLocal(b, g, dest) && CanLoadAll(b, g, srcs)
    case Marker(op) => isa.skips(op)
    case Store(op, srcs) => isa.lowers(op) && CanLoadAll(b, g, srcs)
    case Branch(target) => Leads(g, target)
    case BranchIf(_, cond, target) =>
      CanLoad(b, g, cond) && OperandType(cond) in {Int8, Int16, Int32, Int64} && Leads(g, target)
    case Return => true
    case CallIndirect(possibleReturn) => possibleReturn
    case Unsupported => false
  }

  /**
   The trapping generator wants a return and a floating-point result among the instructions it looks at,
   and no vector anywhere; the resumable one more than one block. Both must be able to lower all they look at.
   */
  ghost predicate Accepts(isa: Isa, b: Backend, g: Graph) {
    && |g| > (if b.Trapping? then 0 else 1)
    && (forall k: nat, i: nat :: Reached(g, k, i) ==> CanLower(isa, b, g, g[k][i]))
    && (b.Trapping? ==>
          && (forall v :: Defines(g, v) ==> v.ty != Vec128)
          && (exists k: nat, i: nat :: Reached(g, k, i) && (g[k][i].Return? || g[k][i].CallIndirect?))
          && (exists k: nat, i: nat :: Reached(g, k, i) && g[k][i].Produce?
                             && (g[k][i].dest.ty in {Float32, Float64} || isa.converts(g[k][i].op))))
  }

  lemma {:induction false} BlockDestsAre(b: Backend, code: seq<Instr>, v: Value)
    ensures v in BlockDests(b, code) <==> exists i :: 0 <= i < |code| && code[i].Produce? && code[i].dest == v && Keeps(b, v.ty)
  {
    hide Keeps;
    if code != [] {
      BlockDestsAre(b, code[1..], v);
      if i :| 0 <= i < |code| && code[i].Produce? && code[i].dest == v && Keeps(b, v.ty) {
        assert i > 0 ==> code[1..][i - 1] == code[i];
      }
    }
  }

  lemma {:induction false} GraphDestsAre(b: Backend, g: Graph, v: Value)
    ensures v in GraphDests(b, g) <==> Defines(g, v) && Keeps(b, v.ty)
  {
    hide Keeps, BlockDests;
    if g != [] {
      BlockDestsAre(b, g[0], v);
      GraphDestsAre(b, g[1..], v);
      if k, i :| 0 <= k < |g| && 0 <= i < |g[k]| && g[k][i].Produce? && g[k][i].dest == v {
        assert k > 0 ==> g[1..][k - 1] == g[k];
      }
      if k, i :| 0 <= k < |g[1..]| && 0 <= i < |g[1..][k]| && g[1..][k][i].Produce? && g[1..][k][i].dest == v {
        assert g[1..][k] == g[k + 1];
      }
    }
  }

  lemma LocalsAre(b: Backend, g: Graph, v: Value)
    ensures v in GraphDests(b, g) <==> HasLocal(b, g, v)
  {
    GraphDestsAre(b, g, v);
    hide GraphDests;
  }

  lemma OperandLowers(b: Backend, g: Graph, o: Operand, locals: Locals)
    requires locals.Keys == GraphDests(b, g)
    ensures LowerOperand(o, locals).Some? <==> CanLoad(b, g, o)
  {
    if o.Ssa? {
      LocalsAre(b, g, o.value);
    }
    hide GraphDests, HasLocal;
  }

  lemma {:induction false} OperandsLower(b: Backend, g: Graph, srcs: seq<Operand>, locals: Locals)
    requires locals.Keys == GraphDests(b, g)
    ensures LowerOperands(srcs, locals).Some? <==> CanLoadAll(b, g, srcs)
  {
    hide GraphDests, CanLoad, LowerOperand;
    if srcs != [] {
      OperandLowers(b, g, srcs[0], locals);
      OperandsLower(b, g, srcs[1..], locals);
      assert srcs == [srcs[0]] + srcs[1..];
    }
  }

  lemma InstrLowers(isa: Isa, b: Backend, g: Graph, i: Instr, locals: Locals)
    requires locals.Keys == GraphDests(b, g)
    ensures LowerInstr(isa, b, |g|, i, locals).Some? <==> CanLower(isa, b, g, i)
  {
    match i
    case Produce(dest, op, srcs) =>
      LocalsAre(b, g, dest);
      OperandsLower(b, g, srcs, locals);
      hide GraphDests, CanLoadAll, LowerOperands, HasLocal;
    case Store(op, srcs) =>
      OperandsLower(b, g, srcs, locals);
      hide GraphDests, CanLoadAll, LowerOperands;
    case BranchIf(_, cond, _) =>
      OperandLowers(b, g, cond, locals);
      hide GraphDests, LowerOperand, HasLocal;
    case _ =>
  }

  /** The instructions a block's lowering looks at, from the i-th on. */
  ghost predicate LooksAt(code: seq<Instr>, i: nat, j: nat) {
    i <= j < |code| && forall l :: i <= l < j ==> !Terminates(code[l])
  }

  lemma {:induction false} InstrsLower(isa: Isa, b: Backend, g: Graph, k: nat, i: nat, locals: Locals)
    requires locals.Keys == GraphDests(b, g) && k < |g| && i <= |g[k]|
    ensures LowerInstrs(isa, b, |g|, k, g[k][i..], locals).Some?
            <==> forall j: nat :: LooksAt(g[k], i, j) ==> CanLower(isa, b, g, g[k][j])
    decreases |g[k]| - i
  {
    hide GraphDests, CanLower, LowerInstr;
    if i < |g[k]| {
      InstrLowers(isa, b, g, g[k][i], locals);
      InstrsLower(isa, b, g, k, i + 1, locals);
      assert g[k][i..][0] == g[k][i] && g[k][i..][1..] == g[k][i + 1..];
      assert LooksAt(g[k], i, i);
      assert forall j: nat :: j > i && !Terminates(g[k][i]) ==> (LooksAt(g[k], i, j) <==> LooksAt(g[k], i + 1, j));
    }
  }

  lemma {:induction false} BlocksLower(isa: Isa, b: Backend, g: Graph, k: nat, locals: Locals)
    requires locals.Keys == GraphDests(b, g) && k <= |g|
    ensures LowerBlocks(isa, b, g, k, locals).Some?
            <==> forall n: nat, j: nat :: k <= n && Reached(g, n, j) ==> CanLower(isa, b, g, g[n][j])
    decreases |g| - k
  {
    hide GraphDests, CanLower, LowerInstrs;
    if k < |g| {
      InstrsLower(isa, b, g, k, 0, locals);
      assert g[k][0..] == g[k];
      assert forall j: nat :: Reached(g, k, j) <==> LooksAt(g[k], 0, j);
      BlocksLower(isa, b, g, k + 1, locals);
    }
  }

  /** From the i-th instruction on the j-th is looked at, and is what is looked for. */
  ghost predicate SeesFrom(isa: Isa, code: seq<Instr>, fpu: bool, i: nat, j: nat) {
    LooksAt(code, i, j) && if fpu then IsFpu(isa, code[j]) else code[j].Return? || code[j].CallIndirect?
  }

  lemma SeesHere(isa: Isa, code: seq<Instr>, fpu: bool, i: nat)
    requires i < |code|
    ensures SeesFrom(isa, code, fpu, i, i) <==> if fpu then IsFpu(isa, code[i]) else code[i].Return? || code[i].CallIndirect?
  {
  }

  lemma {:induction false} BlockSees(isa: Isa, code: seq<Instr>, fpu: bool, i: nat)
    requires i <= |code|
    ensures (if fpu then SeesFpu(isa, code[i..]) else SeesReturn(code[i..])) <==> exists j: nat :: SeesFrom(isa, code, fpu, i, j)
    decreases |code| - i
  {
    hide IsFpu;
    if i < |code| {
      BlockSees(isa, code, fpu, i + 1);
      assert code[i..][0] == code[i] && code[i..][1..] == code[i + 1..];
      assert LooksAt(code, i, i);
      assert forall j: nat :: j > i && !Terminates(code[i]) ==> (LooksAt(code, i, j) <==> LooksAt(code, i + 1, j));
      assert forall j: nat :: j > i && Terminates(code[i]) ==> !LooksAt(code, i, j);
      var next := i + 1;
      if j: nat :| SeesFrom(isa, code, fpu, i, j) {
        assert j > i ==> SeesFrom(isa, code, fpu, next, j);
        assert j == i ==> SeesFrom(isa, code, fpu, i, i);
      }
      if !Terminates(code[i]) {
        if j: nat :| SeesFrom(isa, code, fpu, next, j) {
          assert SeesFrom(isa, code, fpu, i, j);
        }
      }
      SeesHere(isa, code, fpu, i);
    }
  }

  ghost predicate SeesIn(isa: Isa, g: Graph, fpu: bool, k: nat, j: nat) {
    k < |g| && SeesFrom(isa, g[k], fpu, 0, j)
  }

  lemma {:induction false} GraphSees(isa: Isa, g: Graph, fpu: bool, k: nat)
    requires k <= |g|
    ensures (if fpu then GraphSeesFpu(isa, g[k..]) else GraphSeesReturn(g[k..]))
            <==> exists n: nat, j: nat :: k <= n && SeesIn(isa, g, fpu, n, j)
    decreases |g| - k
  {
    hide SeesReturn, SeesFpu, SeesFrom;
    if k < |g| {
      BlockSees(isa, g[k], fpu, 0);
      GraphSees(isa, g, fpu, k + 1);
      assert g[k..][0] == g[k] && g[k..][1..] == g[k + 1..] && g[k][0..] == g[k];
      if j: nat :| SeesFrom(isa, g[k], fpu, 0, j) {
        assert SeesIn(isa, g, fpu, k, j);
      }
    }
  }

  lemma {:induction false} BlockRefusedIff(b: Backend, code: seq<Instr>)
    ensures BlockRefused(b, code)
            <==> b.Trapping? && exists i :: 0 <= i < |code| && code[i].Produce? && code[i].dest.ty == Vec128
  {
    if code != [] {
      BlockRefusedIff(b, code[1..]);
      if i :| 0 <= i < |code| && code[i].Produce? && code[i].dest.ty == Vec128 {
        assert i > 0 ==> code[1..][i - 1] == code[i];
      }
    }
  }

  lemma {:induction false} RefusedIff(b: Backend, g: Graph)
    ensures Refused(b, g) <==> b.Trapping? && exists v :: Defines(g, v) && v.ty == Vec128
  {
    hide BlockRefused;
    if g != [] {
      BlockRefusedIff(b, g[0]);
      RefusedIff(b, g[1..]);
      forall v
        ensures Defines(g, v) <==> Defines(g[1..], v) || exists i :: 0 <= i < |g[0]| && g[0][i].Produce? && g[0][i].dest == v
      {
        if k, i :| 0 <= k < |g| && 0 <= i < |g[k]| && g[k][i].Produce? && g[k][i].dest == v {
          assert k > 0 ==> g[1..][k - 1] == g[k];
        }
        if k, i :| 0 <= k < |g[1..]| && 0 <= i < |g[1..][k]| && g[1..][k][i].Produce? && g[1..][k][i].dest == v {
          assert g[k + 1] == g[1..][k];
        }
      }
      if i :| 0 <= i < |g[0]| && g[0][i].Produce? && g[0][i].dest.ty == Vec128 {
        assert Defines(g, g[0][i].dest);
      }
    }
  }

  lemma SeesReached(isa: Isa, g: Graph, k: nat, j: nat)
    ensures SeesIn(isa, g, false, k, j) <==> Reached(g, k, j) && (g[k][j].Return? || g[k][j].CallIndirect?)
    ensures SeesIn(isa, g, true, k, j)
            <==> Reached(g, k, j) && g[k][j].Produce? && (g[k][j].dest.ty in {Float32, Float64} || isa.converts(g[k][j].op))
  {
  }

  /** What the loops find out as they go is that condition. */
  lemma AcceptsIff(isa: Isa, b: Backend, g: Graph, locals: Locals)
    requires locals.Keys == GraphDests(b, g)
    ensures Accepts(isa, b, g) <==>
              && (if b.Trapping? then |g| > 0 && GraphSeesReturn(g) && GraphSeesFpu(isa, g) else |g| > 1)
              && !Refused(b, g)
              && LowerBlocks(isa, b, g, 0, locals).Some?
  {
    BlocksLower(isa, b, g, 0, locals);
    RefusedIff(b, g);
    GraphSees(isa, g, false, 0);
    GraphSees(isa, g, true, 0);
    assert g[0..] == g;
    hide GraphDests, LowerBlocks, CanLower, Refused, GraphSeesReturn, GraphSeesFpu, Reached, Defines, SeesIn;
    forall k: nat, j: nat
      ensures SeesIn(isa, g, false, k, j) <==> Reached(g, k, j) && (g[k][j].Return? || g[k][j].CallIndirect?)
      ensures SeesIn(isa, g, true, k, j)
              <==> Reached(g, k, j) && g[k][j].Produce? && (g[k][j].dest.ty in {Float32, Float64} || isa.converts(g[k][j].op))
    {
      SeesReached(isa, g, k, j);
    }
  }
}
