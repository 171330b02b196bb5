/**
 BuildLocals and BuildModule as the two generators run them: loops over blocks and instructions
 that append to a token stream and stop at the first thing they cannot lower.
 */
module Emitter {
  import opened Options
  import opened Hir
  import opened Wasm
  import opened Lowering
  import opened Acceptance
  import opened DispatchLoop

  // ---- locals ----

  datatype LocalType = I32 | I64 | F32 | F64

  /** Bytes of a Wasm value of this type. */
  function Bytes(t: LocalType): nat {
    match t
    case I32 => 4
    case I64 => 8
    case F32 => 4
    case F64 => 8
  }

  /** The value types that a Wasm type may carry; no local carries a vector. */
  predicate Carries(t: LocalType, ty: ValueType) {
    match t
    case I32 => ty in {Int8, Int16, Int32}
    case I64 => ty == Int64
    case F32 => ty == Float32
    case F64 => ty == Float64
  }

  /** A value has room in its local, and no more than that, whichever code saves, restores or computes it. */
  lemma CarriedWidth(t: LocalType, ty: ValueType)
    requires Carries(t, ty)
    ensures Bytes(t) == Width(ty) && (t.F32? || t.F64? <==> !IsInteger(ty))
  {
  }

  /** One entry of a function body's local declarations. */
  datatype LocalGroup = LocalGroup(count: nat, ty: LocalType)

  function LocalTypeOf(ty: ValueType): LocalType {
    match ty
    case Int64 => I64
    case Float32 => F32
    case Float64 => F64
    case _ => I32
  }

  /** The type that declarations give the i-th declared local. */
  function DeclaredType(groups: seq<LocalGroup>, i: nat): Option<LocalType> {
    if groups == [] then None
    else if i < groups[0].count then Some(groups[0].ty)
    else DeclaredType(groups[1..], i - groups[0].count)
  }

  /** Parameters of the generated function: the context, and for a resumable one the slot. */
  function Params(b: Backend): nat {
    if b.Trapping? then 1 else 2
  }

  ghost predicate AllOf(values: seq<Value>, ty: LocalType) {
    forall v :: v in values ==> Carries(ty, v.ty)
  }

  ghost predicate Distinct(values: seq<Value>) {
    forall i, j :: 0 <= i < j < |values| ==> values[i] != values[j]
  }

  ghost function Elements(values: seq<Value>): set<Value> {
    set v | v in values
  }

  /** Gives consecutive indices to values that have none yet. */
  method Assign(values: seq<Value>, from: nat, into: Locals) returns (locals: Locals, next: nat)
    requires Distinct(values) && forall v :: v in values ==> v !in into
    ensures next == from + |values|
    ensures locals.Keys == into.Keys + Elements(values)
    ensures forall v :: v in into ==> locals[v] == into[v]
    ensures forall i :: 0 <= i < |values| ==> locals[values[i]] == from + i
  {
    locals, next := into, from;
    for i := 0 to |values|
      invariant next == from + i
      invariant locals.Keys == into.Keys + Elements(values[..i])
      invariant forall v :: v in into ==> locals[v] == into[v]
      invariant forall j :: 0 <= j < i ==> locals[values[j]] == from + j
    {
      locals := locals[values[i] := next];
      next := next + 1;
      assert values[..i + 1] == values[..i] + [values[i]];
    }
    assert values[..|values|] == values;
  }

  /** The four lists BuildLocals sorts destinations into. */
  datatype Sorted = Sorted(i32s: seq<Value>, i64s: seq<Value>, f32s: seq<Value>, f64s: seq<Value>) {
    ghost predicate Good(seen: set<Value>) {
      && AllOf(i32s, I32) && AllOf(i64s, I64) && AllOf(f32s, F32) && AllOf(f64s, F64)
      && Distinct(i32s) && Distinct(i64s) && Distinct(f32s) && Distinct(f64s)
      && Elements(i32s) + Elements(i64s) + Elements(f32s) + Elements(f64s) == seen
    }

    function Add(v: Value): Sorted {
      match LocalTypeOf(v.ty)
      case I32 => this.(i32s := i32s + [v])
      case I64 => this.(i64s := i64s + [v])
      case F32 => this.(f32s := f32s + [v])
      case F64 => this.(f64s := f64s + [v])
    }
  }

  lemma ListGrows(values: seq<Value>, ty: LocalType, v: Value)
    requires AllOf(values, ty) && Distinct(values) && Carries(ty, v.ty) && v !in Elements(values)
    ensures AllOf(values + [v], ty) && Distinct(values + [v]) && Elements(values + [v]) == Elements(values) + {v}
  {
    hide Carries;
  }

  lemma AddKeepsGood(b: Backend, s: Sorted, seen: set<Value>, v: Value)
    requires s.Good(seen) && v !in seen && Keeps(b, v.ty)
    ensures s.Add(v).Good(seen + {v})
  {
    assert Carries(LocalTypeOf(v.ty), v.ty);
    hide LocalTypeOf, Carries, AllOf, Distinct, Elements, Keeps;
    match LocalTypeOf(v.ty) {
      case I32 => ListGrows(s.i32s, I32, v);
      case I64 => ListGrows(s.i64s, I64, v);
      case F32 => ListGrows(s.f32s, F32, v);
      case F64 => ListGrows(s.f64s, F64, v);
    }
  }

  /** What is left of a block from its i-th instruction on. */
  lemma BlockFrom(b: Backend, code: seq<Instr>, i: nat)
    requires i <= |code|
    ensures i == |code| ==> BlockDests(b, code[i..]) == {} && !BlockRefused(b, code[i..])
    ensures i < |code| ==>
              var kept := code[i].Produce? && Keeps(b, code[i].dest.ty);
              && BlockDests(b, code[i..]) == (if kept then {code[i].dest} else {}) + BlockDests(b, code[i + 1..])
              && (BlockRefused(b, code[i..]) <==>
                    (code[i].Produce? && !kept && b.Trapping?) || BlockRefused(b, code[i + 1..]))
  {
    hide Keeps;
    if i < |code| {
      assert code[i..][0] == code[i] && code[i..][1..] == code[i + 1..];
    }
  }

  /** And of a graph from its k-th block on. */
  lemma GraphFrom(b: Backend, g: Graph, k: nat)
    requires k <= |g|
    ensures k == |g| ==> GraphDests(b, g[k..]) == {} && !Refused(b, g[k..])
    ensures k < |g| ==>
              && GraphDests(b, g[k..]) == BlockDests(b, g[k]) + GraphDests(b, g[k + 1..])
              && (Refused(b, g[k..]) <==> BlockRefused(b, g[k]) || Refused(b, g[k + 1..]))
  {
    hide BlockDests, BlockRefused;
    if k < |g| {
      assert g[k..][0] == g[k] && g[k..][1..] == g[k + 1..];
    }
  }

  method SortDests(b: Backend, g: Graph) returns (ok: bool, s: Sorted)
    ensures ok <==> !Refused(b, g)
    ensures ok ==> s.Good(GraphDests(b, g))
  {
    hide Keeps, IsInteger, LocalTypeOf, BlockDests, GraphDests, BlockRefused, Refused, AllOf, Distinct;
    s := Sorted([], [], [], []);
    EmptyIsGood(s);
    var seen: set<Value> := {};
    hide Sorted.Good;
    assert g[0..] == g;
    for k := 0 to |g|
      invariant seen + GraphDests(b, g[k..]) == GraphDests(b, g)
      invariant Refused(b, g) <==> Refused(b, g[k..])
      invariant s.Good(seen)
    {
      GraphFrom(b, g, k);
      assert g[k][0..] == g[k];
      for i := 0 to |g[k]|
        invariant seen + BlockDests(b, g[k][i..]) + GraphDests(b, g[k + 1..]) == GraphDests(b, g)
        invariant Refused(b, g) <==> BlockRefused(b, g[k][i..]) || Refused(b, g[k + 1..])
        invariant s.Good(seen)
      {
        BlockFrom(b, g[k], i);
        var instr := g[k][i];
        if instr.Produce? {
          if Keeps(b, instr.dest.ty) {
            if instr.dest !in seen {
              AddKeepsGood(b, s, seen, instr.dest);
              s := s.Add(instr.dest);
              seen := seen + {instr.dest};
            }
          } else if b.Trapping? {
            return false, s;
          }
        }
      }
      BlockFrom(b, g[k], |g[k]|);
    }
    GraphFrom(b, g, |g|);
    ok := true;
  }

  lemma EmptyIsGood(s: Sorted)
    requires s == Sorted([], [], [], [])
    ensures s.Good({})
  {
  }

  function OptionalGroup(values: seq<Value>, ty: LocalType): seq<LocalGroup> {
    if values == [] then [] else [LocalGroup(|values|, ty)]
  }

  /** The type a local is declared with; parameters are not declared. */
  function TypeOfLocal(b: Backend, groups: seq<LocalGroup>, local: nat): Option<LocalType> {
    if local < Params(b) then None else DeclaredType(groups, local - Params(b))
  }

  /** What the declarations must say of every value's local. */
  ghost predicate DeclaredRight(b: Backend, locals: Locals, groups: seq<LocalGroup>) {
    && (forall v :: v in locals ==>
          var t := TypeOfLocal(b, groups, locals[v]);
          t.Some? && Carries(t.value, v.ty) && Bytes(t.value) == Width(v.ty))
    && TypeOfLocal(b, groups, b.Pc()) == Some(I32)
    && TypeOfLocal(b, groups, b.Budget()) == Some(I32)
  }

  lemma DeclaredSkips(values: seq<Value>, ty: LocalType, rest: seq<LocalGroup>, i: nat)
    ensures DeclaredType(OptionalGroup(values, ty) + rest, i)
            == if i < |values| then Some(ty) else DeclaredType(rest, i - |values|)
  {
    if values == [] {
      assert OptionalGroup(values, ty) + rest == rest;
    } else {
      assert (OptionalGroup(values, ty) + rest)[1..] == rest;
    }
  }

  function Groups(s: Sorted): seq<LocalGroup> {
    [LocalGroup(2 + |s.i32s|, I32)]
    + (OptionalGroup(s.i64s, I64) + (OptionalGroup(s.f32s, F32) + (OptionalGroup(s.f64s, F64) + [])))
  }

  /** Where in the declarations each list's locals lie. */
  lemma DeclaredInGroups(s: Sorted, i: nat)
    ensures DeclaredType(Groups(s), i) ==
            var n1 := 2 + |s.i32s|;
            var n2 := n1 + |s.i64s|;
            var n3 := n2 + |s.f32s|;
            var n4 := n3 + |s.f64s|;
            if i < n1 then Some(I32) else if i < n2 then Some(I64) else if i < n3 then Some(F32)
            else if i < n4 then Some(F64) else None
  {
    var f64s := OptionalGroup(s.f64s, F64) + [];
    var f32s := OptionalGroup(s.f32s, F32) + f64s;
    var i64s := OptionalGroup(s.i64s, I64) + f32s;
    assert Groups(s)[1..] == i64s;
    if i >= 2 + |s.i32s| {
      var j := i - 2 - |s.i32s|;
      DeclaredSkips(s.i64s, I64, f32s, j);
      if j >= |s.i64s| {
        DeclaredSkips(s.f32s, F32, f64s, j - |s.i64s|);
        if j - |s.i64s| >= |s.f32s| {
          DeclaredSkips(s.f64s, F64, [], j - |s.i64s| - |s.f32s|);
        }
      }
    }
  }

  lemma {:induction false} ElementsSize(values: seq<Value>)
    requires Distinct(values)
    ensures |Elements(values)| == |values|
  {
    if values != [] {
      var init := values[..|values| - 1];
      ElementsSize(init);
      assert Elements(values) == Elements(init) + {values[|values| - 1]};
    }
  }

  /** The four lists end to end: the order in which locals are handed out. */
  function Order(s: Sorted): seq<Value> {
    s.i32s + s.i64s + s.f32s + s.f64s
  }

  lemma OrderCovers(s: Sorted, seen: set<Value>)
    requires s.Good(seen)
    ensures forall v :: v in seen ==> v in Order(s)
  {
  }

  lemma OrderTypes(s: Sorted, seen: set<Value>, i: nat)
    requires s.Good(seen) && i < |Order(s)|
    ensures var t := DeclaredType(Groups(s), 2 + i); t.Some? && Carries(t.value, Order(s)[i].ty)
  {
    DeclaredInGroups(s, 2 + i);
    var n1 := |s.i32s|;
    var n2 := n1 + |s.i64s|;
    var n3 := n2 + |s.f32s|;
    if i < n1 {
      assert Order(s)[i] == s.i32s[i];
    } else if i < n2 {
      assert Order(s)[i] == s.i64s[i - n1];
    } else if i < n3 {
      assert Order(s)[i] == s.f32s[i - n2];
    } else {
      assert Order(s)[i] == s.f64s[i - n3];
    }
  }

  lemma ListsApart(a: seq<Value>, t: LocalType, c: seq<Value>, u: LocalType)
    requires AllOf(a, t) && AllOf(c, u) && t != u
    ensures Elements(a) !! Elements(c)
  {
    assert forall v :: v in a ==> Carries(t, v.ty) && !Carries(u, v.ty);
  }

  lemma SortedApart(s: Sorted, seen: set<Value>)
    requires s.Good(seen)
    ensures Distinct(s.i32s) && Distinct(s.i64s) && Distinct(s.f32s) && Distinct(s.f64s)
    ensures var a, b, c, d := Elements(s.i32s), Elements(s.i64s), Elements(s.f32s), Elements(s.f64s);
            a + b + c + d == seen && a !! b && (a + b) !! c && (a + b + c) !! d
  {
    ListsApart(s.i32s, I32, s.i64s, I64);
    ListsApart(s.i32s, I32, s.f32s, F32);
    ListsApart(s.i32s, I32, s.f64s, F64);
    ListsApart(s.i64s, I64, s.f32s, F32);
    ListsApart(s.i64s, I64, s.f64s, F64);
    ListsApart(s.f32s, F32, s.f64s, F64);
    hide Elements, AllOf, Distinct;
  }

  lemma OrderSize(s: Sorted, seen: set<Value>)
    requires s.Good(seen)
    ensures |seen| == |Order(s)|
  {
    SortedApart(s, seen);
    hide Sorted.Good, Elements, Distinct;
    ElementsSize(s.i32s);
    ElementsSize(s.i64s);
    ElementsSize(s.f32s);
    ElementsSize(s.f64s);
    var a, b, c, d := Elements(s.i32s), Elements(s.i64s), Elements(s.f32s), Elements(s.f64s);
    assert |a + b| == |a| + |b|;
    assert |a + b + c| == |a + b| + |c|;
  }

  /** Values listed from index from on, as Assign leaves them. */
  ghost predicate Placed(locals: Locals, values: seq<Value>, from: nat) {
    forall i :: 0 <= i < |values| ==> values[i] in locals && locals[values[i]] == from + i
  }

  lemma PlacedAppend(locals: Locals, a: seq<Value>, b: seq<Value>, from: nat)
    requires Placed(locals, a, from) && Placed(locals, b, from + |a|)
    ensures Placed(locals, a + b, from)
  {
  }

  lemma PlacedIsGood(b: Backend, locals: Locals, order: seq<Value>)
    requires Placed(locals, order, b.Base()) && |locals| == |order|
    requires forall v :: v in locals ==> v in order
    ensures GoodLocals(b, locals)
  {
    forall v, u | v in locals && u in locals && locals[v] == locals[u]
      ensures v == u
    {
      var i :| 0 <= i < |order| && order[i] == v;
      var j :| 0 <= j < |order| && order[j] == u;
    }
  }

  lemma PlacedIsTyped(b: Backend, s: Sorted, seen: set<Value>, locals: Locals, v: Value)
    requires s.Good(seen) && Placed(locals, Order(s), b.Base()) && v in Order(s)
    ensures v in locals
    ensures var t := TypeOfLocal(b, Groups(s), locals[v]);
            t.Some? && Carries(t.value, v.ty) && Bytes(t.value) == Width(v.ty)
  {
    hide Carries, Sorted.Good, Groups, DeclaredType, Bytes, Order;
    var i :| 0 <= i < |Order(s)| && Order(s)[i] == v;
    OrderTypes(s, seen, i);
    CarriedWidth(DeclaredType(Groups(s), 2 + i).value, v.ty);
  }

  lemma PlacedIsDeclared(b: Backend, s: Sorted, seen: set<Value>, locals: Locals)
    requires s.Good(seen) && Placed(locals, Order(s), b.Base())
    requires forall v :: v in locals ==> v in Order(s)
    ensures DeclaredRight(b, locals, Groups(s))
  {
    DeclaredInGroups(s, b.Pc() - Params(b));
    DeclaredInGroups(s, b.Budget() - Params(b));
    hide Carries, Sorted.Good, Groups, DeclaredType, Bytes, Order, Placed;
    forall v | v in locals
      ensures var t := TypeOfLocal(b, Groups(s), locals[v]);
              t.Some? && Carries(t.value, v.ty) && Bytes(t.value) == Width(v.ty)
    {
      PlacedIsTyped(b, s, seen, locals, v);
    }
  }

  lemma LocalsAreRight(b: Backend, s: Sorted, seen: set<Value>, locals: Locals)
    requires s.Good(seen) && locals.Keys == seen
    requires Placed(locals, s.i32s, b.Base())
    requires Placed(locals, s.i64s, b.Base() + |s.i32s|)
    requires Placed(locals, s.f32s, b.Base() + |s.i32s| + |s.i64s|)
    requires Placed(locals, s.f64s, b.Base() + |s.i32s| + |s.i64s| + |s.f32s|)
    ensures GoodLocals(b, locals) && DeclaredRight(b, locals, Groups(s))
  {
    PlacedAppend(locals, s.i32s, s.i64s, b.Base());
    PlacedAppend(locals, s.i32s + s.i64s, s.f32s, b.Base());
    PlacedAppend(locals, s.i32s + s.i64s + s.f32s, s.f64s, b.Base());
    OrderSize(s, seen);
    OrderCovers(s, seen);
    assert |locals| == |locals.Keys|;
    PlacedIsGood(b, locals, Order(s));
    PlacedIsDeclared(b, s, seen, locals);
  }

  /**
   Every value of the graph gets a local of its own, above the control locals, and the
   declarations give that local the value's type.
   */
  method BuildLocals(b: Backend, g: Graph) returns (ok: bool, locals: Locals, groups: seq<LocalGroup>)
    ensures ok <==> !Refused(b, g)
    ensures ok ==> locals.Keys == GraphDests(b, g) && GoodLocals(b, locals) && DeclaredRight(b, locals, groups)
  {
    hide Sorted.Good, Groups, GoodLocals, DeclaredRight, Distinct;
    locals, groups := map[], [];
    var s: Sorted;
    ok, s := SortDests(b, g);
    if !ok {
      return;
    }
    SortedApart(s, GraphDests(b, g));
    var next := b.Base();
    locals, next := Assign(s.i32s, next, locals);
    locals, next := Assign(s.i64s, next, locals);
    locals, next := Assign(s.f32s, next, locals);
    locals, next := Assign(s.f64s, next, locals);
    groups := Groups(s);
    LocalsAreRight(b, s, GraphDests(b, g), locals);
  }

  // ---- the module ----

  /** The code of a block, as appended up to instruction i with code still to come from there. */
  ghost predicate EmittedUpTo(isa: Isa, b: Backend, g: Graph, k: nat, locals: Locals, i: nat, out: seq<Token>)
    requires k < |g| && i <= |g[k]|
  {
    var whole := LowerInstrs(isa, b, |g|, k, g[k], locals);
    var rest := LowerInstrs(isa, b, |g|, k, g[k][i..], locals);
    whole.Some? == rest.Some? && (rest.Some? ==> Flatten(whole.value) == out + Flatten(rest.value))
  }

  lemma EmitStep(isa: Isa, b: Backend, g: Graph, k: nat, locals: Locals, i: nat, out: seq<Token>, code: seq<Code>)
    requires k < |g| && i < |g[k]| && EmittedUpTo(isa, b, g, k, locals, i, out)
    requires LowerInstr(isa, b, |g|, g[k][i], locals) == Some(code)
    ensures if Terminates(g[k][i]) then
              var whole := LowerInstrs(isa, b, |g|, k, g[k], locals);
              whole.Some? && Flatten(whole.value) == out + Flatten(code)
            else EmittedUpTo(isa, b, g, k, locals, i + 1, out + Flatten(code))
  {
    hide LowerInstr, Flatten;
    assert g[k][i..][1..] == g[k][i + 1..];
    var rest := LowerInstrs(isa, b, |g|, k, g[k][i + 1..], locals);
    if rest.Some? {
      FlattenAppend(code, rest.value);
      assert out + (Flatten(code) + Flatten(rest.value)) == (out + Flatten(code)) + Flatten(rest.value);
    }
  }

  /** One block's instructions, appended until a terminator or the end of the block. */
  method EmitBlock(isa: Isa, b: Backend, g: Graph, k: nat, locals: Locals)
    returns (ok: bool, out: seq<Token>, sawReturn: bool, sawFpu: bool)
    requires k < |g|
    ensures ok <==> LowerInstrs(isa, b, |g|, k, g[k], locals).Some?
    ensures ok ==> out == Flatten(LowerInstrs(isa, b, |g|, k, g[k], locals).value)
    ensures ok ==> sawReturn == SeesReturn(g[k]) && sawFpu == SeesFpu(isa, g[k])
  {
    ok, out, sawReturn, sawFpu := true, [], false, false;
    var terminated, i := false, 0;
    assert g[k][0..] == g[k];
    while i < |g[k]| && !terminated
      invariant 0 <= i <= |g[k]|
      invariant terminated ==>
        var whole := LowerInstrs(isa, b, |g|, k, g[k], locals);
        whole.Some? && Flatten(whole.value) == out
      invariant terminated ==> SeesReturn(g[k]) == sawReturn && SeesFpu(isa, g[k]) == sawFpu
      invariant !terminated ==> EmittedUpTo(isa, b, g, k, locals, i, out)
      invariant !terminated ==>
        && SeesReturn(g[k]) == (sawReturn || SeesReturn(g[k][i..]))
        && SeesFpu(isa, g[k]) == (sawFpu || SeesFpu(isa, g[k][i..]))
      decreases |g[k]| - i
    {
      var instr := g[k][i];
      assert g[k][i..][0] == instr && g[k][i..][1..] == g[k][i + 1..];
      var code := LowerInstr(isa, b, |g|, instr, locals);
      if code.None? {
        return false, out, sawReturn, sawFpu;
      }
      EmitStep(isa, b, g, k, locals, i, out, code.value);
      out := out + Flatten(code.value);
      sawReturn := sawReturn || instr.Return? || instr.CallIndirect?;
      sawFpu := sawFpu || IsFpu(isa, instr);
      terminated := Terminates(instr);
      i := i + 1;
    }
    if !terminated {
      assert g[k][|g[k]|..] == [];
      out := out + Flatten(LowerFallThrough(b, |g|, k));
    }
  }

  /** The pc tests of blocks 0 to k are in out, those from k on still to come. */
  ghost predicate CascadeUpTo(isa: Isa, b: Backend, g: Graph, locals: Locals, k: nat, out: seq<Token>)
    requires k <= |g|
  {
    var whole := LowerBlocks(isa, b, g, 0, locals);
    var rest := LowerBlocks(isa, b, g, k, locals);
    whole.Some? == rest.Some? && (rest.Some? ==> Flatten(whole.value) == out + Flatten(rest.value))
  }

  /** The tokens of one pc test and the block it guards. */
  function BlockTokens(b: Backend, k: nat, body: seq<Token>): seq<Token> {
    [T(LocalGet(b.Pc())), T(Const(k)), T(Eq32), OpenIf] + body + [End]
  }

  lemma FlattenPlain(a: Op, rest: seq<Code>)
    ensures Flatten([Plain(a)] + rest) == [T(a)] + Flatten(rest)
  {
    assert ([Plain(a)] + rest)[1..] == rest;
  }

  lemma FlattenBlockTest(b: Backend, k: nat, body: seq<Code>, rest: seq<Code>)
    ensures Flatten(LowerTest(b, k) + ([If(body, [])] + rest)) == BlockTokens(b, k, Flatten(body)) + Flatten(rest)
  {
    var guarded := [If(body, [])] + rest;
    assert guarded[1..] == rest;
    assert Flatten(guarded) == [OpenIf] + Flatten(body) + [] + [End] + Flatten(rest);
    var a, c, e := LocalGet(b.Pc()), Const(k), Eq32;
    FlattenPlain(e, guarded);
    FlattenPlain(c, [Plain(e)] + guarded);
    FlattenPlain(a, [Plain(c)] + ([Plain(e)] + guarded));
    assert LowerTest(b, k) + guarded == [Plain(a)] + ([Plain(c)] + ([Plain(e)] + guarded));
  }

  lemma CascadeStep(isa: Isa, b: Backend, g: Graph, locals: Locals, k: nat, out: seq<Token>)
    requires k < |g| && CascadeUpTo(isa, b, g, locals, k, out)
    requires LowerInstrs(isa, b, |g|, k, g[k], locals).Some?
    ensures CascadeUpTo(isa, b, g, locals, k + 1,
                        out + BlockTokens(b, k, Flatten(LowerInstrs(isa, b, |g|, k, g[k], locals).value)))
  {
    var body := LowerInstrs(isa, b, |g|, k, g[k], locals).value;
    var rest := LowerBlocks(isa, b, g, k + 1, locals);
    if rest.Some? {
      FlattenBlockTest(b, k, body, rest.value);
      var mine, others := BlockTokens(b, k, Flatten(body)), Flatten(rest.value);
      assert out + (mine + others) == (out + mine) + others;
    }
  }

  /** The whole cascade, one block after the other, and the exit for a pc that matches none. */
  method EmitCascade(isa: Isa, b: Backend, g: Graph, locals: Locals)
    returns (ok: bool, out: seq<Token>, sawReturn: bool, sawFpu: bool)
    ensures ok <==> LowerBlocks(isa, b, g, 0, locals).Some?
    ensures ok ==> out == Flatten(LowerBlocks(isa, b, g, 0, locals).value)
    ensures ok ==> sawReturn == GraphSeesReturn(g) && sawFpu == GraphSeesFpu(isa, g)
  {
    ok, out, sawReturn, sawFpu := true, [], false, false;
    assert g[0..] == g;
    for k := 0 to |g|
      invariant CascadeUpTo(isa, b, g, locals, k, out)
      invariant GraphSeesReturn(g) == (sawReturn || GraphSeesReturn(g[k..]))
      invariant GraphSeesFpu(isa, g) == (sawFpu || GraphSeesFpu(isa, g[k..]))
    {
      assert g[k..][0] == g[k] && g[k..][1..] == g[k + 1..];
      var done, body, ret, fpu := EmitBlock(isa, b, g, k, locals);
      if !done {
        return false, out, sawReturn, sawFpu;
      }
      CascadeStep(isa, b, g, locals, k, out);
      out := out + BlockTokens(b, k, body);
      sawReturn, sawFpu := sawReturn || ret, sawFpu || fpu;
    }
    assert Flatten([Plain(Br(1))]) == [T(Br(1))] by { FlattenPlain(Br(1), []); assert [Plain(Br(1))] + [] == [Plain(Br(1))]; }
    out := out + [T(Br(1))];
  }

  /** The values of a map in some iteration order, each at least once. */
  method Iterate(locals: Locals) returns (order: seq<Value>)
    ensures forall v :: v in order <==> v in locals
  {
    order := [];
    var left := locals.Keys;
    while left != {}
      invariant left <= locals.Keys
      invariant forall v :: v in order <==> v in locals && v !in left
      decreases left
    {
      var v :| v in left;
      order := order + [v];
      left := left - {v};
    }
  }

  /** What both generators write around the cascade. */
  function BodyTokens(b: Backend, locals: Locals, order: seq<Value>, cascade: seq<Token>): seq<Token>
    requires forall v :: v in order ==> v in locals
  {
    Flatten(Prologue(b, locals, order) + SetBudget(b))
    + [OpenBlock, OpenLoop] + Flatten(CheckBudget(b, locals, order) + Spend(b)) + cascade + [End, End]
    + Flatten(RESULT)
  }

  lemma FlattenDispatcher(body: seq<Code>)
    ensures Flatten([Block([Loop(body)])]) == [OpenBlock, OpenLoop] + Flatten(body) + [End, End]
  {
    assert [Block([Loop(body)])][1..] == [] && [Loop(body)][1..] == [];
    assert Flatten([Loop(body)]) == [OpenLoop] + Flatten(body) + [End] + [];
    assert Flatten([Block([Loop(body)])]) == [OpenBlock] + Flatten([Loop(body)]) + [End] + [];
  }

  lemma BodyTokensFlatten(b: Backend, locals: Locals, order: seq<Value>, cascade: seq<Code>)
    requires forall v :: v in order ==> v in locals
    ensures BodyTokens(b, locals, order, Flatten(cascade)) == Flatten(Body(b, locals, order, cascade))
  {
    hide Prologue, SetBudget, CheckBudget, Spend, Flatten;
    var head := Prologue(b, locals, order) + SetBudget(b);
    var check := CheckBudget(b, locals, order) + Spend(b);
    var body := LoopBody(b, locals, order, cascade);
    assert body == check + cascade;
    assert Body(b, locals, order, cascade) == head + ([Block([Loop(body)])] + RESULT);
    FlattenAppend(check, cascade);
    FlattenAppend(head, [Block([Loop(body)])] + RESULT);
    FlattenAppend([Block([Loop(body)])], RESULT);
    FlattenDispatcher(body);
  }

  /**
   BuildModule of the floating-point generator, and BuildCfgModule of the resumable one: exactly
   the graphs said above are accepted, and the tokens are those of the lowered body.
   */
  method BuildModule(isa: Isa, b: Backend, g: Graph)
    returns (ok: bool, tokens: seq<Token>, groups: seq<LocalGroup>, locals: Locals, order: seq<Value>)
    ensures ok ==> Lowered(isa, b, g, locals, order).Good() && DeclaredRight(b, locals, groups)
    ensures ok ==> tokens == Flatten(Body(b, locals, order, Lowered(isa, b, g, locals, order).Cascade()))
    ensures ok ==> Parse(tokens) == Some((Body(b, locals, order, Lowered(isa, b, g, locals, order).Cascade()), []))
    ensures ok ==> |g| > 0 && locals.Keys == GraphDests(b, g)
    ensures ok <==> Accepts(isa, b, g)
  {
    ok, tokens, groups, locals, order := false, [], [], map[], [];
    if g == [] || (b.Resumable? && |g| == 1) {
      return;
    }
    RefusedIff(b, g);
    ok, locals, groups := BuildLocals(b, g);
    if !ok {
      return;
    }
    AcceptsIff(isa, b, g, locals);
    order := Iterate(locals);
    var cascade, sawReturn, sawFpu;
    ok, cascade, sawReturn, sawFpu := EmitCascade(isa, b, g, locals);
    if !ok {
      return;
    }
    if b.Trapping? && (!sawReturn || !sawFpu) {
      ok := false;
      return;
    }
    BodyTokensFlatten(b, locals, order, LowerBlocks(isa, b, g, 0, locals).value);
    tokens := BodyTokens(b, locals, order, cascade);
    WrittenNestingIsRead(Body(b, locals, order, LowerBlocks(isa, b, g, 0, locals).value));
  }
}
