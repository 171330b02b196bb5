/**
 The resumable module of prepare-wasm-backend-cfg-overlay.py: a call that runs out of fuel
 leaves the block number and every value in its continuation slot, and the next call goes on
 from there.
 */
module ResumableModule {
  import opened LittleEndian
  import opened Hir
  import opened Wasm
  import opened Lowering
  import opened Dispatcher
  import opened DispatchLoop

  /** g_continuation_state_size: the bytes of one slot. */
  function StateSize(locals: Locals): nat {
    VALUES_AT + 8 * |locals|
  }

  ghost predicate InBounds(locals: Locals, mem: seq<byte>, p: nat) {
    p + StateSize(locals) <= |mem|
  }

  /** The slot at p holds these values. */
  ghost predicate HoldsValues(locals: Locals, mem: seq<byte>, p: nat, s: State)
    requires GoodLocals(Resumable, locals) && InBounds(locals, mem, p)
  {
    forall v :: v in locals ==> Load(mem, p + SlotOffset(locals, v), Width(v.ty)) == ValueOf(s, v)
  }

  /** What a slot says: not started, suspended before block k with these values, or done. */
  datatype SlotState = SlotFresh | SlotYielded(block: nat, s: State) | SlotCompleted

  ghost predicate SlotSays(locals: Locals, mem: seq<byte>, p: nat, says: SlotState)
    requires GoodLocals(Resumable, locals) && InBounds(locals, mem, p)
  {
    var status := Load(mem, p + STATUS_AT, 4);
    match says
    case SlotFresh => status != YIELDED && status != COMPLETED
    case SlotCompleted => status == COMPLETED
    case SlotYielded(k, s) =>
      status == YIELDED && Load(mem, p + PC_AT, 4) == k && HoldsValues(locals, mem, p, s)
  }

  lemma CellOf(locals: Locals, v: Value)
    requires GoodLocals(Resumable, locals) && v in locals
    ensures 4 <= locals[v] < 4 + |locals|
    ensures SlotOffset(locals, v) == 8 + 8 * (locals[v] - 4) && Width(v.ty) == if v.ty in {Int64, Float64} then 8 else 4
  {
  }

  /** A slot byte by byte: a status word, the block number behind it, and a cell of eight bytes for every value. */
  lemma SlotInBytes(locals: Locals, mem: seq<byte>, p: nat, says: SlotState)
    requires GoodLocals(Resumable, locals) && p + 8 + 8 * |locals| <= |mem|
    ensures InBounds(locals, mem, p)
    ensures forall v :: v in locals ==> 4 <= locals[v] < 4 + |locals|
    ensures SlotSays(locals, mem, p, says) <==>
              match says
              case SlotFresh => Load(mem, p, 4) != 1 && Load(mem, p, 4) != 2
              case SlotCompleted => Load(mem, p, 4) == 2
              case SlotYielded(k, s) =>
                && Load(mem, p, 4) == 1 && Load(mem, p + 4, 4) == k
                && forall v :: v in locals ==>
                     Load(mem, p + 8 + 8 * (locals[v] - 4), if v.ty in {Int64, Float64} then 8 else 4) == ValueOf(s, v)
  {
    hide Load, ValueOf, SlotOffset, Width;
    forall v | v in locals
      ensures 4 <= locals[v] < 4 + |locals| && SlotOffset(locals, v) == 8 + 8 * (locals[v] - 4)
      ensures Width(v.ty) == if v.ty in {Int64, Float64} then 8 else 4
    {
      CellOf(locals, v);
    }
  }

  /** b differs from a only inside the slot at p. */
  ghost predicate OnlySlot(locals: Locals, a: seq<byte>, b: seq<byte>, p: nat) {
    |a| == |b| && forall i :: 0 <= i < |a| && !(p <= i < p + StateSize(locals)) ==> a[i] == b[i]
  }

  // ---- saving ----

  function StoreValues(locals: Locals, order: seq<Value>, mem: seq<byte>, p: nat, s: State): (r: seq<byte>)
    requires GoodLocals(Resumable, locals) && InBounds(locals, mem, p)
    requires forall v :: v in order ==> v in locals
    ensures |r| == |mem|
    decreases |order|
  {
    if order == [] then mem
    else
      StoreValues(locals, order[1..],
                  LittleEndian.Store(mem, p + SlotOffset(locals, order[0]), Width(order[0].ty), ValueOf(s, order[0])), p, s)
  }

  /** Each value's cell is its own: storing u leaves every other value's cell alone. */
  lemma StoreOneHolds(locals: Locals, mem: seq<byte>, p: nat, s: State, u: Value, v: Value)
    requires GoodLocals(Resumable, locals) && InBounds(locals, mem, p) && Typed(s)
    requires u in locals && v in locals
    requires u == v || Load(mem, p + SlotOffset(locals, v), Width(v.ty)) == ValueOf(s, v)
    ensures Load(LittleEndian.Store(mem, p + SlotOffset(locals, u), Width(u.ty), ValueOf(s, u)),
                 p + SlotOffset(locals, v), Width(v.ty)) == ValueOf(s, v)
  {
    hide GoodLocals, Capacity, SlotOffset, Width, Load;
    CellInSlot(locals, u);
    CellInSlot(locals, v);
    var at, n, other, m, value := p + SlotOffset(locals, u), Width(u.ty), p + SlotOffset(locals, v), Width(v.ty), ValueOf(s, u);
    assert value < Capacity(n) && at + n <= |mem| && other + m <= |mem|;
    if u == v {
      hide *;
      LoadStored(mem, at, n, value);
    } else {
      CellsApart(locals, u, v);
      assert at + n <= other || other + m <= at;
      hide *;
      LoadUnchanged(mem, LittleEndian.Store(mem, at, n, value), other, m);
    }
  }

  lemma {:induction false} StoreValuesHolds(locals: Locals, order: seq<Value>, mem: seq<byte>, p: nat, s: State, v: Value)
    requires GoodLocals(Resumable, locals) && InBounds(locals, mem, p) && Typed(s)
    requires forall u :: u in order ==> u in locals
    requires v in locals
    requires v in order || Load(mem, p + SlotOffset(locals, v), Width(v.ty)) == ValueOf(s, v)
    ensures Load(StoreValues(locals, order, mem, p, s), p + SlotOffset(locals, v), Width(v.ty)) == ValueOf(s, v)
    decreases |order|
  {
    hide GoodLocals, Capacity, SlotOffset, Width, Load;
    if order != [] {
      var u := order[0];
      CellInSlot(locals, u);
      CellInSlot(locals, v);
      var mem' := LittleEndian.Store(mem, p + SlotOffset(locals, u), Width(u.ty), ValueOf(s, u));
      if u == v || v !in order[1..] {
        StoreOneHolds(locals, mem, p, s, u, v);
      }
      StoreValuesHolds(locals, order[1..], mem', p, s, v);
    }
  }

  lemma {:induction false} StoreValuesFrame(locals: Locals, order: seq<Value>, mem: seq<byte>, p: nat, s: State)
    requires GoodLocals(Resumable, locals) && InBounds(locals, mem, p)
    requires forall v :: v in order ==> v in locals
    ensures var r := StoreValues(locals, order, mem, p, s);
            forall i :: 0 <= i < |mem| && !(p + VALUES_AT <= i < p + StateSize(locals)) ==> r[i] == mem[i]
    decreases |order|
  {
    if order != [] {
      var mem' := LittleEndian.Store(mem, p + SlotOffset(locals, order[0]), Width(order[0].ty), ValueOf(s, order[0]));
      StoreValuesFrame(locals, order[1..], mem', p, s);
    }
  }

  lemma CellInSlot(locals: Locals, v: Value)
    requires GoodLocals(Resumable, locals) && v in locals
    ensures VALUES_AT <= SlotOffset(locals, v)
    ensures SlotOffset(locals, v) + Width(v.ty) <= StateSize(locals)
  {
  }

  lemma CellsApart(locals: Locals, u: Value, v: Value)
    requires GoodLocals(Resumable, locals) && u in locals && v in locals && u != v
    ensures SlotOffset(locals, u) + 8 <= SlotOffset(locals, v) || SlotOffset(locals, v) + 8 <= SlotOffset(locals, u)
  {
    assert locals[u] != locals[v];
  }

  lemma StoreLocalCorrect(isa: Isa, fuel: nat, index: nat, width: nat, offset: nat, m: Machine)
    requires |m.locals| > SLOT_LOCAL && index < |m.locals| && m.locals[SLOT_LOCAL] + offset + width <= |m.mem|
    ensures Exec(isa, fuel, [Plain(LocalGet(SLOT_LOCAL)), Plain(LocalGet(index)), Plain(StoreMem(width, offset))], m)
            == Normal(m.(mem := LittleEndian.Store(m.mem, m.locals[SLOT_LOCAL] + offset, width, m.locals[index])))
  {
    Exec3(isa, fuel, LocalGet(SLOT_LOCAL), LocalGet(index), StoreMem(width, offset), m);
    var p, v := m.locals[SLOT_LOCAL], m.locals[index];
    assert m.stack + [p] + [v] == m.stack + [p, v];
    assert (m.stack + [p, v])[..|m.stack|] == m.stack;
  }

  lemma {:induction false} SaveValuesCorrect(isa: Isa, fuel: nat, locals: Locals, order: seq<Value>, m: Machine, s: State)
    requires GoodLocals(Resumable, locals) && Agrees(Resumable, locals, m, s)
    requires InBounds(locals, m.mem, m.locals[SLOT_LOCAL])
    requires forall v :: v in order ==> v in locals
    ensures Exec(isa, fuel, SaveValues(locals, order), m)
            == Normal(m.(mem := StoreValues(locals, order, m.mem, m.locals[SLOT_LOCAL], s)))
    decreases |order|
  {
    hide Width, SlotOffset, ValueOf;
    if order != [] {
      var v := order[0];
      CellInSlot(locals, v);
      var first := [Plain(LocalGet(SLOT_LOCAL)), Plain(LocalGet(locals[v])), Plain(StoreMem(Width(v.ty), SlotOffset(locals, v)))];
      ExecAppend(isa, fuel, first, SaveValues(locals, order[1..]), m);
      StoreLocalCorrect(isa, fuel, locals[v], Width(v.ty), SlotOffset(locals, v), m);
      var m' := m.(mem := LittleEndian.Store(m.mem, m.locals[SLOT_LOCAL] + SlotOffset(locals, v), Width(v.ty), ValueOf(s, v)));
      SaveValuesCorrect(isa, fuel, locals, order[1..], m', s);
    }
  }

  /** The memory a suspended call leaves behind. */
  function Suspended(locals: Locals, order: seq<Value>, mem: seq<byte>, p: nat, k: nat, s: State): (r: seq<byte>)
    requires GoodLocals(Resumable, locals) && InBounds(locals, mem, p)
    requires forall v :: v in order ==> v in locals
    ensures |r| == |mem|
  {
    var withPc := LittleEndian.Store(mem, p + PC_AT, 4, k);
    LittleEndian.Store(StoreValues(locals, order, withPc, p, s), p + STATUS_AT, 4, YIELDED)
  }

  lemma SaveCorrect(isa: Isa, fuel: nat, locals: Locals, order: seq<Value>, m: Machine, k: nat, s: State)
    requires GoodLocals(Resumable, locals) && Agrees(Resumable, locals, m, s)
    requires InBounds(locals, m.mem, m.locals[SLOT_LOCAL])
    requires forall v :: v in order ==> v in locals
    requires m.locals[Resumable.Pc()] == k
    ensures Exec(isa, fuel, Save(Resumable, locals, order), m)
            == Normal(m.(mem := Suspended(locals, order, m.mem, m.locals[SLOT_LOCAL], k, s)))
  {
    hide Exec, ExecOp, SaveValues, StoreValues;
    var p := m.locals[SLOT_LOCAL];
    var first := [Plain(LocalGet(SLOT_LOCAL)), Plain(LocalGet(Resumable.Pc())), Plain(StoreMem(4, PC_AT))];
    ExecAppend(isa, fuel, first, SaveValues(locals, order) + SetStatus(YIELDED), m);
    StoreLocalCorrect(isa, fuel, Resumable.Pc(), 4, PC_AT, m);
    var m1 := m.(mem := LittleEndian.Store(m.mem, p + PC_AT, 4, k));
    ExecAppend(isa, fuel, SaveValues(locals, order), SetStatus(YIELDED), m1);
    SaveValuesCorrect(isa, fuel, locals, order, m1, s);
    SetStatusCorrect(isa, fuel, YIELDED, m1.(mem := StoreValues(locals, order, m1.mem, p, s)));
  }

  lemma SuspendedHoldsValue(locals: Locals, order: seq<Value>, mem: seq<byte>, p: nat, k: nat, s: State, v: Value)
    requires GoodLocals(Resumable, locals) && InBounds(locals, mem, p) && Typed(s)
    requires forall u :: u in order <==> u in locals
    requires v in locals
    ensures Load(Suspended(locals, order, mem, p, k, s), p + SlotOffset(locals, v), Width(v.ty)) == ValueOf(s, v)
  {
    hide Typed;
    var withPc := LittleEndian.Store(mem, p + PC_AT, 4, k);
    StoreValuesHolds(locals, order, withPc, p, s, v);
    LoadUnchanged(StoreValues(locals, order, withPc, p, s), Suspended(locals, order, mem, p, k, s),
                  p + SlotOffset(locals, v), Width(v.ty));
  }

  lemma SuspendedHeader(locals: Locals, order: seq<Value>, mem: seq<byte>, p: nat, k: nat, s: State)
    requires GoodLocals(Resumable, locals) && InBounds(locals, mem, p)
    requires forall v :: v in order ==> v in locals
    requires k < 0x1_0000_0000
    ensures var r := Suspended(locals, order, mem, p, k, s);
            && Load(r, p + STATUS_AT, 4) == YIELDED && Load(r, p + PC_AT, 4) == k
            && OnlySlot(locals, mem, r, p)
  {
    CapacityOfWord();
    var withPc := LittleEndian.Store(mem, p + PC_AT, 4, k);
    var values := StoreValues(locals, order, withPc, p, s);
    StoreValuesFrame(locals, order, withPc, p, s);
    LoadStored(mem, p + PC_AT, 4, k);
    LoadUnchanged(withPc, Suspended(locals, order, mem, p, k, s), p + PC_AT, 4);
    LoadStored(values, p + STATUS_AT, 4, YIELDED);
  }

  /** A suspended slot holds exactly the block number and the values it was suspended with. */
  lemma SuspendedSays(locals: Locals, order: seq<Value>, mem: seq<byte>, p: nat, k: nat, s: State)
    requires GoodLocals(Resumable, locals) && InBounds(locals, mem, p) && Typed(s)
    requires forall v :: v in order <==> v in locals
    requires k < 0x1_0000_0000
    ensures var r := Suspended(locals, order, mem, p, k, s);
            SlotSays(locals, r, p, SlotYielded(k, s)) && OnlySlot(locals, mem, r, p)
  {
    SuspendedHeader(locals, order, mem, p, k, s);
    forall v | v in locals
      ensures Load(Suspended(locals, order, mem, p, k, s), p + SlotOffset(locals, v), Width(v.ty)) == ValueOf(s, v)
    {
      SuspendedHoldsValue(locals, order, mem, p, k, s, v);
    }
  }

  // ---- restoring ----

  lemma LoadLocalCorrect(isa: Isa, fuel: nat, index: nat, width: nat, offset: nat, m: Machine)
    requires |m.locals| > SLOT_LOCAL && index < |m.locals| && m.locals[SLOT_LOCAL] + offset + width <= |m.mem|
    ensures Exec(isa, fuel, [Plain(LocalGet(SLOT_LOCAL)), Plain(LoadMem(width, offset)), Plain(LocalSet(index))], m)
            == Normal(m.(locals := m.locals[index := Load(m.mem, m.locals[SLOT_LOCAL] + offset, width)]))
  {
    hide Exec, Load, ExecOne;
    Exec3(isa, fuel, LocalGet(SLOT_LOCAL), LoadMem(width, offset), LocalSet(index), m);
    var p := m.locals[SLOT_LOCAL];
    var v := Load(m.mem, p + offset, width);
    assert (m.stack + [p])[..|m.stack|] == m.stack;
    assert (m.stack + [v])[..|m.stack|] == m.stack;
  }

  function LoadedLocals(locals: Locals, order: seq<Value>, mem: seq<byte>, p: nat, at: seq<nat>): (r: seq<nat>)
    requires GoodLocals(Resumable, locals) && InBounds(locals, mem, p)
    requires |at| == Resumable.Base() + |locals|
    requires forall v :: v in order ==> v in locals
    ensures |r| == |at|
    ensures forall i :: 0 <= i < Resumable.Base() ==> r[i] == at[i]
  {
    if order == [] then at
    else
      LoadedLocals(locals, order[1..], mem, p,
                   at[locals[order[0]] := Load(mem, p + SlotOffset(locals, order[0]), Width(order[0].ty))])
  }

  lemma {:induction false} LoadedLocalsAt(locals: Locals, order: seq<Value>, mem: seq<byte>, p: nat, at: seq<nat>, v: Value)
    requires GoodLocals(Resumable, locals) && InBounds(locals, mem, p)
    requires |at| == Resumable.Base() + |locals|
    requires forall u :: u in order ==> u in locals
    requires v in locals
    requires v in order || at[locals[v]] == Load(mem, p + SlotOffset(locals, v), Width(v.ty))
    ensures LoadedLocals(locals, order, mem, p, at)[locals[v]] == Load(mem, p + SlotOffset(locals, v), Width(v.ty))
  {
    if order != [] {
      var u := order[0];
      var at' := at[locals[u] := Load(mem, p + SlotOffset(locals, u), Width(u.ty))];
      LoadedLocalsAt(locals, order[1..], mem, p, at', v);
    }
  }

  lemma {:induction false} RestoreValuesCorrect(isa: Isa, fuel: nat, locals: Locals, order: seq<Value>, m: Machine)
    requires GoodLocals(Resumable, locals) && |m.locals| == Resumable.Base() + |locals|
    requires InBounds(locals, m.mem, m.locals[SLOT_LOCAL])
    requires forall v :: v in order ==> v in locals
    ensures Exec(isa, fuel, RestoreValues(locals, order), m)
            == Normal(m.(locals := LoadedLocals(locals, order, m.mem, m.locals[SLOT_LOCAL], m.locals)))
    decreases |order|
  {
    hide Width;
    if order != [] {
      var v := order[0];
      var first := [Plain(LocalGet(SLOT_LOCAL)), Plain(LoadMem(Width(v.ty), SlotOffset(locals, v))), Plain(LocalSet(locals[v]))];
      ExecAppend(isa, fuel, first, RestoreValues(locals, order[1..]), m);
      LoadLocalCorrect(isa, fuel, locals[v], Width(v.ty), SlotOffset(locals, v), m);
      var m' := m.(locals := m.locals[locals[v] := Load(m.mem, m.locals[SLOT_LOCAL] + SlotOffset(locals, v), Width(v.ty))]);
      RestoreValuesCorrect(isa, fuel, locals, order[1..], m');
    }
  }

  function Restored(x: Lowered, m: Machine, k: nat): (r: Machine)
    requires x.Good() && x.b.Resumable? && Starts(x, m)
    ensures |r.locals| == |m.locals|
  {
    var at := m.locals[x.b.Pc() := k];
    m.(locals := LoadedLocals(x.locals, x.order, m.mem, m.locals[SLOT_LOCAL], at))
  }

  lemma RestoreRuns(x: Lowered, fuel: nat, m: Machine)
    requires x.Good() && x.b.Resumable? && Starts(x, m)
    ensures Exec(x.isa, fuel, Restore(x.b, x.locals, x.order), m)
            == Normal(Restored(x, m, Load(m.mem, m.locals[SLOT_LOCAL] + PC_AT, 4)))
  {
    hide Exec;
    var k := Load(m.mem, m.locals[SLOT_LOCAL] + PC_AT, 4);
    var first := [Plain(LocalGet(SLOT_LOCAL)), Plain(LoadMem(4, PC_AT)), Plain(LocalSet(x.b.Pc()))];
    ExecAppend(x.isa, fuel, first, RestoreValues(x.locals, x.order), m);
    LoadLocalCorrect(x.isa, fuel, x.b.Pc(), 4, PC_AT, m);
    RestoreValuesCorrect(x.isa, fuel, x.locals, x.order, m.(locals := m.locals[x.b.Pc() := k]));
  }

  lemma RestoredValue(x: Lowered, m: Machine, k: nat, s: State, v: Value)
    requires x.Good() && x.b.Resumable? && Starts(x, m)
    requires HoldsValues(x.locals, m.mem, m.locals[SLOT_LOCAL], s)
    requires v in x.locals
    ensures Restored(x, m, k).locals[x.locals[v]] == ValueOf(s, v)
  {
    hide ValueOf, LowerBlocks, Load, SlotOffset;
    LoadedLocalsAt(x.locals, x.order, m.mem, m.locals[SLOT_LOCAL], m.locals[x.b.Pc() := k], v);
  }

  lemma RestoredAgrees(x: Lowered, m: Machine, k: nat, s: State)
    requires x.Good() && x.b.Resumable? && Starts(x, m)
    requires HoldsValues(x.locals, m.mem, m.locals[SLOT_LOCAL], s)
    requires m.ctxs[m.locals[CONTEXT_LOCAL]] == s.ctx
    ensures Agrees(x.b, x.locals, Restored(x, m, k), s)
  {
    forall v | v in x.locals
      ensures Restored(x, m, k).locals[x.locals[v]] == ValueOf(s, v)
    {
      RestoredValue(x, m, k, s, v);
    }
  }

  /** Restoring a suspended slot puts back the block number and every value. */
  lemma RestoredCarries(x: Lowered, m: Machine, k: nat, s: State)
    requires x.Good() && x.b.Resumable? && Starts(x, m)
    requires HoldsValues(x.locals, m.mem, m.locals[SLOT_LOCAL], s) && k < |x.g|
    requires m.ctxs[m.locals[CONTEXT_LOCAL]] == s.ctx
    ensures Carries(x, m, Restored(x, m, k), k, s)
  {
    RestoredAgrees(x, m, k, s);
    assert m.ctxs == m.ctxs[m.locals[CONTEXT_LOCAL] := s.ctx];
  }
}
