/**
 The executor of a tail fragment, on a context that it overwrites in place: for whatever graph,
 entry and budget it does instruction by instruction what the walk of FragmentWalk.dfy does.
 */
module FragmentExecution {
  import opened Options
  import opened LittleEndian
  import opened Hir
  import opened ContextRecovery
  import opened FragmentWalk

  datatype Outcome = Returned | NoReturnBoundary | UnsupportedOpcode | InstructionLimit

  /** Where one instruction leads. */
  datatype Turn = Onward | Into(to: nat) | Out | Stuck

  /** The live context, overwritten in place, and the values computed so far. */
  class FragmentExecutor {
    const alu: Alu
    const defs: Defs
    const recovering: bool
    const ctx: array<byte>
    var values: Values

    constructor (alu: Alu, defs: Defs, recovering: bool, ctx: array<byte>)
      ensures this.alu == alu && this.defs == defs && this.recovering == recovering && this.ctx == ctx && values == map[]
    {
      this.alu, this.defs, this.recovering, this.ctx, values := alu, defs, recovering, ctx, map[];
    }

    ghost function Abs(): Live
      reads this, ctx
    {
      Live(ctx[..], values)
    }

    /** The recursion over definitions, as a walk down the chain. */
    method ResolveContextProvenance(v: Value) returns (r: Option<Bytes>)
      ensures r == Recover(defs, ctx[..], v, MAX_CHAIN)
    {
      var at, depth := v, 0;
      while depth < MAX_CHAIN
        invariant 0 <= depth <= MAX_CHAIN
        invariant Recover(defs, ctx[..], v, MAX_CHAIN) == Recover(defs, ctx[..], at, MAX_CHAIN - depth)
      {
        if at !in defs {
          return None;
        }
        match defs[at]
        case LoadedFrom(offset) =>
          if offset + Size(at.ty) > ctx.Length {
            return None;
          }
          return Some(ctx[offset..offset + Size(at.ty)]);
        case AssignedFrom(src) =>
          if !src.Ssa? || src.value.ty != at.ty {
            return None;
          }
          at, depth := src.value, depth + 1;
        case Computed =>
          return None;
      }
      return None;
    }

    /** resolve_binary_operand; the recovered value is used and not remembered. */
    method ResolveOperand(o: Operand) returns (r: Option<Bytes>)
      ensures r == ResolveOrRecover(defs, recovering, Abs(), o)
    {
      hide Recover;
      r := Resolve(values, o);
      if r.None? && recovering && o.Ssa? {
        r := ResolveContextProvenance(o.value);
      }
    }

    /** memcpy into the context. */
    method Copy(offset: nat, b: Bytes)
      requires offset + |b| <= ctx.Length
      modifies ctx
      ensures ctx[..] == Overwrite(old(ctx[..]), offset, b)
    {
      forall i | 0 <= i < |b| {
        ctx[offset + i] := b[i];
      }
    }

    /** STORE_CONTEXT: what had to be recovered is remembered, and the context is overwritten. */
    method Store(offset: nat, src: Operand) returns (supported: bool)
      modifies this, ctx
      ensures var next := Step(alu, defs, recovering, old(Abs()), StoreContext(offset, src));
              supported == next.Some? && (supported ==> Abs() == next.value)
    {
      hide ResolveOrRecover, Overwrite, Size;
      if src.Missing? || offset + OperandSize(src) > ctx.Length {
        return false;
      }
      var r := ResolveOperand(src);
      if r.None? {
        return false;
      }
      if src.Ssa? && src.value !in values {
        values := values[src.value := r.value];
      }
      Copy(offset, Fit(r.value, OperandSize(src)));
      return true;
    }

    method Execute(op: Op) returns (supported: bool)
      modifies this, ctx
      ensures var next := Step(alu, defs, recovering, old(Abs()), op);
              supported == next.Some? && (supported ==> Abs() == next.value)
    {
      hide ResolveOrRecover, Overwrite, Size;
      var r: Option<Bytes> := None;
      match op {
      case LoadContext(dest, offset) =>
        if offset + Size(dest.ty) <= ctx.Length {
          r := Some(ctx[offset..offset + Size(dest.ty)]);
          assert r.value == ctx[..][offset..offset + Size(dest.ty)];
        }
      case Assign(dest, src) =>
        r := Resolve(values, src);
      case Compute(dest, o, srcs) =>
        var args := ResolveAll(values, srcs);
        if args.Some? {
          r := alu(o, dest.ty, args.value);
        }
      case Binary(dest, o, lhs, rhs) =>
        var a := ResolveOperand(lhs);
        var b := ResolveOperand(rhs);
        if a.Some? && b.Some? {
          r := alu(o, dest.ty, [a.value, b.value]);
        }
      case StoreContext(offset, src) =>
        supported := Store(offset, src);
        return;
      case Test(cond) =>
        supported := Condition(values, cond).Some?;
        return;
      }
      if r.None? {
        return false;
      }
      values := values[op.dest := Fit(r.value, Size(op.dest.ty))];
      return true;
    }

    /** One instruction of the fragment, found where place stands. */
    method ExecuteCode(g: Fragment, c: Code, ghost place: Place) returns (turn: Turn)
      requires Arrived(g, place) && CodeAt(g, place) == c && place.st == Abs()
      modifies this, ctx
      ensures WalkStep(alu, defs, recovering, g, place) ==
              var (b, p) := Settle(g, place.block, place.pos);
              match turn
              case Onward => At(b, p + 1, Abs())
              case Into(to) => At(to, 0, Abs())
              case Out => Left(Abs())
              case Stuck => Blocked
      ensures turn.Into? ==> turn.to < |g|
    {
      hide Step, Settle;
      match c {
        case Do(op) =>
          var supported := Execute(op);
          turn := if supported then Onward else Stuck;
        case Jump(to) =>
          turn := if to < |g| then Into(to) else Stuck;
        case JumpIf(sense, cond, to) =>
          var holds := Condition(values, cond);
          var supported := Execute(Test(cond));
          turn :=
            if !supported then Stuck
            else if holds != Some(sense) then Onward
            else if to < |g| then Into(to)
            else Stuck;
        case Leave =>
          turn := Out;
        case LeaveIf(cond) =>
          var holds := Condition(values, cond);
          var supported := Execute(Test(cond));
          turn := if !supported then Stuck else if holds == Some(true) then Out else Onward;
      }
    }

    /** After n instructions the walk is about to run the i-th instruction of the block, or what follows it. */
    ghost predicate Stands(g: Fragment, start: Place, n: nat, block: nat, i: nat)
      reads this, ctx
    {
      var w := WalkSteps(alu, defs, recovering, g, n, start);
      w.At? && w.st == Abs() && Settle(g, w.block, w.pos) == Settle(g, block, i)
    }

    /**
     ExecuteBuilder on a fragment entered at an instruction: block after block until it returns, runs
     off its last block, meets what it does not support, or has spent its budget. n counts what it
     has run, the step off its end included.
     */
    method ExecuteFragment(g: Fragment, entry: nat, pos: nat, budget: nat) returns (r: Outcome, ghost n: nat)
      modifies this, ctx
      ensures n <= budget + 1 && (r.InstructionLimit? ==> n == budget)
      ensures var place := WalkSteps(alu, defs, recovering, g, n, old(At(entry, pos, Abs())));
              match r
              case Returned => place == Left(Abs())
              case NoReturnBoundary => place == RanOff(Abs())
              case UnsupportedOpcode => place == Blocked
              case InstructionLimit => Arrived(g, place) && place.st == Abs()
    {
      hide WalkSteps, Step;
      ghost var start := At(entry, pos, Abs());
      var block: nat, first: nat, executed := entry, pos, 0;
      n := 0;
      WalkNone(alu, defs, recovering, g, start);
      while block < |g|
        invariant n == executed <= budget && Stands(g, start, n, block, first)
        decreases budget - executed, |g| - block
      {
        var i: nat, next: nat := first, block + 1;
        ghost var before := executed;
        while i < |g[block]|
          invariant n == executed <= budget && Stands(g, start, n, block, i)
          invariant next == block + 1 && before <= executed
          decreases |g[block]| - i
        {
          if executed == budget {
            return InstructionLimit, n;
          }
          executed := executed + 1;
          ghost var place := WalkSteps(alu, defs, recovering, g, n, start);
          var turn := ExecuteCode(g, g[block][i], place);
          WalkOneMore(alu, defs, recovering, g, n, start);
          n := n + 1;
          match turn {
            case Onward =>
              i := i + 1;
            case Into(to) =>
              next := to;
              break;
            case Out =>
              return Returned, n;
            case Stuck =>
              return UnsupportedOpcode, n;
          }
        }
        block, first := next, 0;
      }
      WalkOneMore(alu, defs, recovering, g, n, start);
      return NoReturnBoundary, n + 1;
    }
  }
}
