/**
 The part of WebAssembly the backends emit: nested block/loop/if with relative branch depths
 over a stack machine with locals (section 4.4.5, Control Instructions, of the WebAssembly Core
 Specification 1.0), and the flat token stream in which that nesting is written.
 */
module Wasm {
  import opened Options
  import opened LittleEndian
  import opened Hir

  datatype Op =
    | LocalGet(index: nat)
    | LocalSet(index: nat)
    | Const(value: nat)
    | Eqz
    | Eq32
    | Sub32
    | Compute(op: nat, arity: nat, width: nat)  // an opaque producer: pops its operands, pushes its result
    | Effect(op: nat, arity: nat)               // an opaque store through the context pointer
    | LoadMem(width: nat, offset: nat)
    | StoreMem(width: nat, offset: nat)
    | LoadR3
    | Br(depth: nat)
    | ReturnOp
    | Unreachable

  datatype Code =
    | Plain(op: Op)
    | Block(body: seq<Code>)
    | Loop(body: seq<Code>)
    | If(thn: seq<Code>, els: seq<Code>)

  datatype Token = T(op: Op) | OpenBlock | OpenLoop | OpenIf | ElseMark | End

  // ---- the flat form ----

  function Flatten(code: seq<Code>): seq<Token>
    decreases code, 0
  {
    if code == [] then [] else FlattenOne(code[0]) + Flatten(code[1..])
  }

  function FlattenOne(c: Code): seq<Token>
    decreases c, 1
  {
    match c
    case Plain(op) => [T(op)]
    case Block(body) => [OpenBlock] + Flatten(body) + [End]
    case Loop(body) => [OpenLoop] + Flatten(body) + [End]
    case If(thn, els) =>
      [OpenIf] + Flatten(thn) + (if els == [] then [] else [ElseMark] + Flatten(els)) + [End]
  }

  /** Reads instructions up to the first unmatched end, else or the end of the stream. */
  function Parse(ts: seq<Token>): (r: Option<(seq<Code>, seq<Token>)>)
    ensures r.Some? ==> |r.value.1| <= |ts|
    ensures r.Some? && ts != [] && !ts[0].End? && !ts[0].ElseMark? ==> |r.value.1| < |ts|
    decreases |ts|, 1
  {
    if ts == [] || ts[0].End? || ts[0].ElseMark? then Some(([], ts))
    else
      match ParseOne(ts)
      case None => None
      case Some((c, rest)) => (
        match Parse(rest)
        case None => None
        case Some((cs, rest')) => Some(([c] + cs, rest')))
  }

  function ParseOne(ts: seq<Token>): (r: Option<(Code, seq<Token>)>)
    requires ts != []
    ensures r.Some? ==> |r.value.1| < |ts|
    decreases |ts|, 0
  {
    match ts[0]
    case T(op) => Some((Plain(op), ts[1..]))
    case OpenBlock => (
      match Parse(ts[1..])
      case None => None
      case Some((body, rest)) =>
        if rest != [] && rest[0].End? then Some((Block(body), rest[1..])) else None)
    case OpenLoop => (
      match Parse(ts[1..])
      case None => None
      case Some((body, rest)) =>
        if rest != [] && rest[0].End? then Some((Loop(body), rest[1..])) else None)
    case OpenIf => (
      match Parse(ts[1..])
      case None => None
      case Some((thn, rest)) =>
        if rest != [] && rest[0].End? then Some((If(thn, []), rest[1..]))
        else if rest != [] && rest[0].ElseMark? then (
          match Parse(rest[1..])
          case None => None
          case Some((els, rest')) =>
            if rest' != [] && rest'[0].End? then Some((If(thn, els), rest'[1..])) else None)
        else None)
    case _ => None
  }

  ghost predicate Stops(rest: seq<Token>) {
    rest == [] || rest[0].End? || rest[0].ElseMark?
  }

  lemma {:induction false} ParseFlatten(code: seq<Code>, rest: seq<Token>)
    requires Stops(rest)
    ensures Parse(Flatten(code) + rest) == Some((code, rest))
    decreases code, 0
  {
    if code == [] {
      assert Flatten(code) + rest == rest;
    } else {
      var tail := Flatten(code[1..]) + rest;
      assert Flatten(code) + rest == FlattenOne(code[0]) + tail;
      ParseFlattenOne(code[0], tail);
      ParseFlatten(code[1..], rest);
      assert [code[0]] + code[1..] == code;
    }
  }

  lemma {:induction false} ParseFlattenOne(c: Code, rest: seq<Token>)
    ensures var ts := FlattenOne(c) + rest;
            && !Stops(ts)
            && ParseOne(ts) == Some((c, rest))
    decreases c, 1
  {
    hide Flatten, Parse;
    var ts := FlattenOne(c) + rest;
    match c
    case Plain(op) =>
      assert ts[1..] == rest;
    case Block(body) =>
      assert ts[1..] == Flatten(body) + ([End] + rest);
      ParseFlatten(body, [End] + rest);
      assert ([End] + rest)[1..] == rest;
    case Loop(body) =>
      assert ts[1..] == Flatten(body) + ([End] + rest);
      ParseFlatten(body, [End] + rest);
      assert ([End] + rest)[1..] == rest;
    case If(thn, els) =>
      if els == [] {
        assert ts[1..] == Flatten(thn) + ([End] + rest);
        ParseFlatten(thn, [End] + rest);
        assert ([End] + rest)[1..] == rest;
      } else {
        var after := [End] + rest;
        var middle := [ElseMark] + Flatten(els) + after;
        assert ts[1..] == Flatten(thn) + middle;
        ParseFlatten(thn, middle);
        assert middle[1..] == Flatten(els) + after;
        ParseFlatten(els, after);
        assert after[1..] == rest;
      }
  }

  /** The nesting a builder wrote is the nesting an engine reads: open and end tokens pair up as meant. */
  lemma WrittenNestingIsRead(code: seq<Code>)
    ensures Parse(Flatten(code)) == Some((code, []))
  {
    ParseFlatten(code, []);
    assert Flatten(code) + [] == Flatten(code);
  }

  lemma {:induction false} FlattenAppend(a: seq<Code>, b: seq<Code>)
    ensures Flatten(a + b) == Flatten(a) + Flatten(b)
  {
    if a == [] {
      assert a + b == b;
    } else {
      assert (a + b)[1..] == a[1..] + b;
      FlattenAppend(a[1..], b);
    }
  }

  // ---- execution ----

  datatype Machine = Machine(
    locals: seq<nat>,
    stack: seq<nat>,
    ctxs: map<nat, Context>,   // guest contexts by address
    mem: seq<byte>)            // the memory that holds continuation slots

  datatype Outcome =
    | Normal(m: Machine)
    | Jumped(depth: nat, m: Machine)
    | Returned(m: Machine)
    | Trap
    | OutOfFuel

  function Push(m: Machine, v: nat): Machine {
    m.(stack := m.stack + [v])
  }

  /** i32.sub: the difference modulo 2^32. */
  function Minus32(a: nat, b: nat): nat {
    (a - b) % 0x1_0000_0000
  }

  /** i32.sub borrows from 2^32. */
  lemma Minus32Is(a: nat, b: nat)
    requires a < 0x1_0000_0000 && b < 0x1_0000_0000
    ensures Minus32(a, b) == if b <= a then a - b else 0x1_0000_0000 - (b - a)
  {
  }

  lemma MinusOne(n: nat)
    requires 0 < n < 0x1_0000_0000
    ensures Minus32(n, 1) == n - 1
  {
  }

  /** One plain instruction. Operand underflow and bad indices, which validation excludes, are Trap. */
  function ExecOp(isa: Isa, op: Op, m: Machine): Outcome {
    var n := |m.stack|;
    match op
    case LocalGet(i) => if i < |m.locals| then Normal(Push(m, m.locals[i])) else Trap
    case LocalSet(i) =>
      if n >= 1 && i < |m.locals|
      then Normal(m.(locals := m.locals[i := m.stack[n - 1]], stack := m.stack[..n - 1]))
      else Trap
    case Const(v) => Normal(Push(m, v))
    case Eqz =>
      if n >= 1 then Normal(m.(stack := m.stack[..n - 1] + [if m.stack[n - 1] == 0 then 1 else 0]))
      else Trap
    case Eq32 =>
      if n >= 2
      then Normal(m.(stack := m.stack[..n - 2] + [if m.stack[n - 2] == m.stack[n - 1] then 1 else 0]))
      else Trap
    case Sub32 =>
      if n >= 2
      then Normal(m.(stack := m.stack[..n - 2] + [Minus32(m.stack[n - 2], m.stack[n - 1])]))
      else Trap
    case Compute(o, arity, width) =>
      if n < arity || |m.locals| == 0 || m.locals[0] !in m.ctxs then Trap
      else (
        match isa.produce(o, m.ctxs[m.locals[0]], m.stack[n - arity..])
        case None => Trap
        case Some(v) => Normal(m.(stack := m.stack[..n - arity] + [LowBytes(v, width)])))
    case Effect(o, arity) =>
      if n < arity || |m.locals| == 0 || m.locals[0] !in m.ctxs then Trap
      else (
        match isa.store(o, m.ctxs[m.locals[0]], m.stack[n - arity..])
        case None => Trap
        case Some(ctx) => Normal(m.(stack := m.stack[..n - arity], ctxs := m.ctxs[m.locals[0] := ctx])))
    case LoadMem(width, offset) =>
      if n >= 1 && m.stack[n - 1] + offset + width <= |m.mem|
      then Normal(m.(stack := m.stack[..n - 1] + [Load(m.mem, m.stack[n - 1] + offset, width)]))
      else Trap
    case StoreMem(width, offset) =>
      if n >= 2 && m.stack[n - 2] + offset + width <= |m.mem|
      then Normal(m.(stack := m.stack[..n - 2],
                     mem := LittleEndian.Store(m.mem, m.stack[n - 2] + offset, width, m.stack[n - 1])))
      else Trap
    case LoadR3 =>
      if n >= 1 && m.stack[n - 1] in m.ctxs
      then Normal(m.(stack := m.stack[..n - 1] + [isa.r3(m.ctxs[m.stack[n - 1]])]))
      else Trap
    case Br(depth) => Jumped(depth, m)
    case ReturnOp => Returned(m)
    case Unreachable => Trap
  }

  /** Leaving a block or an if, whose result type is empty: its label is depth 0. */
  function Leave(o: Outcome, stack: seq<nat>): Outcome {
    match o
    case Jumped(d, m) => if d == 0 then Normal(m.(stack := stack)) else Jumped(d - 1, m)
    case _ => o
  }

  /** Runs code; fuel bounds how often loops may be re-entered, nothing else. */
  function Exec(isa: Isa, fuel: nat, code: seq<Code>, m: Machine): Outcome
    decreases fuel, code, 0
  {
    if code == [] then Normal(m)
    else
      match ExecOne(isa, fuel, code[0], m)
      case Normal(m') => Exec(isa, fuel, code[1..], m')
      case other => other
  }

  function ExecOne(isa: Isa, fuel: nat, c: Code, m: Machine): Outcome
    decreases fuel, c, 1
  {
    match c
    case Plain(op) => ExecOp(isa, op, m)
    case Block(body) => Leave(Exec(isa, fuel, body, m), m.stack)
    case If(thn, els) =>
      if m.stack == [] then Trap
      else
        var m' := m.(stack := m.stack[..|m.stack| - 1]);
        Leave(Exec(isa, fuel, if m.stack[|m.stack| - 1] != 0 then thn else els, m'), m'.stack)
    case Loop(body) =>
      match Exec(isa, fuel, body, m)
      case Jumped(d, m') =>
        if d > 0 then Jumped(d - 1, m')
        else if fuel == 0 then OutOfFuel
        else ExecOne(isa, fuel - 1, c, m'.(stack := m.stack))
      case other => other
  }

  /** What follows an outcome: later code runs only after a normal one. */
  function Then(isa: Isa, fuel: nat, first: Outcome, rest: seq<Code>): Outcome {
    match first
    case Normal(m) => Exec(isa, fuel, rest, m)
    case other => other
  }

  /** A function call: the body's last value, or a returned one, is the result. */
  function Call(isa: Isa, fuel: nat, body: seq<Code>, m: Machine): Outcome {
    match Exec(isa, fuel, body, m)
    case Normal(m') => Returned(m')
    case other => other
  }

  lemma {:induction false} ExecAppend(isa: Isa, fuel: nat, a: seq<Code>, b: seq<Code>, m: Machine)
    ensures Exec(isa, fuel, a + b, m) == Then(isa, fuel, Exec(isa, fuel, a, m), b)
    decreases |a|
  {
    if a == [] {
      assert a + b == b;
    } else {
      assert (a + b)[1..] == a[1..] + b;
      match ExecOne(isa, fuel, a[0], m)
      case Normal(m') => ExecAppend(isa, fuel, a[1..], b, m');
      case _ =>
    }
  }

  lemma ExecNone(isa: Isa, fuel: nat, m: Machine)
    ensures Exec(isa, fuel, [], m) == Normal(m)
  {
  }

  lemma ExecCons(isa: Isa, fuel: nat, c: Code, rest: seq<Code>, m: Machine)
    ensures Exec(isa, fuel, [c] + rest, m) == Then(isa, fuel, ExecOne(isa, fuel, c, m), rest)
  {
    assert ([c] + rest)[1..] == rest;
  }

  function ThenOp(isa: Isa, first: Outcome, op: Op): Outcome {
    match first
    case Normal(m) => ExecOp(isa, op, m)
    case other => other
  }

  lemma Exec1(isa: Isa, fuel: nat, a: Op, m: Machine)
    ensures Exec(isa, fuel, [Plain(a)], m) == ExecOp(isa, a, m)
  {
    ExecCons(isa, fuel, Plain(a), [], m);
    assert [Plain(a)] + [] == [Plain(a)];
  }

  lemma Exec2(isa: Isa, fuel: nat, a: Op, b: Op, m: Machine)
    ensures Exec(isa, fuel, [Plain(a), Plain(b)], m) == ThenOp(isa, ExecOp(isa, a, m), b)
  {
    ExecAppend(isa, fuel, [Plain(a)], [Plain(b)], m);
    assert [Plain(a)] + [Plain(b)] == [Plain(a), Plain(b)];
    Exec1(isa, fuel, a, m);
    match ExecOp(isa, a, m)
    case Normal(m') => Exec1(isa, fuel, b, m');
    case _ =>
  }

  lemma Exec3(isa: Isa, fuel: nat, a: Op, b: Op, c: Op, m: Machine)
    ensures Exec(isa, fuel, [Plain(a), Plain(b), Plain(c)], m)
            == ThenOp(isa, ThenOp(isa, ExecOp(isa, a, m), b), c)
  {
    ExecAppend(isa, fuel, [Plain(a), Plain(b)], [Plain(c)], m);
    assert [Plain(a), Plain(b)] + [Plain(c)] == [Plain(a), Plain(b), Plain(c)];
    Exec2(isa, fuel, a, b, m);
    match Exec(isa, fuel, [Plain(a), Plain(b)], m)
    case Normal(m') => Exec1(isa, fuel, c, m');
    case _ =>
  }

  lemma Exec4(isa: Isa, fuel: nat, a: Op, b: Op, c: Op, d: Op, m: Machine)
    ensures Exec(isa, fuel, [Plain(a), Plain(b), Plain(c), Plain(d)], m)
            == ThenOp(isa, ThenOp(isa, ThenOp(isa, ExecOp(isa, a, m), b), c), d)
  {
    ExecAppend(isa, fuel, [Plain(a), Plain(b), Plain(c)], [Plain(d)], m);
    assert [Plain(a), Plain(b), Plain(c)] + [Plain(d)] == [Plain(a), Plain(b), Plain(c), Plain(d)];
    Exec3(isa, fuel, a, b, c, m);
    match Exec(isa, fuel, [Plain(a), Plain(b), Plain(c)], m)
    case Normal(m') => Exec1(isa, fuel, d, m');
    case _ =>
  }

  lemma ExecIf(isa: Isa, fuel: nat, thn: seq<Code>, els: seq<Code>, m: Machine, below: seq<nat>, top: nat)
    requires m.stack == below + [top]
    ensures Exec(isa, fuel, [If(thn, els)], m)
            == Leave(Exec(isa, fuel, if top != 0 then thn else els, m.(stack := below)), below)
  {
    ExecCons(isa, fuel, If(thn, els), [], m);
    assert [If(thn, els)] + [] == [If(thn, els)];
    assert m.stack[..|m.stack| - 1] == below;
  }

  /** Fuel is not part of the meaning: whatever runs at all runs the same with more of it. */
  lemma {:induction false} MoreFuel(isa: Isa, fuel: nat, more: nat, code: seq<Code>, m: Machine)
    requires fuel <= more && !Exec(isa, fuel, code, m).OutOfFuel?
    ensures Exec(isa, more, code, m) == Exec(isa, fuel, code, m)
    decreases fuel, code, 0
  {
    if code != [] {
      MoreFuelOne(isa, fuel, more, code[0], m);
      match ExecOne(isa, fuel, code[0], m)
      case Normal(m') => MoreFuel(isa, fuel, more, code[1..], m');
      case _ =>
    }
  }

  lemma {:induction false} MoreFuelOne(isa: Isa, fuel: nat, more: nat, c: Code, m: Machine)
    requires fuel <= more && !ExecOne(isa, fuel, c, m).OutOfFuel?
    ensures ExecOne(isa, more, c, m) == ExecOne(isa, fuel, c, m)
    decreases fuel, c, 1
  {
    match c
    case Plain(_) =>
    case Block(body) => MoreFuel(isa, fuel, more, body, m);
    case If(thn, els) =>
      if m.stack != [] {
        MoreFuel(isa, fuel, more, if m.stack[|m.stack| - 1] != 0 then thn else els,
                 m.(stack := m.stack[..|m.stack| - 1]));
      }
    case Loop(body) =>
      MoreFuel(isa, fuel, more, body, m);
      match Exec(isa, fuel, body, m)
      case Jumped(d, m') =>
        if d == 0 && fuel > 0 {
          MoreFuelOne(isa, fuel - 1, more - 1, c, m'.(stack := m.stack));
        }
      case _ =>
  }
}
