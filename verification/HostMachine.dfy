/**
 What the recursive executor does, one guest operation at a time: a stack with one host frame for
 every guest call, tail calls included, the return address each frame expects, and the one-shot
 token that hands such an address to a callee. HostExecutor.dfy is the code that does this with
 arrays and host recursion, HostRefinement.dfy says when it is the flat machine.
 */
module HostMachine {
  import opened Options
  import opened GuestProgram

  /** kR360MaxGuestCallDepth. */
  const MAX_DEPTH := 64

  datatype Outcome = Returned | Blocked(kind: BlockKind) | InstructionLimit

  /** What a run is given. seed is the entry's link register, 0 when there is none. */
  datatype Setup = Setup(prog: Program, seed: nat, totalBudget: nat, frameBudget: nat)

  /**
   One host frame: where its function stands, the link of the call that made it, what the arrays
   say at its depth, and the instructions charged to it.
   */
  datatype HostFrame = HostFrame(
    func: nat, pos: nat, link: Option<nat>, expected: Option<nat>, terminal: bool, logical: nat, charged: nat)

  datatype Host =
    | Active(callers: seq<HostFrame>, top: HostFrame, token: Option<nat>, s: Guest, executed: nat)
    | Ended(r: Outcome, s: Guest, executed: nat)

  function Start(u: Setup, func: nat, initial: Guest, executed: nat): Host {
    Active([], HostFrame(func, 0, None, if u.seed != 0 then Some(u.seed) else None, false, 1, 0), None, initial, executed)
  }

  /** Charging n HIR instructions, one by one: the frame's budget is looked at first. */
  datatype Charge = Charge(ok: bool, executed: nat)

  function Charged(u: Setup, charged: nat, executed: nat, n: nat): Charge
    decreases n
  {
    if n == 0 then Charge(true, executed)
    else if charged >= u.frameBudget then Charge(false, executed)
    else if executed >= u.totalBudget then Charge(false, executed + 1)
    else Charged(u, charged + 1, executed + 1, n - 1)
  }

  /** Two instructions are charged one after the other. */
  lemma ChargedInTurn(u: Setup, charged: nat, executed: nat)
    ensures var one := Charged(u, charged, executed, 1);
            && one == (if charged >= u.frameBudget then Charge(false, executed)
                       else Charge(executed < u.totalBudget, executed + 1))
            && Charged(u, charged, executed, 2) == if one.ok then Charged(u, charged + 1, executed + 1, 1) else one
  {
    assert Charged(u, charged + 1, executed + 1, 0) == Charge(true, executed + 1);
  }

  /** A linking operation is two HIR instructions, SET_RETURN_ADDRESS and the branch itself. */
  function Weight(op: GuestOp): nat {
    if LinkOf(op).Some? then 2 else 1
  }

  function GoTo(h: Host, pos: nat): Host
    requires h.Active?
  {
    h.(top := h.top.(pos := pos))
  }

  function GoOnWith(h: Host): Host
    requires h.Active?
  {
    GoTo(h, h.top.pos + 1)
  }

  /** The test of a possible return: is this branch the current function's return? */
  predicate TakesReturn(h: Host, target: nat)
    requires h.Active?
  {
    match h.top.expected
    case None => h.callers == [] || h.top.terminal
    case Some(e) => Aligned(target) == Aligned(e)
  }

  /** Leaving a frame that a call with this link made: back behind a linked call, through every tail call. */
  function Leave(callers: seq<HostFrame>, link: Option<nat>, token: Option<nat>, s: Guest, executed: nat): Host {
    if callers == [] then Ended(Returned, s, executed)
    else
      var last := callers[|callers| - 1];
      if link.Some? then Active(callers[..|callers| - 1], last.(pos := last.pos + 1), token, s, executed)
      else Leave(callers[..|callers| - 1], last.link, token, s, executed)
  }

  /** The callee's frame: it expects what the token says, or, without one, what its caller expects. */
  function CalleeFrame(h: Host, target: nat, link: Option<nat>): HostFrame
    requires h.Active?
  {
    if |h.callers| + 1 >= MAX_DEPTH then HostFrame(target, 0, link, None, false, 0, 0)
    else
      var expected := if h.token.Some? then h.token else h.top.expected;
      HostFrame(target, 0, link, expected, expected.None? && link.None?, h.top.logical + (if link.None? then 0 else 1), 0)
  }

  function EnterFunction(u: Setup, h: Host, target: nat, link: Option<nat>): Host
    requires h.Active?
  {
    if target !in u.prog.code then Ended(Blocked(UnresolvedCall), h.s, h.executed)
    else Active(h.callers + [h.top], CalleeFrame(h, target, link), None, h.s, h.executed)
  }

  /** The operation of a frame, charged for and with its link in the token. */
  function Perform(u: Setup, op: GuestOp, h: Host): Host
    requires h.Active?
  {
    match op
    case Compute(id) => (
      match u.prog.compute(id, h.s)
      case None => Ended(Blocked(Unsupported), h.s, h.executed)
      case Some(s) => GoOnWith(Active(h.callers, h.top, h.token, s, h.executed)))
    case Call(when, to, link) =>
      if !Met(u.prog, when, h.s) then GoOnWith(h.(token := None))
      else EnterFunction(u, h, TargetOf(u.prog, to, h.s), link)
    case PossibleReturn(when, id, link) =>
      if !Met(u.prog, when, h.s) then GoOnWith(h.(token := None))
      else if TakesReturn(h, u.prog.pointer(id, h.s)) then Leave(h.callers, h.top.link, h.token, h.s, h.executed)
      else EnterFunction(u, h, Low32(u.prog.pointer(id, h.s)), link)
    case Branch(when, pos, _) =>
      if !Met(u.prog, when, h.s) then GoOnWith(h.(token := None))
      else if h.top.func !in u.prog.code || pos > |u.prog.code[h.top.func]| then Ended(Blocked(Unsupported), h.s, h.executed)
      else GoTo(h.(token := None), pos)
    case Return(when) =>
      if Met(u.prog, when, h.s) then Leave(h.callers, h.top.link, None, h.s, h.executed) else GoOnWith(h)
  }

  predicate AtOp(u: Setup, h: Host) {
    h.Active? && h.top.func in u.prog.code && h.top.pos < |u.prog.code[h.top.func]|
  }

  function OpOf(u: Setup, h: Host): GuestOp
    requires AtOp(u, h)
  {
    u.prog.code[h.top.func][h.top.pos]
  }

  /** Can the operation be paid for? */
  predicate Paid(u: Setup, h: Host)
    requires AtOp(u, h)
  {
    Charged(u, h.top.charged, h.executed, Weight(OpOf(u, h))).ok
  }

  /** The frame about to perform its operation: charged, the operation's link in the token. */
  function Ready(u: Setup, h: Host): Host
    requires AtOp(u, h)
  {
    var op := OpOf(u, h);
    Active(h.callers, h.top.(charged := h.top.charged + Weight(op)), if LinkOf(op).Some? then LinkOf(op) else h.token,
           h.s, Charged(u, h.top.charged, h.executed, Weight(op)).executed)
  }

  function HostStep(u: Setup, h: Host): Host {
    if h.Ended? then h
    else if h.top.func !in u.prog.code then Ended(Blocked(UnresolvedCall), h.s, h.executed)
    else if h.top.pos >= |u.prog.code[h.top.func]| then
      Ended(Blocked(if h.callers == [] then NoReturnBoundary else UnresolvedCall), h.s, h.executed)
    else if !Paid(u, h) then
      Ended(InstructionLimit, h.s, Charged(u, h.top.charged, h.executed, Weight(OpOf(u, h))).executed)
    else Perform(u, OpOf(u, h), Ready(u, h))
  }

  function HostSteps(u: Setup, n: nat, h: Host): Host {
    if n == 0 then h else HostSteps(u, n - 1, HostStep(u, h))
  }

  lemma {:induction false} HostStepsCompose(u: Setup, a: nat, b: nat, h: Host)
    ensures HostSteps(u, a + b, h) == HostSteps(u, b, HostSteps(u, a, h))
  {
    if a > 0 {
      HostStepsCompose(u, a - 1, b, HostStep(u, h));
    }
  }

  lemma OneHostStep(u: Setup, h: Host)
    ensures HostSteps(u, 1, h) == HostStep(u, h)
  {
    assert HostSteps(u, 1, h) == HostSteps(u, 0, HostStep(u, h));
  }

  lemma {:induction false} EndedHostStays(u: Setup, n: nat, h: Host)
    requires h.Ended?
    ensures HostSteps(u, n, h) == h
  {
    if n > 0 {
      EndedHostStays(u, n - 1, h);
    }
  }

  /** The run from h gets to end in so many steps and no fewer. */
  ghost predicate Reaches(u: Setup, h: Host, steps: nat, end: Host) {
    HostSteps(u, steps, h) == end && (steps > 0 ==> HostSteps(u, steps - 1, h).Active?)
  }

  lemma StepReaches(u: Setup, h: Host)
    requires h.Active?
    ensures Reaches(u, h, 1, HostStep(u, h))
  {
    OneHostStep(u, h);
    assert HostSteps(u, 0, h) == h;
  }

  lemma ReachesCompose(u: Setup, h: Host, a: nat, middle: Host, b: nat, end: Host)
    requires Reaches(u, h, a, middle) && Reaches(u, middle, b, end)
    ensures Reaches(u, h, a + b, end)
  {
    HostStepsCompose(u, a, b, h);
    if b > 0 {
      HostStepsCompose(u, a, b - 1, h);
    }
  }

  // ---- the life of a token ----

  /** No possible return sets a link. */
  ghost predicate NonLinking(p: Program) {
    forall f, i :: f in p.code && 0 <= i < |p.code[f]| && p.code[f][i].PossibleReturn? ==> p.code[f][i].link.None?
  }

  lemma {:induction false} LeaveKeepsToken(
    callers: seq<HostFrame>, link: Option<nat>, token: Option<nat>, s: Guest, executed: nat)
    ensures var h := Leave(callers, link, token, s, executed); h.Active? ==> h.token == token
  {
    if callers != [] && link.None? {
      LeaveKeepsToken(callers[..|callers| - 1], callers[|callers| - 1].link, token, s, executed);
    }
  }

  /** A token outlives its operation in one case only: the operation links and is taken as a return. */
  lemma TokenOutlivesOnly(u: Setup, h: Host)
    requires AtOp(u, h) && Paid(u, h) && h.token.None? && HostStep(u, h).Active?
    ensures HostStep(u, h).token.Some? <==>
            match OpOf(u, h)
            case PossibleReturn(when, id, link) =>
              link.Some? && Met(u.prog, when, h.s) && TakesReturn(h, u.prog.pointer(id, h.s))
            case _ => false
  {
    var g := Ready(u, h);
    LeaveKeepsToken(g.callers, g.top.link, g.token, g.s, g.executed);
    LeaveKeepsToken(g.callers, g.top.link, None, g.s, g.executed);
  }

  /**
   A token belongs to the operation that sets it: in every run of a program without linking possible
   returns, at every depth, each operation finds no token but its own link, so a callee expects the
   address its own call linked, or what its caller expects.
   */
  lemma {:induction false} TokenIsItsOwn(u: Setup, n: nat, h: Host)
    requires NonLinking(u.prog) && (h.Active? ==> h.token.None?)
    ensures var g := HostSteps(u, n, h);
            && (g.Active? ==> g.token.None?)
            && (AtOp(u, g) ==> Ready(u, g).token == LinkOf(OpOf(u, g)))
  {
    if n > 0 {
      if AtOp(u, h) && Paid(u, h) && HostStep(u, h).Active? {
        TokenOutlivesOnly(u, h);
      }
      TokenIsItsOwn(u, n - 1, HostStep(u, h));
    }
  }

  // ---- work and budgets ----

  lemma {:induction false} LeaveKeepsExecuted(
    callers: seq<HostFrame>, link: Option<nat>, token: Option<nat>, s: Guest, executed: nat)
    ensures Leave(callers, link, token, s, executed).executed == executed
  {
    if callers != [] && link.None? {
      LeaveKeepsExecuted(callers[..|callers| - 1], callers[|callers| - 1].link, token, s, executed);
    }
  }

  lemma {:induction false} ChargedCounts(u: Setup, charged: nat, executed: nat, n: nat)
    ensures var c := Charged(u, charged, executed, n);
            && executed <= c.executed <= executed + n
            && (c.ok ==> c.executed == executed + n && (n > 0 ==> c.executed <= u.totalBudget && charged + n <= u.frameBudget))
    decreases n
  {
    if n > 0 && charged < u.frameBudget && executed < u.totalBudget {
      ChargedCounts(u, charged + 1, executed + 1, n - 1);
    }
  }

  lemma StepCharges(u: Setup, h: Host)
    requires h.Active?
    ensures var g := HostStep(u, h);
            && h.executed <= g.executed <= h.executed + 2
            && (g.Active? ==> h.executed < g.executed <= u.totalBudget)
  {
    if AtOp(u, h) {
      ChargedCounts(u, h.top.charged, h.executed, Weight(OpOf(u, h)));
      var g := Ready(u, h);
      LeaveKeepsExecuted(g.callers, g.top.link, g.token, g.s, g.executed);
      LeaveKeepsExecuted(g.callers, g.top.link, None, g.s, g.executed);
    }
  }

  /** Every operation costs one instruction or two, so a run that is still going after n has spent n to 2 n of its budget. */
  lemma {:induction false} RunCharges(u: Setup, n: nat, h: Host)
    requires h.Active? && HostSteps(u, n, h).Active?
    ensures h.executed + n <= HostSteps(u, n, h).executed <= h.executed + 2 * n
    ensures n > 0 ==> HostSteps(u, n, h).executed <= u.totalBudget
  {
    if n > 0 {
      StepCharges(u, h);
      if HostStep(u, h).Ended? {
        EndedHostStays(u, n - 1, HostStep(u, h));
      }
      RunCharges(u, n - 1, HostStep(u, h));
    }
  }

  /** So every run ends. */
  lemma EveryRunEnds(u: Setup, h: Host)
    ensures HostSteps(u, u.totalBudget + 1, h).Ended?
  {
    if h.Ended? {
      EndedHostStays(u, u.totalBudget + 1, h);
    } else if HostSteps(u, u.totalBudget + 1, h).Active? {
      RunCharges(u, u.totalBudget + 1, h);
    }
  }
}
