/**
 When the recursive executor is the flat machine: as long as its stack stays within the 64 frames
 its arrays have room for and no operation finds a token another one left. In a program whose
 possible returns never link, no operation does. Both conditions are needed.
 */
module HostRefinement {
  import opened Options
  import opened GuestProgram
  import opened HostMachine

  /** The suspended linked callers among the host frames under one that a call with this link made. */
  function StackOf(callers: seq<HostFrame>, link: Option<nat>): seq<Frame> {
    if callers == [] then []
    else
      var last := callers[|callers| - 1];
      var below := StackOf(callers[..|callers| - 1], last.link);
      if link.Some? then below + [Frame(link.value, last.func, last.pos + 1)] else below
  }

  /** The flat machine h stands for. */
  function FlatOf(h: Host): Flat
    requires h.Active?
  {
    Running(h.top.func, h.top.pos, h.s, StackOf(h.callers, h.top.link))
  }

  /** Where a function returns to: behind the nearest linked call, or to the entry's link register. */
  function ReturnOf(seed: nat, stack: seq<Frame>): Option<nat> {
    if stack != [] then Some(stack[|stack| - 1].ret) else if seed != 0 then Some(seed) else None
  }

  /** The frame expects its own return address, and its logical depth counts the linked calls. */
  predicate Describes(seed: nat, callers: seq<HostFrame>, f: HostFrame) {
    var stack := StackOf(callers, f.link);
    && f.expected == ReturnOf(seed, stack)
    && (f.expected.None? ==> callers == [] || f.terminal)
    && f.logical == |stack| + 1
  }

  predicate AllDescribe(seed: nat, callers: seq<HostFrame>, f: HostFrame) {
    && Describes(seed, callers, f)
    && (callers != [] ==> AllDescribe(seed, callers[..|callers| - 1], callers[|callers| - 1]))
  }

  /** A frame that expects its own return address takes a branch for its return exactly when the flat machine pops. */
  lemma ReturnTestIsExact(seed: nat, h: Host)
    requires h.Active? && Describes(seed, h.callers, h.top)
    ensures forall target :: TakesReturn(h, target) <==> IsReturn(seed, StackOf(h.callers, h.top.link), target)
  {
  }

  /** What the executor reports for a flat machine's end: a callee that runs off its end is an unresolved call. */
  predicate Reports(kind: BlockKind, flat: BlockKind) {
    kind == flat || (kind.UnresolvedCall? && flat.NoReturnBoundary?)
  }

  /** The flat machine m is where the executor's h says it is. */
  predicate Follows(m: Flat, h: Host) {
    match h
    case Active(_, _, _, _, _) => m == FlatOf(h)
    case Ended(Returned, s, _) => m == Halted(s)
    case Ended(Blocked(kind), _, _) => m.Stuck? && Reports(kind, m.kind)
    case Ended(InstructionLimit, _, _) => true
  }

  lemma {:induction false} LeaveFollows(
      seed: nat, callers: seq<HostFrame>, link: Option<nat>, token: Option<nat>, s: Guest, executed: nat)
    requires callers != [] ==> AllDescribe(seed, callers[..|callers| - 1], callers[|callers| - 1])
    ensures var h := Leave(callers, link, token, s, executed);
            && Follows(Pop(StackOf(callers, link), s), h) && !(h.Ended? && h.r.InstructionLimit?)
            && (h.Active? ==> AllDescribe(seed, h.callers, h.top))
  {
    if callers != [] {
      var below, last := callers[..|callers| - 1], callers[|callers| - 1];
      if link.Some? {
        assert (StackOf(below, last.link) + [Frame(link.value, last.func, last.pos + 1)])[..|StackOf(below, last.link)|]
               == StackOf(below, last.link);
        assert Describes(seed, below, last.(pos := last.pos + 1)) by { assert Describes(seed, below, last); }
      } else {
        LeaveFollows(seed, below, last.link, token, s, executed);
      }
    }
  }

  lemma DescribedTop(seed: nat, g: Host)
    requires g.Active? && AllDescribe(seed, g.callers, g.top)
    ensures Describes(seed, g.callers, g.top)
  {
  }

  lemma DescribedCallers(seed: nat, g: Host)
    requires g.Active? && AllDescribe(seed, g.callers, g.top)
    ensures g.callers != [] ==> AllDescribe(seed, g.callers[..|g.callers| - 1], g.callers[|g.callers| - 1])
  {
  }

  lemma StackUnder(callers: seq<HostFrame>, top: HostFrame, link: Option<nat>)
    ensures StackOf(callers + [top], link) ==
            var below := StackOf(callers, top.link);
            if link.Some? then below + [Frame(link.value, top.func, top.pos + 1)] else below
  {
    assert (callers + [top])[..|callers|] == callers;
  }

  lemma AllDescribeUnder(seed: nat, callers: seq<HostFrame>, top: HostFrame, f: HostFrame)
    requires AllDescribe(seed, callers, top) && Describes(seed, callers + [top], f)
    ensures AllDescribe(seed, callers + [top], f)
  {
    hide Describes;
    assert (callers + [top])[..|callers|] == callers;
  }

  lemma CalleeIsDescribed(seed: nat, g: Host, target: nat, link: Option<nat>)
    requires g.Active? && g.token == link && Describes(seed, g.callers, g.top) && |g.callers| + 1 < MAX_DEPTH
    ensures Describes(seed, g.callers + [g.top], CalleeFrame(g, target, link))
  {
    StackUnder(g.callers, g.top, link);
    hide StackOf;
  }

  lemma EnterFollows(u: Setup, g: Host, target: nat, link: Option<nat>)
    requires g.Active? && g.token == link && AllDescribe(u.seed, g.callers, g.top)
    ensures var h := EnterFunction(u, g, target, link);
            && Follows(Enter(u.prog, FlatOf(g), target, link), h)
            && (h.Active? && |h.callers| < MAX_DEPTH ==> AllDescribe(u.seed, h.callers, h.top))
  {
    StackUnder(g.callers, g.top, link);
    if |g.callers| + 1 < MAX_DEPTH {
      DescribedTop(u.seed, g);
      CalleeIsDescribed(u.seed, g, target, link);
      AllDescribeUnder(u.seed, g.callers, g.top, CalleeFrame(g, target, link));
    }
    hide StackOf, AllDescribe, Describes, CalleeFrame;
    assert |g.callers + [g.top]| == |g.callers| + 1;
  }

  /** Where a frame stands, and what was charged to it, says nothing about its callers. */
  lemma MovedDescribes(seed: nat, callers: seq<HostFrame>, f: HostFrame, pos: nat, charged: nat)
    requires AllDescribe(seed, callers, f)
    ensures AllDescribe(seed, callers, f.(pos := pos, charged := charged))
  {
    assert Describes(seed, callers, f);
  }

  /** What the flat machine does is what Perform does, for g with the operation's own link in its token. */
  ghost predicate PerformFollows(u: Setup, g: Host)
    requires AtOp(u, g)
  {
    var after := Perform(u, OpOf(u, g), g);
    && Follows(Step(u.prog, u.seed, FlatOf(g)), after)
    && (after.Active? && |after.callers| < MAX_DEPTH ==> AllDescribe(u.seed, after.callers, after.top))
  }

  lemma CallFollows(u: Setup, g: Host)
    requires AtOp(u, g) && g.token == LinkOf(OpOf(u, g)) && AllDescribe(u.seed, g.callers, g.top)
    requires OpOf(u, g).Call?
    ensures PerformFollows(u, g)
  {
    hide AllDescribe, StackOf;
    var op := OpOf(u, g);
    EnterFollows(u, g, TargetOf(u.prog, op.to, g.s), op.link);
    MovedDescribes(u.seed, g.callers, g.top, g.top.pos + 1, g.top.charged);
  }

  lemma PossibleReturnFollows(u: Setup, g: Host)
    requires AtOp(u, g) && g.token == LinkOf(OpOf(u, g)) && AllDescribe(u.seed, g.callers, g.top)
    requires OpOf(u, g).PossibleReturn?
    ensures PerformFollows(u, g)
  {
    hide AllDescribe, StackOf, IsReturn, TakesReturn, Enter, EnterFunction, Leave, Pop;
    var op := OpOf(u, g);
    var target := u.prog.pointer(op.id, g.s);
    assert TakesReturn(g, target) <==> IsReturn(u.seed, StackOf(g.callers, g.top.link), target) by {
      DescribedTop(u.seed, g);
      ReturnTestIsExact(u.seed, g);
    }
    if !Met(u.prog, op.when, g.s) {
      MovedDescribes(u.seed, g.callers, g.top, g.top.pos + 1, g.top.charged);
    } else if TakesReturn(g, target) {
      DescribedCallers(u.seed, g);
      LeaveFollows(u.seed, g.callers, g.top.link, g.token, g.s, g.executed);
    } else {
      EnterFollows(u, g, Low32(target), op.link);
    }
  }

  lemma LocalFollows(u: Setup, g: Host)
    requires AtOp(u, g) && g.token == LinkOf(OpOf(u, g)) && AllDescribe(u.seed, g.callers, g.top)
    requires !OpOf(u, g).Call? && !OpOf(u, g).PossibleReturn?
    ensures PerformFollows(u, g)
  {
    hide AllDescribe, StackOf, Describes, Leave, Pop;
    var op := OpOf(u, g);
    MovedDescribes(u.seed, g.callers, g.top, g.top.pos + 1, g.top.charged);
    if op.Branch? {
      MovedDescribes(u.seed, g.callers, g.top, op.pos, g.top.charged);
    } else if op.Return? {
      DescribedCallers(u.seed, g);
      LeaveFollows(u.seed, g.callers, g.top.link, None, g.s, g.executed);
    }
  }

  /** One operation that finds no token: the flat machine does the same, and every frame within room stays described. */
  lemma StepFollows(u: Setup, h: Host)
    requires h.Active? && h.token.None? && AllDescribe(u.seed, h.callers, h.top)
    ensures var g := HostStep(u, h);
            && Follows(Step(u.prog, u.seed, FlatOf(h)), g)
            && (g.Active? && |g.callers| < MAX_DEPTH ==> AllDescribe(u.seed, g.callers, g.top))
  {
    if AtOp(u, h) && Paid(u, h) {
      var g := Ready(u, h);
      MovedDescribes(u.seed, h.callers, h.top, h.top.pos, g.top.charged);
      match OpOf(u, h) {
        case Call(_, _, _) => CallFollows(u, g);
        case PossibleReturn(_, _, _) => PossibleReturnFollows(u, g);
        case _ => LocalFollows(u, g);
      }
      hide AllDescribe, Step, Perform, Follows;
    }
  }

  /** A function that runs off its end is a missing return; the executor says so of the entry only, and calls it a call elsewhere. */
  lemma MissingReturnIsReported(u: Setup, h: Host)
    requires h.Active? && h.top.func in u.prog.code
    ensures Step(u.prog, u.seed, FlatOf(h)) == Stuck(NoReturnBoundary) <==> h.top.pos >= |u.prog.code[h.top.func]|
    ensures h.top.pos >= |u.prog.code[h.top.func]| ==>
              HostStep(u, h).Ended? && HostStep(u, h).r == Blocked(if h.callers == [] then NoReturnBoundary else UnresolvedCall)
  {
    hide StackOf;
  }

  /** No operation of the first n runs on a frame beyond the arrays or finds a token. */
  ghost predicate Clean(u: Setup, n: nat, h: Host) {
    n > 0 ==>
      && (h.Active? ==> |h.callers| < MAX_DEPTH && h.token.None?)
      && Clean(u, n - 1, HostStep(u, h))
  }

  /** No operation of the first n runs on a frame beyond the arrays. */
  ghost predicate Shallow(u: Setup, n: nat, h: Host) {
    n > 0 ==>
      && (h.Active? ==> |h.callers| < MAX_DEPTH)
      && Shallow(u, n - 1, HostStep(u, h))
  }

  /** A clean run is the flat machine's, operation by operation, and every frame within room stays described. */
  lemma {:induction false} CleanRunFollows(u: Setup, n: nat, h: Host)
    requires h.Active? && Clean(u, n, h)
    requires |h.callers| < MAX_DEPTH ==> AllDescribe(u.seed, h.callers, h.top)
    ensures Follows(Steps(u.prog, u.seed, n, FlatOf(h)), HostSteps(u, n, h))
    ensures var g := HostSteps(u, n, h);
            g.Active? && |g.callers| < MAX_DEPTH ==> AllDescribe(u.seed, g.callers, g.top)
  {
    hide AllDescribe, Step, HostStep;
    if n > 0 {
      StepFollows(u, h);
      var g, m := HostStep(u, h), Step(u.prog, u.seed, FlatOf(h));
      if g.Active? {
        CleanRunFollows(u, n - 1, g);
      } else {
        EndedHostStays(u, n - 1, g);
        if !m.Running? {
          EndedStays(u.prog, u.seed, n - 1, m);
        }
      }
    }
  }

  /** Without linking possible returns a run is clean as long as it is shallow. */
  lemma {:induction false} NonLinkingIsClean(u: Setup, n: nat, h: Host)
    requires NonLinking(u.prog) && (h.Active? ==> h.token.None?)
    ensures Clean(u, n, h) <==> Shallow(u, n, h)
  {
    if n > 0 {
      TokenIsItsOwn(u, 1, h);
      OneHostStep(u, h);
      NonLinkingIsClean(u, n - 1, HostStep(u, h));
    }
  }

  lemma StartIsDescribed(u: Setup, func: nat, initial: Guest, executed: nat)
    ensures var h := Start(u, func, initial, executed);
            && h.Active? && AllDescribe(u.seed, h.callers, h.top) && h.token.None?
            && FlatOf(h) == Running(func, 0, initial, [])
  {
  }

  /**
   The executor is the flat machine: for every program whose possible returns do not link, every
   entry, every budget and every number of operations, as long as none runs beyond 64 host frames.
   */
  lemma ExecutorIsFlat(u: Setup, func: nat, initial: Guest, executed: nat, n: nat)
    requires NonLinking(u.prog) && Shallow(u, n, Start(u, func, initial, executed))
    ensures var g := HostSteps(u, n, Start(u, func, initial, executed));
            && Follows(Steps(u.prog, u.seed, n, Running(func, 0, initial, [])), g)
            && (g.Active? && |g.callers| < MAX_DEPTH ==> AllDescribe(u.seed, g.callers, g.top))
  {
    var h := Start(u, func, initial, executed);
    StartIsDescribed(u, func, initial, executed);
    NonLinkingIsClean(u, n, h);
    CleanRunFollows(u, n, h);
  }

  /** A run stopped by a budget was, up to its last operation, the flat machine still going, and had spent what it was given. */
  lemma StoppedRunWasFlat(u: Setup, func: nat, initial: Guest, executed: nat, n: nat, end: Host)
    requires NonLinking(u.prog) && n > 0 && Shallow(u, n - 1, Start(u, func, initial, executed))
    requires Reaches(u, Start(u, func, initial, executed), n, end) && end.Ended?
    ensures Steps(u.prog, u.seed, n - 1, Running(func, 0, initial, [])).Running?
    ensures n - 1 <= end.executed - executed <= 2 * n
  {
    var h := Start(u, func, initial, executed);
    var last := HostSteps(u, n - 1, h);
    ExecutorIsFlat(u, func, initial, executed, n - 1);
    RunCharges(u, n - 1, h);
    HostStepsCompose(u, n - 1, 1, h);
    OneHostStep(u, last);
    StepCharges(u, last);
  }

  /** A whole run, from the start to its end: what the executor reports of the flat machine is true of it. */
  lemma RunIsFlat(u: Setup, func: nat, initial: Guest, executed: nat, n: nat, end: Host)
    requires n > 0 && Reaches(u, Start(u, func, initial, executed), n, end) && end.Ended?
    ensures NonLinking(u.prog) && Shallow(u, n, Start(u, func, initial, executed)) ==>
              var start := Running(func, 0, initial, []);
              && Follows(Steps(u.prog, u.seed, n, start), end)
              && (end.r.InstructionLimit? ==>
                    && Steps(u.prog, u.seed, n - 1, start).Running?
                    && n - 1 <= end.executed - executed <= 2 * n)
  {
    if NonLinking(u.prog) && Shallow(u, n, Start(u, func, initial, executed)) {
      ExecutorIsFlat(u, func, initial, executed, n);
      ShallowBefore(u, n, Start(u, func, initial, executed));
      StoppedRunWasFlat(u, func, initial, executed, n, end);
    }
  }

  lemma {:induction false} ShallowBefore(u: Setup, n: nat, h: Host)
    requires n > 0 && Shallow(u, n, h)
    ensures Shallow(u, n - 1, h)
  {
    if n > 1 {
      ShallowBefore(u, n - 1, HostStep(u, h));
    }
  }

  // ---- why both conditions are there ----

  /** A callee's return test is right for every target if and only if its host depth is at most 64. */
  lemma ReturnTestNeedsRoom(u: Setup, g: Host, target: nat, link: Option<nat>)
    requires g.Active? && g.token == link && target in u.prog.code
    requires |g.callers| < MAX_DEPTH ==> Describes(u.seed, g.callers, g.top)
    ensures var h := EnterFunction(u, g, target, link);
            (forall t :: TakesReturn(h, t) <==> IsReturn(u.seed, StackOf(h.callers, link), t)) <==> |h.callers| < MAX_DEPTH
  {
    var h := EnterFunction(u, g, target, link);
    if |h.callers| < MAX_DEPTH {
      CalleeIsDescribed(u.seed, g, target, link);
      ReturnTestIsExact(u.seed, h);
    } else {
      var own := match ReturnOf(u.seed, StackOf(h.callers, link)) case Some(e) => e case None => 0;
      assert IsReturn(u.seed, StackOf(h.callers, link), own) && !TakesReturn(h, own);
    }
  }

  /**
   A tail call that finds a token another operation left hands it to its callee, whose return test
   is then right for every target if and only if the stale address is the caller's own.
   */
  lemma StaleTokenMisleads(u: Setup, g: Host, target: nat)
    requires g.Active? && g.token.Some? && target in u.prog.code
    requires Describes(u.seed, g.callers, g.top) && |g.callers| + 1 < MAX_DEPTH
    ensures var h := EnterFunction(u, g, target, None);
            (forall t :: TakesReturn(h, t) <==> IsReturn(u.seed, StackOf(h.callers, None), t)) <==>
            g.top.expected.Some? && Aligned(g.token.value) == Aligned(g.top.expected.value)
  {
    StackUnder(g.callers, g.top, None);
    var h, stale := EnterFunction(u, g, target, None), g.token.value;
    assert TakesReturn(h, stale);
    if g.top.expected.Some? {
      assert IsReturn(u.seed, StackOf(h.callers, None), g.top.expected.value);
    } else {
      AlignedDiffers(stale);
      assert IsReturn(u.seed, StackOf(h.callers, None), stale + 4) && !TakesReturn(h, stale + 4);
    }
  }

  lemma {:induction false} Affords(u: Setup, charged: nat, executed: nat, n: nat)
    requires charged + n <= u.frameBudget && executed + n <= u.totalBudget
    ensures Charged(u, charged, executed, n) == Charge(true, executed + n)
    decreases n
  {
    if n > 0 {
      Affords(u, charged + 1, executed + 1, n - 1);
    }
  }

  /** An operation that can be paid for is performed. */
  lemma Performs(u: Setup, h: Host, op: GuestOp)
    requires AtOp(u, h) && OpOf(u, h) == op
    requires h.top.charged + Weight(op) <= u.frameBudget && h.executed + Weight(op) <= u.totalBudget
    ensures var g := Active(h.callers, h.top.(charged := h.top.charged + Weight(op)),
                            if LinkOf(op).Some? then LinkOf(op) else h.token, h.s, h.executed + Weight(op));
            HostStep(u, h) == Perform(u, op, g)
  {
    Affords(u, h.top.charged, h.executed, Weight(op));
  }

  /** A function called with a link that returns through a linking branch, and a tail call after it. */
  function LinkingReturn(): Program {
    Program(
      map[0x100 := [Call(Always, Direct(0x200), Some(0x104)), Call(Always, Direct(0x300), None)],
          0x200 := [PossibleReturn(Always, 0, Some(0x204))],
          0x300 := [PossibleReturn(Always, 1, None)]],
      (id, s) => true, (id, s) => if id == 0 then 0x104 else 0x900, (id, s) => None)
  }

  lemma FourSteps(p: Program, seed: nat, m0: Flat, m1: Flat, m2: Flat, m3: Flat)
    requires Step(p, seed, m0) == m1 && Step(p, seed, m1) == m2 && Step(p, seed, m2) == m3
    ensures Steps(p, seed, 4, m0) == Step(p, seed, m3)
  {
    hide Step;
    var m4 := Step(p, seed, m3);
    assert Steps(p, seed, 3, m1) == Steps(p, seed, 2, m2) == Steps(p, seed, 1, m3) == Steps(p, seed, 0, m4);
  }

  /** What a run of the program looks up. */
  lemma LinkingReturnLookups(p: Program)
    requires p == LinkingReturn()
    ensures 0x100 in p.code && 0x200 in p.code && 0x300 in p.code && 0x900 !in p.code
    ensures p.code[0x100] == [Call(Always, Direct(0x200), Some(0x104)), Call(Always, Direct(0x300), None)]
    ensures p.code[0x200] == [PossibleReturn(Always, 0, Some(0x204))]
    ensures p.code[0x300] == [PossibleReturn(Always, 1, None)]
    ensures p.pointer(0, []) == 0x104 && p.pointer(1, []) == 0x900
  {
    hide Aligned, Low32;
  }

  lemma AlignedAlready(a: nat)
    requires a < 0x1_0000_0000 && a % 4 == 0
    ensures Aligned(a) == a && Low32(a) == a
  {
  }

  lemma FlatPerforms(p: Program, seed: nat, m: Flat, op: GuestOp)
    requires m.Running? && m.func in p.code && m.pos < |p.code[m.func]| && p.code[m.func][m.pos] == op
    ensures op.Call? && op.when == Always ==> Step(p, seed, m) == Enter(p, m, TargetOf(p, op.to, m.s), op.link)
    ensures op.PossibleReturn? && op.when == Always && IsReturn(seed, m.stack, p.pointer(op.id, m.s)) ==>
              Step(p, seed, m) == Pop(m.stack, m.s)
  {
    hide IsReturn, Enter, Pop, TargetOf;
  }

  lemma LinkingReturnFlat(p: Program)
    requires p == LinkingReturn()
    ensures Steps(p, 0x900, 4, Running(0x100, 0, [], [])) == Halted([])
  {
    hide LinkingReturn, Aligned, Low32, Steps, Step;
    LinkingReturnLookups(p);
    AlignedAlready(0x104);
    AlignedAlready(0x900);
    var stack := [Frame(0x104, 0x100, 1)];
    var m0, m1 := Running(0x100, 0, [], []), Running(0x200, 0, [], stack);
    var m2, m3 := Running(0x100, 1, [], []), Running(0x300, 0, [], []);
    FlatPerforms(p, 0x900, m0, Call(Always, Direct(0x200), Some(0x104)));
    FlatPerforms(p, 0x900, m1, PossibleReturn(Always, 0, Some(0x204)));
    FlatPerforms(p, 0x900, m2, Call(Always, Direct(0x300), None));
    FlatPerforms(p, 0x900, m3, PossibleReturn(Always, 1, None));
    assert stack[..0] == [];
    FourSteps(p, 0x900, m0, m1, m2, m3);
  }

  lemma FourHostSteps(u: Setup, h0: Host, h1: Host, h2: Host, h3: Host)
    requires HostStep(u, h0) == h1 && HostStep(u, h1) == h2 && HostStep(u, h2) == h3
    requires forall h <- [h0, h1, h2, h3] :: h.Active? && |h.callers| < MAX_DEPTH
    ensures HostSteps(u, 4, h0) == HostStep(u, h3) && Shallow(u, 4, h0)
  {
    hide HostStep;
    var h4 := HostStep(u, h3);
    assert h0 in [h0, h1, h2, h3] && h1 in [h0, h1, h2, h3] && h2 in [h0, h1, h2, h3] && h3 in [h0, h1, h2, h3];
    assert HostSteps(u, 3, h1) == HostSteps(u, 2, h2) == HostSteps(u, 1, h3) == HostSteps(u, 0, h4);
    assert Shallow(u, 0, h4);
    assert Shallow(u, 1, h3);
    assert Shallow(u, 2, h2);
    assert Shallow(u, 3, h1);
  }

  lemma LinkingReturnHost(u: Setup)
    requires u.prog == LinkingReturn() && u.seed == 0x900 && u.totalBudget >= 6 && u.frameBudget >= 3
    ensures HostSteps(u, 4, Start(u, 0x100, [], 0)) == Ended(Blocked(UnresolvedCall), [], 6)
    ensures Shallow(u, 4, Start(u, 0x100, [], 0))
  {
    hide LinkingReturn, Aligned, Low32, HostSteps, HostStep, Shallow;
    LinkingReturnLookups(u.prog);
    AlignedAlready(0x104);
    AlignedAlready(0x204);
    AlignedAlready(0x900);
    var h0, main := Start(u, 0x100, [], 0), HostFrame(0x100, 0, None, Some(0x900), false, 1, 2);
    var h1 := Active([main], HostFrame(0x200, 0, Some(0x104), Some(0x104), false, 2, 0), None, [], 2);
    var h2 := Active([], main.(pos := 1), Some(0x204), [], 4);
    var h3 := Active([main.(pos := 1, charged := 3)], HostFrame(0x300, 0, None, Some(0x204), false, 1, 0), None, [], 5);
    assert HostStep(u, h0) == h1 by {
      Performs(u, h0, Call(Always, Direct(0x200), Some(0x104)));
    }
    assert HostStep(u, h1) == h2 by {
      Performs(u, h1, PossibleReturn(Always, 0, Some(0x204)));
      assert [main][..0] == [];
    }
    assert HostStep(u, h2) == h3 by {
      Performs(u, h2, Call(Always, Direct(0x300), None));
    }
    var h4 := Ended(Blocked(UnresolvedCall), [], 6);
    assert HostStep(u, h3) == h4 by {
      Performs(u, h3, PossibleReturn(Always, 1, None));
    }
    FourHostSteps(u, h0, h1, h2, h3);
  }

  /**
   Entered at 0x100 with link register 0x900 it returns there after four operations. The executor
   hands 0x204, which the second operation left pending, to the tail call, does not recognize the
   return to 0x900, and blocks on a call to it.
   */
  lemma LinkingReturnMisleads(u: Setup)
    requires u.prog == LinkingReturn() && u.seed == 0x900 && u.totalBudget >= 6 && u.frameBudget >= 3
    ensures Shallow(u, 4, Start(u, 0x100, [], 0)) && !NonLinking(u.prog)
    ensures Steps(u.prog, u.seed, 4, Running(0x100, 0, [], [])) == Halted([])
    ensures HostSteps(u, 4, Start(u, 0x100, [], 0)) == Ended(Blocked(UnresolvedCall), [], 6)
  {
    hide LinkingReturn, Shallow, Steps, HostSteps, Start;
    LinkingReturnLookups(u.prog);
    LinkingReturnFlat(u.prog);
    LinkingReturnHost(u);
    assert u.prog.code[0x200][0].PossibleReturn?;
  }

  /** Functions 0 to 64, each a tail call of the next, the last one a return to the entry's link register. */
  function ChainCode(f: nat): seq<GuestOp> {
    [if f < MAX_DEPTH then Call(Always, Direct(f + 1), None) else PossibleReturn(Always, 0, None)]
  }

  function TailChain(): Program {
    Program(map f | 0 <= f <= MAX_DEPTH :: ChainCode(f), (id, s) => true, (id, s) => 0x900, (id, s) => None)
  }

  lemma {:induction false} TailChainDescends(u: Setup, f: nat, h: Host)
    requires u.prog == TailChain() && u.seed == 0x900 && u.totalBudget >= 65 && u.frameBudget >= 1
    requires f <= MAX_DEPTH && h.Active? && |h.callers| == f && h.executed == f && h.token.None? && h.s == []
    requires h.top.func == f && h.top.pos == 0 && h.top.charged == 0
    requires f == MAX_DEPTH ==> h.top.expected.None? && !h.top.terminal
    ensures HostSteps(u, MAX_DEPTH + 1 - f, h) == Ended(Blocked(UnresolvedCall), [], 65)
    ensures Steps(u.prog, u.seed, MAX_DEPTH + 1 - f, Running(f, 0, [], [])) == Halted([])
    ensures Shallow(u, MAX_DEPTH - f, h)
    decreases MAX_DEPTH - f
  {
    assert u.prog.code[f] == ChainCode(f);
    Performs(u, h, ChainCode(f)[0]);
    var g, m := HostStep(u, h), Step(u.prog, u.seed, Running(f, 0, [], []));
    if f < MAX_DEPTH {
      assert m == Running(f + 1, 0, [], []);
      TailChainDescends(u, f + 1, g);
    } else {
      OneHostStep(u, h);
      assert 0x900 !in u.prog.code;
      assert Steps(u.prog, u.seed, 1, Running(f, 0, [], [])) == Steps(u.prog, u.seed, 0, m);
    }
  }

  /**
   One frame too many, in a program that links nothing: the flat machine returns, the executor, at
   host depth 65, does not recognize the return.
   */
  lemma DeepChainMisleads(u: Setup)
    requires u.prog == TailChain() && u.seed == 0x900 && u.totalBudget >= 65 && u.frameBudget >= 1
    ensures NonLinking(u.prog) && Shallow(u, MAX_DEPTH, Start(u, 0, [], 0))
    ensures Steps(u.prog, u.seed, MAX_DEPTH + 1, Running(0, 0, [], [])) == Halted([])
    ensures HostSteps(u, MAX_DEPTH + 1, Start(u, 0, [], 0)) == Ended(Blocked(UnresolvedCall), [], 65)
  {
    TailChainDescends(u, 0, Start(u, 0, [], 0));
  }
}
