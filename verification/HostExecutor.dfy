/**
 The recursive correctness executor's call protocol: one host frame per guest call, tail calls
 included, with the guest's return addresses kept in arrays indexed by host depth and handed to
 a callee through a one-shot token. Whatever the program, the depth and the budgets, it does
 operation by operation what the machine of HostMachine.dfy does.
 */
module HostExecutor {
  import opened Options
  import opened GuestProgram
  import opened HostMachine
  import opened HostRefinement
  import opened HostFrames

  /** Where one operation leaves its frame: at another position, or ended. */
  datatype Next = GoOn(pos: nat) | Stop(r: Outcome)

  class Executor {
    const setup: Setup

    const expected: array<nat>
    const expectedValid: array<bool>
    const tailTerminal: array<bool>
    const logicalDepth: array<nat>

    var depth: nat
    var nextReturn: nat
    var nextValid: bool
    var pendingLogical: nat
    var pendingLogicalValid: bool
    var executed: nat
    var s: Guest

    ghost predicate Shape() {
      && expected.Length == expectedValid.Length == tailTerminal.Length == logicalDepth.Length == MAX_DEPTH
      && expected != logicalDepth && expectedValid != tailTerminal
    }

    constructor (setup: Setup)
      ensures Shape() && this.setup == setup
      ensures depth == 0 && executed == 0
      ensures fresh(expected) && fresh(expectedValid) && fresh(tailTerminal) && fresh(logicalDepth)
    {
      this.setup := setup;
      expected := new nat[MAX_DEPTH](i => 0);
      expectedValid := new bool[MAX_DEPTH](i => false);
      tailTerminal := new bool[MAX_DEPTH](i => false);
      logicalDepth := new nat[MAX_DEPTH](i => 0);
      depth, nextReturn, nextValid := 0, 0, false;
      pendingLogical, pendingLogicalValid, executed, s := 0, false, 0, [];
    }

    // ---- reading the current frame ----

    function CurrentExpectedReturn(): Option<nat>
      requires Shape()
      reads this, expected, expectedValid
    {
      if depth == 0 || depth > MAX_DEPTH || !expectedValid[depth - 1] then None
      else Some(expected[depth - 1])
    }

    predicate CurrentTailTerminal()
      requires Shape()
      reads this, tailTerminal
    {
      0 < depth <= MAX_DEPTH && tailTerminal[depth - 1]
    }

    function CurrentLogicalDepth(): nat
      requires Shape()
      reads this, logicalDepth
    {
      if depth == 0 || depth > MAX_DEPTH then 0
      else if logicalDepth[depth - 1] != 0 then logicalDepth[depth - 1]
      else depth
    }

    /** Is a branch to the target the current function's return? */
    predicate IsCurrentReturn(target: nat)
      requires Shape()
      reads this, expected, expectedValid, tailTerminal
    {
      match CurrentExpectedReturn()
      case None => depth <= 1 || CurrentTailTerminal()
      case Some(e) => Aligned(target) == Aligned(e)
    }

    ghost function Token(): Option<nat>
      reads this
    {
      if nextValid then Some(nextReturn) else None
    }

    /** The slot of host depth d says what the frame has. */
    ghost predicate SlotOf(d: nat, f: HostFrame)
      requires Shape() && 1 <= d <= MAX_DEPTH
      reads expected, expectedValid, tailTerminal, logicalDepth
    {
      && f.expected == (if expectedValid[d - 1] then Some(expected[d - 1]) else None)
      && f.terminal == tailTerminal[d - 1]
      && f.logical == logicalDepth[d - 1] > 0
    }

    ghost predicate SlotsOf(fs: seq<HostFrame>)
      requires Shape()
      reads expected, expectedValid, tailTerminal, logicalDepth
    {
      forall k :: 0 <= k < |fs| && k < MAX_DEPTH ==> SlotOf(k + 1, fs[k])
    }

    /** The arrays say at every live depth what h's frames have. */
    ghost predicate Shows(h: Host)
      requires Shape()
      reads this, expected, expectedValid, tailTerminal, logicalDepth
    {
      && h.Active? && depth == |h.callers| + 1
      && SlotsOf(h.callers) && (depth <= MAX_DEPTH ==> SlotOf(depth, h.top))
      && CurrentExpectedReturn() == h.top.expected
      && CurrentTailTerminal() == h.top.terminal
      && CurrentLogicalDepth() == h.top.logical
    }

    /** The executor stands where h does. */
    ghost predicate StandsAt(h: Host)
      requires Shape()
      reads this, expected, expectedValid, tailTerminal, logicalDepth
    {
      Shows(h) && h.token == Token() && h.s == s && h.executed == executed
    }

    /**
     Wherever a run stands, the slot of every live depth up to 64 holds one more than the linked calls
     on its chain, and, when no possible return links, the address of the nearest of them; and the
     return test at the current frame is the flat machine's pop.
     */
    lemma LiveSlotsAreRight(func: nat, initial: Guest, before: nat, n: nat)
      requires Shape() && StandsAt(HostSteps(setup, n, Start(setup, func, initial, before)))
      ensures var fs := Frames(HostSteps(setup, n, Start(setup, func, initial, before)));
              depth == |fs| &&
              forall d :: 0 <= d < depth && d < MAX_DEPTH ==>
                var chain := StackOf(fs[..d], fs[d].link);
                && logicalDepth[d] == |chain| + 1
                && (NonLinking(setup.prog) ==>
                      ReturnOf(setup.seed, chain) == if expectedValid[d] then Some(expected[d]) else None)
      ensures var stack := FlatOf(HostSteps(setup, n, Start(setup, func, initial, before))).stack;
              NonLinking(setup.prog) && depth <= MAX_DEPTH ==>
                forall target :: IsCurrentReturn(target) <==> IsReturn(setup.seed, stack, target)
    {
      hide HostSteps, StackOf, Start, NonLinking;
      var h := HostSteps(setup, n, Start(setup, func, initial, before));
      LogicalDepthCountsLinks(setup, func, initial, before, n);
      if NonLinking(setup.prog) {
        ExpectedReturnIsNearestLink(setup, func, initial, before, n);
      }
      forall d | 0 <= d < depth && d < MAX_DEPTH
        ensures SlotOf(d + 1, Frames(h)[d])
      {
      }
      CurrentFrameIsRight(setup, func, initial, before, n);
    }

    // ---- the token and the arrays ----

    /** SET_RETURN_ADDRESS. */
    method SetReturnAddress(ret: nat)
      modifies this`nextReturn, this`nextValid
      ensures nextValid && nextReturn == ret
    {
      nextReturn, nextValid := ret, true;
    }

    method DiscardPendingReturn()
      modifies this`nextReturn, this`nextValid
      ensures !nextValid
    {
      if nextValid {
        nextReturn, nextValid := 0, false;
      }
    }

    method PrepareNestedLogicalDepth(tail: bool)
      requires Shape()
      modifies this`pendingLogical, this`pendingLogicalValid
      ensures pendingLogicalValid && pendingLogical >= 1
      ensures pendingLogical == (if CurrentLogicalDepth() == 0 && tail then 1 else CurrentLogicalDepth() + (if tail then 0 else 1))
    {
      pendingLogical := CurrentLogicalDepth() + (if tail then 0 else 1);
      if pendingLogical == 0 {
        pendingLogical := 1;
      }
      pendingLogicalValid := true;
    }

    /** Fills the callee's slot from the token, or, for want of one, from the caller's own slot. */
    method PrepareNestedReturn(tail: bool)
      requires Shape()
      modifies this`nextReturn, this`nextValid, this`pendingLogical, this`pendingLogicalValid
      modifies expected, expectedValid, tailTerminal
      ensures !nextValid && pendingLogicalValid && pendingLogical >= 1
      ensures pendingLogical == old(if CurrentLogicalDepth() == 0 && tail then 1 else CurrentLogicalDepth() + (if tail then 0 else 1))
      ensures depth < MAX_DEPTH ==>
        var e := old(if nextValid then Some(nextReturn) else CurrentExpectedReturn());
        && expectedValid[depth] == e.Some?
        && (e.Some? ==> expected[depth] == e.value)
        && tailTerminal[depth] == (e.None? && tail)
      ensures forall i :: 0 <= i < MAX_DEPTH && i != depth ==>
        expected[i] == old(expected[i]) && expectedValid[i] == old(expectedValid[i]) && tailTerminal[i] == old(tailTerminal[i])
    {
      PrepareNestedLogicalDepth(tail);
      if depth >= MAX_DEPTH {
        nextValid := false;
        return;
      }
      var address, valid := 0, false;
      if nextValid {
        address, valid := nextReturn, true;
      } else {
        var current := CurrentExpectedReturn();
        if current.Some? {
          address, valid := current.value, true;
        }
      }
      expected[depth] := address;
      expectedValid[depth] := valid;
      tailTerminal[depth] := !valid && tail;
      nextValid := false;
    }

    method ClearNestedReturn()
      requires Shape()
      modifies expectedValid, tailTerminal
      ensures depth < MAX_DEPTH ==> !expectedValid[depth] && !tailTerminal[depth]
      ensures forall i :: 0 <= i < MAX_DEPTH && i != depth ==>
        expectedValid[i] == old(expectedValid[i]) && tailTerminal[i] == old(tailTerminal[i])
    {
      if depth < MAX_DEPTH {
        expectedValid[depth] := false;
        tailTerminal[depth] := false;
      }
    }

    /** Charges one HIR instruction; false when a budget is spent. */
    method Tick(inFrame: nat) returns (ok: bool)
      modifies this`executed
      ensures ok <==> inFrame < setup.frameBudget && old(executed) < setup.totalBudget
      ensures executed == old(executed) + (if inFrame < setup.frameBudget then 1 else 0)
    {
      if inFrame >= setup.frameBudget {
        return false;
      }
      executed := executed + 1;
      ok := executed <= setup.totalBudget;
    }

    // ---- the recursion ----

    /** Everything a call may write. */
    ghost function Footprint(): set<object>
    {
      {this, expected, expectedValid, tailTerminal, logicalDepth}
    }

    /** The instructions still to be charged; a call is only made after one has been. */
    ghost function Left(): nat
      reads this
    {
      if executed <= setup.totalBudget then setup.totalBudget - executed else 0
    }

    /** No slot of a frame at or above host depth d has changed. */
    twostate predicate Kept(d: nat)
      requires Shape()
      reads expected, expectedValid, tailTerminal, logicalDepth
    {
      forall i :: 0 <= i < d && i < MAX_DEPTH ==>
        && expected[i] == old(expected[i]) && expectedValid[i] == old(expectedValid[i])
        && tailTerminal[i] == old(tailTerminal[i]) && logicalDepth[i] == old(logicalDepth[i])
    }

    /** Where a frame made by a call with this link ends: with its outcome, or back in its caller's frame. */
    ghost function EndOf(callers: seq<HostFrame>, link: Option<nat>, r: Outcome): Host
      reads this
    {
      if r.Returned? then Leave(callers, link, Token(), s, executed)
      else if r == Blocked(NoReturnBoundary) && callers != [] then Ended(Blocked(UnresolvedCall), s, executed)
      else Ended(r, s, executed)
    }

    /** Where g's frame is after an operation. */
    ghost function After(g: Host, next: Next): Host
      requires g.Active?
      reads this
    {
      match next
      case GoOn(to) => Active(g.callers, g.top.(pos := to), Token(), s, executed)
      case Stop(r) => EndOf(g.callers, g.top.link, r)
    }

    /** The operation's SET_RETURN_ADDRESS, if it has one, and the charge for its branch or call. */
    method BeginOp(op: GuestOp, inFrame: nat, ghost h: Host) returns (ok: bool, count: nat)
      requires Shape() && StandsAt(h) && AtOp(setup, h) && OpOf(setup, h) == op && h.top.charged == inFrame
      modifies this`nextReturn, this`nextValid, this`executed
      ensures ok == Paid(setup, h) && executed >= old(executed) && old(executed) < executed + (if ok then 0 else 1)
      ensures ok ==> count == inFrame + Weight(op) && StandsAt(Ready(setup, h)) && old(executed) < setup.totalBudget
      ensures !ok ==> HostStep(setup, h) == Ended(InstructionLimit, s, executed)
    {
      hide Perform, Charged;
      count := inFrame;
      ChargedInTurn(setup, count, executed);
      ChargedInTurn(setup, count + 1, executed + 1);
      if LinkOf(op).Some? {
        ok := Tick(count);
        if !ok {
          return;
        }
        count := count + 1;
        SetReturnAddress(LinkOf(op).value);
      }
      ok := Tick(count);
      if ok {
        count := count + 1;
      }
    }

    /** One operation: each HIR instruction of it is charged, its link becomes the token, and it runs. */
    method ExecuteOp(func: nat, pos: nat, inFrame: nat, ghost h: Host) returns (next: Next, count: nat, ghost steps: nat)
      requires Shape() && func in setup.prog.code && pos < |setup.prog.code[func]|
      requires StandsAt(h) && h.top.func == func && h.top.pos == pos && h.top.charged == inFrame
      modifies Footprint()
      ensures depth == old(depth) && executed >= old(executed) && Kept(depth)
      ensures next.GoOn? ==> next.pos <= |setup.prog.code[func]| && old(executed) < executed && old(executed) < setup.totalBudget
      ensures steps > 0 && Reaches(setup, h, steps, After(h.(top := h.top.(charged := count)), next))
      ensures NonLinking(setup.prog) && old(!nextValid) && next != Stop(InstructionLimit) ==> !nextValid
      decreases Left(), 5
    {
      hide Perform, Charged, Reaches, Leave, NonLinking;
      var op := setup.prog.code[func][pos];
      steps := 1;
      StepReaches(setup, h);
      var ok;
      ok, count := BeginOp(op, inFrame, h);
      if !ok {
        next := Stop(InstructionLimit);
        return;
      }
      ghost var g := Ready(setup, h);
      ghost var n;
      if op.Call? {
        next, n := ExecuteCall(func, pos, g);
      } else if op.PossibleReturn? {
        next, n := ExecutePossibleReturn(func, pos, g);
      } else {
        next, n := ExecuteLocal(func, pos, g);
      }
      ReachesCompose(setup, h, 1, Perform(setup, op, g), n, After(g, next));
      steps := 1 + n;
    }

    /** A guest function on the frame already entered. */
    method ExecuteFrame(func: nat, ghost h: Host) returns (r: Outcome, ghost steps: nat)
      requires Shape() && func in setup.prog.code
      requires StandsAt(h) && h.top.func == func && h.top.pos == 0 && h.top.charged == 0
      modifies Footprint()
      ensures depth == old(depth) && executed >= old(executed) && Kept(depth)
      ensures steps > 0 && Reaches(setup, h, steps, EndOf(h.callers, h.top.link, r))
      ensures NonLinking(setup.prog) && old(!nextValid) && !r.InstructionLimit? ==> !nextValid
      decreases Left(), 6
    {
      hide NonLinking, Leave, Perform;
      var pos, count := 0, 0;
      steps := 0;
      while pos < |setup.prog.code[func]|
        invariant depth == old(depth) && executed >= old(executed) && Kept(depth) && Shows(h)
        invariant pos <= |setup.prog.code[func]|
        invariant NonLinking(setup.prog) && old(!nextValid) ==> !nextValid
        invariant Reaches(setup, h, steps, After(h.(top := h.top.(charged := count)), GoOn(pos)))
        decreases Left()
      {
        ghost var at := After(h.(top := h.top.(charged := count)), GoOn(pos));
        var next;
        ghost var n;
        next, count, n := ExecuteOp(func, pos, count, at);
        ReachesCompose(setup, h, steps, at, n, After(h.(top := h.top.(charged := count)), next));
        steps := steps + n;
        match next {
          case Stop(outcome) => return outcome, steps;
          case GoOn(to) => pos := to;
        }
      }
      r := Blocked(NoReturnBoundary);
      ghost var at := After(h.(top := h.top.(charged := count)), GoOn(pos));
      StepReaches(setup, at);
      ReachesCompose(setup, h, steps, at, 1, EndOf(h.callers, h.top.link, r));
      steps := steps + 1;
    }

    /** CALL and CALL_TRUE, CALL_INDIRECT and CALL_INDIRECT_TRUE without a possible return. */
    method ExecuteCall(func: nat, pos: nat, ghost g: Host) returns (next: Next, ghost steps: nat)
      requires Shape() && func in setup.prog.code && pos < |setup.prog.code[func]|
      requires setup.prog.code[func][pos].Call?
      requires StandsAt(g) && g.top.func == func && g.top.pos == pos
      modifies Footprint()
      ensures depth == old(depth) && executed >= old(executed) && Kept(depth)
      ensures next.GoOn? ==> next.pos <= |setup.prog.code[func]|
      ensures Reaches(setup, Perform(setup, setup.prog.code[func][pos], g), steps, After(g, next))
      ensures NonLinking(setup.prog) && next != Stop(InstructionLimit) ==> !nextValid
      decreases Left(), 10
    {
      var op := setup.prog.code[func][pos];
      steps := 0;
      if !Met(setup.prog, op.when, s) {
        DiscardPendingReturn();
        next := GoOn(pos + 1);
        return;
      }
      next, steps := EnterCallee(func, pos, TargetOf(setup.prog, op.to, s), op.link, g);
    }

    /** CALL_INDIRECT with CALL_POSSIBLE_RETURN: the function's return, or a call after all. */
    method ExecutePossibleReturn(func: nat, pos: nat, ghost g: Host) returns (next: Next, ghost steps: nat)
      requires Shape() && func in setup.prog.code && pos < |setup.prog.code[func]|
      requires setup.prog.code[func][pos].PossibleReturn?
      requires StandsAt(g) && g.top.func == func && g.top.pos == pos
      modifies Footprint()
      ensures depth == old(depth) && executed >= old(executed) && Kept(depth)
      ensures next.GoOn? ==> next.pos <= |setup.prog.code[func]|
      ensures Reaches(setup, Perform(setup, setup.prog.code[func][pos], g), steps, After(g, next))
      ensures NonLinking(setup.prog) && next != Stop(InstructionLimit) ==>
                old(nextValid ==> setup.prog.code[func][pos].link.Some?) ==> !nextValid
      decreases Left(), 10
    {
      var op := setup.prog.code[func][pos];
      steps := 0;
      if !Met(setup.prog, op.when, s) {
        DiscardPendingReturn();
        next := GoOn(pos + 1);
        return;
      }
      var target := setup.prog.pointer(op.id, s);
      if IsCurrentReturn(target) {
        next := Stop(Returned);
        return;
      }
      next, steps := EnterCallee(func, pos, Low32(target), op.link, g);
    }

    /** A call that is made: into the callee, and on after it or out with it. */
    method EnterCallee(func: nat, pos: nat, target: nat, link: Option<nat>, ghost g: Host)
      returns (next: Next, ghost steps: nat)
      requires Shape() && func in setup.prog.code && pos < |setup.prog.code[func]|
      requires StandsAt(g) && g.top.func == func && g.top.pos == pos
      modifies Footprint()
      ensures depth == old(depth) && executed >= old(executed) && Kept(depth)
      ensures next.GoOn? ==> next.pos <= |setup.prog.code[func]|
      ensures Reaches(setup, EnterFunction(setup, g, target, link), steps, After(g, next))
      ensures NonLinking(setup.prog) && next != Stop(InstructionLimit) ==> !nextValid
      decreases Left(), 9
    {
      var r;
      r, steps := ResolveCall(target, link.None?, link, g);
      next := if r.Returned? && link.Some? then GoOn(pos + 1) else Stop(r);
      assert (g.callers + [g.top])[..|g.callers|] == g.callers;
    }

    /** The operations that make no call. */
    method ExecuteLocal(func: nat, pos: nat, ghost g: Host) returns (next: Next, ghost steps: nat)
      requires Shape() && func in setup.prog.code && pos < |setup.prog.code[func]|
      requires !setup.prog.code[func][pos].Call? && !setup.prog.code[func][pos].PossibleReturn?
      requires StandsAt(g) && g.top.func == func && g.top.pos == pos
      modifies this`s, this`nextReturn, this`nextValid
      ensures next.GoOn? ==> next.pos <= |setup.prog.code[func]|
      ensures Reaches(setup, Perform(setup, setup.prog.code[func][pos], g), steps, After(g, next))
      ensures nextValid ==> old(nextValid) && LinkOf(setup.prog.code[func][pos]).None?
    {
      steps := 0;
      match setup.prog.code[func][pos] {
        case Compute(id) =>
          match setup.prog.compute(id, s) {
            case None => next := Stop(Blocked(Unsupported));
            case Some(after) =>
              s := after;
              next := GoOn(pos + 1);
          }
        case Branch(when, to, _) =>
          var take := Met(setup.prog, when, s);
          next :=
            if !take then GoOn(pos + 1)
            else if to > |setup.prog.code[func]| then Stop(Blocked(Unsupported))
            else GoOn(to);
          DiscardPendingReturn();
        case Return(when) =>
          if Met(setup.prog, when, s) {
            DiscardPendingReturn();
            next := Stop(Returned);
          } else {
            next := GoOn(pos + 1);
          }
      }
    }

    /** The callee's slot is filled for h's frame, but for its logical depth, which is pending. */
    ghost predicate Prepared(h: Host)
      requires Shape()
      reads this, expected, expectedValid, tailTerminal, logicalDepth
    {
      && h.Active? && depth == |h.callers| && !nextValid && h.token.None? && h.s == s && h.executed == executed
      && pendingLogicalValid && pendingLogical >= 1
      && SlotsOf(h.callers)
      && (if depth < MAX_DEPTH then
            && (if expectedValid[depth] then h.top.expected == Some(expected[depth]) else h.top.expected.None?)
            && tailTerminal[depth] == h.top.terminal && pendingLogical == h.top.logical
          else h.top.expected.None? && !h.top.terminal && h.top.logical == 0)
    }

    /** Onto the prepared frame, which takes the pending logical depth. */
    method EnterFrame(ghost h: Host)
      requires Shape() && Prepared(h)
      modifies this`depth, this`pendingLogical, this`pendingLogicalValid, logicalDepth
      ensures depth == old(depth) + 1 && StandsAt(h) && !nextValid
      ensures forall i :: 0 <= i < MAX_DEPTH && i != old(depth) ==> logicalDepth[i] == old(logicalDepth[i])
    {
      depth := depth + 1;
      if depth <= MAX_DEPTH {
        logicalDepth[depth - 1] := depth;
        if pendingLogicalValid {
          logicalDepth[depth - 1] := pendingLogical;
        }
      }
      pendingLogical, pendingLogicalValid := 0, false;
    }

    /** A nested ExecuteHIRCorrectnessProbe: enter the prepared frame, run, leave it. */
    method ExecuteNested(func: nat, ghost h: Host) returns (r: Outcome, ghost steps: nat)
      requires Shape() && func in setup.prog.code
      requires Prepared(h) && h.top.func == func && h.top.pos == 0 && h.top.charged == 0
      modifies Footprint()
      ensures depth == old(depth) && executed >= old(executed) && Kept(depth)
      ensures Reaches(setup, h, steps, EndOf(h.callers, h.top.link, r))
      ensures NonLinking(setup.prog) && !r.InstructionLimit? ==> !nextValid
      decreases Left(), 7
    {
      hide Reaches, NonLinking, Leave, StandsAt, Prepared;
      EnterFrame(h);
      r, steps := ExecuteFrame(func, h);
      depth := depth - 1;
    }

    /**
     ResolveFunctionCall and ResolveAddressCall: hand the callee its return address, run it, and
     clear its slot. A callee that ran off its end leaves no blocker of its own behind.
     */
    method ResolveCall(target: nat, tail: bool, ghost link: Option<nat>, ghost g: Host) returns (r: Outcome, ghost steps: nat)
      requires Shape() && StandsAt(g) && tail == link.None?
      modifies Footprint()
      ensures depth == old(depth) && executed >= old(executed) && Kept(depth)
      ensures r != Blocked(NoReturnBoundary)
      ensures Reaches(setup, EnterFunction(setup, g, target, link), steps, EndOf(g.callers + [g.top], link, r))
      ensures NonLinking(setup.prog) && !r.InstructionLimit? ==> !nextValid
      decreases Left(), 8
    {
      PrepareNestedReturn(tail);
      if target in setup.prog.code {
        r, steps := ExecuteNested(target, EnterFunction(setup, g, target, link));
        if r == Blocked(NoReturnBoundary) {
          r := Blocked(UnresolvedCall);
        }
      } else {
        r, steps := Blocked(UnresolvedCall), 0;
      }
      ClearNestedReturn();
    }

    /** Clears what an earlier run left and seeds the first frame with the entry's link register. */
    method BeginRun(ghost func: nat, initial: Guest)
      requires Shape()
      modifies Footprint()
      ensures StandsAt(Start(setup, func, initial, old(executed))) && !nextValid && executed == old(executed)
    {
      for i := 0 to MAX_DEPTH
        modifies expectedValid, tailTerminal
        invariant forall j :: 0 <= j < i ==> !expectedValid[j] && !tailTerminal[j]
      {
        expectedValid[i] := false;
        tailTerminal[i] := false;
      }
      nextReturn, nextValid := 0, false;
      s := initial;
      if setup.seed != 0 {
        expected[0] := setup.seed;
        expectedValid[0] := true;
        tailTerminal[0] := false;
      }
      depth := 1;
      logicalDepth[0] := 1;
      pendingLogical, pendingLogicalValid := 0, false;
    }

    /**
     The outermost ExecuteHIRCorrectnessProbe. It ends where the machine ends, after exactly as many
     operations. When no possible return links and no operation runs beyond 64 host frames, that is
     where the flat machine ends, and a spent budget leaves the flat machine still running.
     */
    method Execute(func: nat, initial: Guest) returns (r: Outcome, ghost steps: nat)
      requires Shape() && func in setup.prog.code && depth == 0
      modifies Footprint()
      ensures depth == 0
      ensures steps > 0 && Reaches(setup, Start(setup, func, initial, old(executed)), steps, Ended(r, s, executed))
      ensures NonLinking(setup.prog) && Shallow(setup, steps, Start(setup, func, initial, old(executed))) ==>
                var start := Running(func, 0, initial, []);
                match r
                case Returned => Steps(setup.prog, setup.seed, steps, start) == Halted(s)
                case Blocked(kind) =>
                  var end := Steps(setup.prog, setup.seed, steps, start);
                  end.Stuck? && Reports(kind, end.kind)
                case InstructionLimit =>
                  && Steps(setup.prog, setup.seed, steps - 1, start).Running?
                  && steps - 1 <= executed - old(executed) <= 2 * steps
    {
      hide Reaches, Shallow, NonLinking, Steps;
      ghost var before := executed;
      BeginRun(func, initial);
      r, steps := ExecuteFrame(func, Start(setup, func, initial, before));
      depth := 0;
      RunIsFlat(setup, func, initial, before, steps, Ended(r, s, executed));
    }
  }
}
