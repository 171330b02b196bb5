/**
 Many calls: a slot driven to completion ends where one uninterrupted walk ends, on exactly the
 call its length says, and slots driven in any interleaving do not disturb each other.
 */
module Continuations {
  import opened Options
  import opened LittleEndian
  import opened Hir
  import opened Wasm
  import opened Lowering
  import opened DispatchLoop
  import opened ResumableModule
  import opened ResumableCall
  import TrappingModule

  const QUANTUM := 4096

  /** One guest thread: its lowered function, its context and slot addresses, the context it began with. */
  datatype Task = Task(x: Lowered, at: nat, slot: nat, ctx0: Context)

  ghost predicate GoodTask(t: Task) {
    t.x.Good() && t.x.b.Resumable? && 0 < |t.x.g| < 0x1_0000_0000
  }

  ghost predicate Placed(t: Task, world: World) {
    t.at in world.ctxs && InBounds(t.x.locals, world.mem, t.slot)
  }

  /** The world shows task t to be where the walk w is. */
  ghost predicate Shows(t: Task, world: World, w: Walk, started: bool)
    requires GoodTask(t) && Placed(t, world)
  {
    match w
    case Running(k, s) =>
      && world.ctxs[t.at] == s.ctx
      && (if started then SlotSays(t.x.locals, world.mem, t.slot, SlotYielded(k, s))
          else k == 0 && s.vals == map[] && SlotSays(t.x.locals, world.mem, t.slot, SlotFresh))
    case Finished(ctx) =>
      world.ctxs[t.at] == ctx && SlotSays(t.x.locals, world.mem, t.slot, SlotCompleted)
    case Faulted => false
  }

  /** Nothing outside task t's own context and slot differs. */
  ghost predicate OnlyTask(t: Task, a: World, b: World) {
    && b.ctxs.Keys == a.ctxs.Keys
    && (forall c :: c in a.ctxs && c != t.at ==> b.ctxs[c] == a.ctxs[c])
    && OnlySlot(t.x.locals, a.mem, b.mem, t.slot)
  }

  /** What the call returns in r3: the context's result register. */
  function R3Of(t: Task, w: Walk): nat
    requires !w.Faulted?
  {
    match w
    case Running(_, s) => t.x.isa.r3(s.ctx)
    case Finished(ctx) => t.x.isa.r3(ctx)
  }

  lemma CompletedCall(t: Task, fuel: nat, world: World, w: Walk)
    requires GoodTask(t) && Placed(t, world) && w.Finished? && Shows(t, world, w, true)
    ensures Invoke(t.x, fuel, t.at, t.slot, world) == Some((R3Of(t, w), world))
  {
    hide Body;
    CompletedReturns(t.x, fuel, Invocation(t.x, t.at, t.slot, world));
  }

  /** The slot's memory with its status word set. */
  function Marked(t: Task, mem: seq<byte>, status: nat): (r: seq<byte>)
    requires InBounds(t.x.locals, mem, t.slot)
    ensures InBounds(t.x.locals, r, t.slot)
  {
    LittleEndian.Store(mem, t.slot + STATUS_AT, 4, status)
  }

  lemma MarkedSays(t: Task, mem: seq<byte>, status: nat)
    requires InBounds(t.x.locals, mem, t.slot) && status <= 2
    ensures OnlySlot(t.x.locals, mem, Marked(t, mem, status), t.slot)
    ensures Load(Marked(t, mem, status), t.slot + STATUS_AT, 4) == status
  {
    CapacityOfWord();
    LoadStored(mem, t.slot + STATUS_AT, 4, status);
  }

  lemma ShownIsGoodSlot(t: Task, world: World, w: Walk, started: bool)
    requires GoodTask(t) && Placed(t, world) && w.Running?
    requires GoodWalk(t.x.g, w) && Shows(t, world, w, started)
    ensures var m := Invocation(t.x, t.at, t.slot, world);
            && Starts(t.x, m) && GoodSlot(t.x, m, SlotFor(w, started))
            && WalkOf(SlotFor(w, started), world.ctxs[t.at]) == w
            && Started(t.x, m).mem == Marked(t, world.mem, FRESH)
  {
  }

  lemma FinishedInvoke(t: Task, fuel: nat, world: World, w: Walk, started: bool, ctx: Context)
    requires GoodTask(t) && Placed(t, world) && fuel >= QUANTUM && w.Running?
    requires GoodWalk(t.x.g, w) && Shows(t, world, w, started)
    requires Dispatches(t.x.isa, t.x.g, QUANTUM, w) == Finished(ctx)
    ensures Invoke(t.x, fuel, t.at, t.slot, world)
            == Some((t.x.isa.r3(ctx), World(world.ctxs[t.at := ctx], Marked(t, Marked(t, world.mem, FRESH), COMPLETED))))
  {
    hide GoodSlot, Shows, Body, Exec, Dispatches, GoodLocals, LowerBlocks, StateSize, Width, Load, LittleEndian.Store;
    ShownIsGoodSlot(t, world, w, started);
    var m := Invocation(t.x, t.at, t.slot, world);
    var _ := BodyEnds(t.x, fuel - QUANTUM, m, SlotFor(w, started));
  }

  lemma YieldedInvoke(t: Task, fuel: nat, world: World, w: Walk, started: bool, k: nat, s: State)
    requires GoodTask(t) && Placed(t, world) && fuel >= QUANTUM && w.Running?
    requires GoodWalk(t.x.g, w) && Shows(t, world, w, started)
    requires Dispatches(t.x.isa, t.x.g, QUANTUM, w) == Running(k, s)
    ensures Invoke(t.x, fuel, t.at, t.slot, world)
            == Some((t.x.isa.r3(s.ctx),
                     World(world.ctxs[t.at := s.ctx],
                           Suspended(t.x.locals, t.x.order, Marked(t, world.mem, FRESH), t.slot, k, s))))
  {
    hide GoodSlot, Shows, Suspended, Body, Exec, Dispatches, GoodLocals, LowerBlocks, StateSize, Width, Load, LittleEndian.Store;
    ShownIsGoodSlot(t, world, w, started);
    var m := Invocation(t.x, t.at, t.slot, world);
    var _ := BodyYields(t.x, fuel - QUANTUM, m, SlotFor(w, started), k, s);
  }

  /** One call on one slot is one quantum of its walk, and nobody else notices. */
  ghost predicate Slice(t: Task, fuel: nat, world: World, w': Walk)
    requires GoodTask(t) && !w'.Faulted?
  {
    var r := Invoke(t.x, fuel, t.at, t.slot, world);
    && r.Some? && r.value.0 == R3Of(t, w')
    && Placed(t, r.value.1) && Shows(t, r.value.1, w', true) && OnlyTask(t, world, r.value.1)
  }

  lemma OnlySlotTwice(locals: Locals, a: seq<byte>, b: seq<byte>, c: seq<byte>, p: nat)
    requires OnlySlot(locals, a, b, p) && OnlySlot(locals, b, c, p)
    ensures OnlySlot(locals, a, c, p)
  {
  }

  lemma FinishedCall(t: Task, fuel: nat, world: World, w: Walk, started: bool, w': Walk)
    requires GoodTask(t) && Placed(t, world) && fuel >= QUANTUM && w.Running?
    requires GoodWalk(t.x.g, w) && Shows(t, world, w, started)
    requires Dispatches(t.x.isa, t.x.g, QUANTUM, w) == w' && w'.Finished?
    ensures Slice(t, fuel, world, w')
  {
    hide Marked, InBounds, Dispatch, Invoke;
    FinishedInvoke(t, fuel, world, w, started, w'.ctx);
    MarkedSays(t, world.mem, FRESH);
    MarkedSays(t, Marked(t, world.mem, FRESH), COMPLETED);
  }

  lemma YieldedCall(t: Task, fuel: nat, world: World, w: Walk, started: bool, w': Walk)
    requires GoodTask(t) && Placed(t, world) && fuel >= QUANTUM && w.Running?
    requires GoodWalk(t.x.g, w) && Shows(t, world, w, started)
    requires Dispatches(t.x.isa, t.x.g, QUANTUM, w) == w' && w'.Running?
    ensures Slice(t, fuel, world, w')
  {
    hide OnlySlot, Suspended, Invoke, Dispatches;
    YieldedInvoke(t, fuel, world, w, started, w'.block, w'.s);
    MarkedSays(t, world.mem, FRESH);
    DispatchesKeepGood(t.x.isa, t.x.g, QUANTUM, w);
    SuspendedSays(t.x.locals, t.x.order, Marked(t, world.mem, FRESH), t.slot, w'.block, w'.s);
    OnlySlotTwice(t.x.locals, world.mem, Marked(t, world.mem, FRESH),
                  Suspended(t.x.locals, t.x.order, Marked(t, world.mem, FRESH), t.slot, w'.block, w'.s), t.slot);
  }

  /** The slot state behind what the world shows. */
  function SlotFor(w: Walk, started: bool): SlotState
    requires w.Running?
  {
    if started then SlotYielded(w.block, w.s) else SlotFresh
  }

  // ---- schedules ----

  /** Where the walk of task t is after j calls. */
  function After(t: Task, j: nat): Walk {
    Dispatches(t.x.isa, t.x.g, QUANTUM * j, Entry(t.ctx0))
  }

  ghost predicate NeverFaults(t: Task) {
    forall n: nat :: !Dispatches(t.x.isa, t.x.g, n, Entry(t.ctx0)).Faulted?
  }

  /** No opcode the generator lowers ever traps. */
  ghost predicate NeverTraps(isa: Isa) {
    forall op, ctx, args :: isa.lowers(op) ==> isa.produce(op, ctx, args).Some? && isa.store(op, ctx, args).Some?
  }

  lemma {:induction false} LoweredBlockNeverFaults(
    isa: Isa, b: Backend, g: Graph, k: nat, code: seq<Instr>, locals: Locals, s: State)
    requires NeverTraps(isa) && LowerInstrs(isa, b, |g|, k, code, locals).Some?
    ensures !RunBlock(isa, g, k, code, s).Fault?
    decreases |code|
  {
    if code != [] {
      assert LowerInstr(isa, b, |g|, code[0], locals).Some?;
      if RunInstr(isa, g, code[0], s).Next? {
        LoweredBlockNeverFaults(isa, b, g, k, code[1..], locals, RunInstr(isa, g, code[0], s).s);
      }
    }
  }

  lemma {:induction false} LoweredBlocks(isa: Isa, b: Backend, g: Graph, from: nat, locals: Locals, k: nat)
    requires from <= k < |g| && LowerBlocks(isa, b, g, from, locals).Some?
    ensures LowerInstrs(isa, b, |g|, k, g[k], locals).Some?
    decreases k - from
  {
    if from < k {
      LoweredBlocks(isa, b, g, from + 1, locals, k);
    }
  }

  /** A graph that was accepted faults nowhere on its way, unless an opcode traps. */
  lemma {:induction false} AcceptedNeverFaults(x: Lowered, n: nat, w: Walk)
    requires x.Good() && NeverTraps(x.isa) && !w.Faulted? && (w.Running? ==> w.block < |x.g|)
    ensures !Dispatches(x.isa, x.g, n, w).Faulted?
  {
    if n > 0 {
      if w.Running? {
        LoweredBlocks(x.isa, x.b, x.g, 0, x.locals, w.block);
        LoweredBlockNeverFaults(x.isa, x.b, x.g, w.block, x.g[w.block], x.locals, w.s);
      }
      AcceptedNeverFaults(x, n - 1, Dispatch(x.isa, x.g, w));
    }
  }

  lemma GoodTaskNeverFaults(t: Task)
    requires GoodTask(t) && NeverTraps(t.x.isa)
    ensures NeverFaults(t)
  {
    forall n: nat
      ensures !Dispatches(t.x.isa, t.x.g, n, Entry(t.ctx0)).Faulted?
    {
      AcceptedNeverFaults(t.x, n, Entry(t.ctx0));
    }
  }

  /** The world shows task t after j calls of its own. */
  ghost predicate ShowsAfter(t: Task, j: nat, world: World) {
    GoodTask(t) && Placed(t, world) && Shows(t, world, After(t, j), j > 0)
  }

  lemma AfterOneMore(t: Task, j: nat)
    requires |t.x.g| > 0
    ensures After(t, j + 1) == Dispatches(t.x.isa, t.x.g, QUANTUM, After(t, j))
    ensures GoodWalk(t.x.g, After(t, j))
  {
    DispatchesCompose(t.x.isa, t.x.g, QUANTUM * j, QUANTUM, Entry(t.ctx0));
    assert QUANTUM * j + QUANTUM == QUANTUM * (j + 1);
    DispatchesKeepGood(t.x.isa, t.x.g, QUANTUM * j, Entry(t.ctx0));
  }

  /** The next call of a task that does not fault moves it, and only it, one call further, and returns its r3. */
  lemma FaultlessCall(t: Task, j: nat, fuel: nat, world: World)
    requires ShowsAfter(t, j, world) && !After(t, j + 1).Faulted? && fuel >= QUANTUM
    ensures var r := Invoke(t.x, fuel, t.at, t.slot, world);
            && r.Some? && r.value.0 == R3Of(t, After(t, j + 1))
            && ShowsAfter(t, j + 1, r.value.1) && OnlyTask(t, world, r.value.1)
  {
    hide Dispatches, Invoke, Shows, OnlyTask, R3Of, GoodWalk;
    var w, w' := After(t, j), After(t, j + 1);
    AfterOneMore(t, j);
    ShownWalk(t, world, w, j > 0);
    if w.Finished? {
      EndedWalkStays(t.x.isa, t.x.g, QUANTUM, w);
      CompletedCall(t, fuel, world, w);
      NothingElse(t, world);
    } else if w'.Finished? {
      FinishedCall(t, fuel, world, w, j > 0, w');
    } else {
      YieldedCall(t, fuel, world, w, j > 0, w');
    }
  }

  /** So does every call of a task that was accepted and uses no opcode that traps. */
  lemma OneCall(t: Task, j: nat, fuel: nat, world: World)
    requires ShowsAfter(t, j, world) && NeverTraps(t.x.isa) && fuel >= QUANTUM
    ensures !After(t, j + 1).Faulted?
    ensures var r := Invoke(t.x, fuel, t.at, t.slot, world);
            && r.Some? && r.value.0 == R3Of(t, After(t, j + 1))
            && ShowsAfter(t, j + 1, r.value.1) && OnlyTask(t, world, r.value.1)
  {
    AcceptedNeverFaults(t.x, QUANTUM * (j + 1), Entry(t.ctx0));
    FaultlessCall(t, j, fuel, world);
  }

  /** No faulted walk is shown, and a finished one the same way whether or not its task was called. */
  lemma ShownWalk(t: Task, world: World, w: Walk, started: bool)
    requires GoodTask(t) && Placed(t, world) && Shows(t, world, w, started)
    ensures !w.Faulted? && (w.Finished? ==> Shows(t, world, w, true))
  {
    hide SlotSays;
  }

  lemma NothingElse(t: Task, world: World)
    ensures OnlyTask(t, world, world)
  {
  }

  /** Two threads with their own contexts and slots. */
  ghost predicate Apart(t: Task, u: Task) {
    && t.at != u.at
    && (t.slot + StateSize(t.x.locals) <= u.slot || u.slot + StateSize(u.x.locals) <= t.slot)
  }

  lemma WordUntouched(t: Task, u: Task, a: World, b: World, offset: nat, n: nat)
    requires Placed(u, a) && Apart(t, u) && OnlyTask(t, a, b)
    requires offset + n <= StateSize(u.x.locals)
    ensures Placed(u, b)
    ensures Load(a.mem, u.slot + offset, n) == Load(b.mem, u.slot + offset, n)
  {
    LoadUnchanged(a.mem, b.mem, u.slot + offset, n);
  }

  lemma ValueUntouched(t: Task, u: Task, a: World, b: World, v: Value)
    requires GoodTask(u) && Placed(u, a) && Apart(t, u) && OnlyTask(t, a, b)
    requires v in u.x.locals
    ensures Placed(u, b)
    ensures Load(a.mem, u.slot + SlotOffset(u.x.locals, v), Width(v.ty))
            == Load(b.mem, u.slot + SlotOffset(u.x.locals, v), Width(v.ty))
  {
    CellInSlot(u.x.locals, v);
    WordUntouched(t, u, a, b, SlotOffset(u.x.locals, v), Width(v.ty));
  }

  lemma ValuesUntouched(t: Task, u: Task, a: World, b: World, s: State)
    requires GoodTask(u) && Placed(u, a) && Apart(t, u) && OnlyTask(t, a, b)
    requires HoldsValues(u.x.locals, a.mem, u.slot, s)
    ensures Placed(u, b) && HoldsValues(u.x.locals, b.mem, u.slot, s)
  {
    WordUntouched(t, u, a, b, 0, 0);
    forall v | v in u.x.locals
      ensures Load(b.mem, u.slot + SlotOffset(u.x.locals, v), Width(v.ty)) == ValueOf(s, v)
    {
      ValueUntouched(t, u, a, b, v);
    }
  }

  lemma HeaderUntouched(t: Task, u: Task, a: World, b: World)
    requires Placed(u, a) && Apart(t, u) && OnlyTask(t, a, b)
    ensures Placed(u, b)
    ensures Load(a.mem, u.slot + STATUS_AT, 4) == Load(b.mem, u.slot + STATUS_AT, 4)
    ensures Load(a.mem, u.slot + PC_AT, 4) == Load(b.mem, u.slot + PC_AT, 4)
  {
    WordUntouched(t, u, a, b, STATUS_AT, 4);
    WordUntouched(t, u, a, b, PC_AT, 4);
  }

  /** What another task's call leaves alone, for a task apart from it. */
  lemma SlotUntouched(t: Task, u: Task, a: World, b: World, says: SlotState)
    requires GoodTask(u) && Placed(u, a) && Apart(t, u) && OnlyTask(t, a, b)
    requires SlotSays(u.x.locals, a.mem, u.slot, says)
    ensures Placed(u, b) && SlotSays(u.x.locals, b.mem, u.slot, says)
  {
    HeaderUntouched(t, u, a, b);
    if says.SlotYielded? {
      ValuesUntouched(t, u, a, b, says.s);
    }
  }

  lemma OtherUntouched(t: Task, u: Task, j: nat, a: World, b: World)
    requires ShowsAfter(u, j, a) && Apart(t, u) && OnlyTask(t, a, b)
    ensures ShowsAfter(u, j, b)
  {
    var w := After(u, j);
    var says := if w.Finished? then SlotCompleted else SlotFor(w, j > 0);
    SlotUntouched(t, u, a, b, says);
  }

  /** Calls made in the order of sched, each on the task it names. */
  function RunSchedule(tasks: seq<Task>, fuel: nat, sched: seq<nat>, world: World): Option<World>
    requires forall i :: 0 <= i < |tasks| ==> tasks[i].x.Good()
    requires forall i :: 0 <= i < |sched| ==> sched[i] < |tasks|
  {
    if sched == [] then Some(world)
    else
      var t := tasks[sched[0]];
      match Invoke(t.x, fuel, t.at, t.slot, world)
      case None => None
      case Some((_, world')) => RunSchedule(tasks, fuel, sched[1..], world')
  }

  /** How often sched calls task i. */
  function Calls(sched: seq<nat>, i: nat): nat {
    if sched == [] then 0 else (if sched[0] == i then 1 else 0) + Calls(sched[1..], i)
  }

  /** Every task stands where its own count of calls puts it. */
  ghost predicate Standing(tasks: seq<Task>, done: seq<nat>, world: World) {
    |done| == |tasks| && forall i :: 0 <= i < |tasks| ==> ShowsAfter(tasks[i], done[i], world)
  }

  ghost predicate Independent(tasks: seq<Task>) {
    && (forall i :: 0 <= i < |tasks| ==> NeverFaults(tasks[i]))
    && (forall i, j :: 0 <= i < |tasks| && 0 <= j < |tasks| && i != j ==> Apart(tasks[i], tasks[j]))
  }

  lemma StandingAfterCall(tasks: seq<Task>, fuel: nat, i: nat, done: seq<nat>, world: World)
    requires Independent(tasks) && Standing(tasks, done, world) && i < |tasks| && fuel >= QUANTUM
    ensures var r := Invoke(tasks[i].x, fuel, tasks[i].at, tasks[i].slot, world);
            r.Some? && Standing(tasks, done[i := done[i] + 1], r.value.1)
  {
    assert !Dispatches(tasks[i].x.isa, tasks[i].x.g, QUANTUM * (done[i] + 1), Entry(tasks[i].ctx0)).Faulted?;
    FaultlessCall(tasks[i], done[i], fuel, world);
    var world' := Invoke(tasks[i].x, fuel, tasks[i].at, tasks[i].slot, world).value.1;
    forall j | 0 <= j < |tasks|
      ensures ShowsAfter(tasks[j], done[i := done[i] + 1][j], world')
    {
      if j != i {
        OtherUntouched(tasks[i], tasks[j], done[j], world, world');
      }
    }
  }

  /** The counts after the calls of sched are added in. */
  function AddCalls(done: seq<nat>, sched: seq<nat>): (r: seq<nat>)
    ensures |r| == |done|
  {
    seq(|done|, i requires 0 <= i < |done| => done[i] + Calls(sched, i))
  }

  lemma AddCallsStep(done: seq<nat>, sched: seq<nat>)
    requires sched != [] && sched[0] < |done|
    ensures AddCalls(done[sched[0] := done[sched[0]] + 1], sched[1..]) == AddCalls(done, sched)
    ensures AddCalls(done, []) == done
  {
  }

  ghost predicate Ends(tasks: seq<Task>, fuel: nat, sched: seq<nat>, done: seq<nat>, world: World)
    requires forall i :: 0 <= i < |tasks| ==> tasks[i].x.Good()
    requires forall i :: 0 <= i < |sched| ==> sched[i] < |tasks|
  {
    var r := RunSchedule(tasks, fuel, sched, world);
    r.Some? && Standing(tasks, AddCalls(done, sched), r.value)
  }

  lemma {:induction false} ScheduleEnds(tasks: seq<Task>, fuel: nat, sched: seq<nat>, done: seq<nat>, world: World)
    requires Independent(tasks) && Standing(tasks, done, world) && fuel >= QUANTUM
    requires forall i :: 0 <= i < |sched| ==> sched[i] < |tasks|
    requires forall i :: 0 <= i < |tasks| ==> tasks[i].x.Good()
    ensures Ends(tasks, fuel, sched, done, world)
    decreases |sched|
  {
    hide Invoke;
    if sched == [] {
      assert AddCalls(done, sched) == done;
    } else {
      var t := tasks[sched[0]];
      StandingAfterCall(tasks, fuel, sched[0], done, world);
      var world' := Invoke(t.x, fuel, t.at, t.slot, world).value.1;
      ScheduleEnds(tasks, fuel, sched[1..], done[sched[0] := done[sched[0]] + 1], world');
      AddCallsStep(done, sched);
      assert RunSchedule(tasks, fuel, sched, world) == RunSchedule(tasks, fuel, sched[1..], world');
    }
  }

  /** Tasks that never fault, called in any order. */
  lemma FaultlessInterleaving(tasks: seq<Task>, fuel: nat, sched: seq<nat>, world: World)
    requires Independent(tasks) && fuel >= QUANTUM
    requires forall i :: 0 <= i < |tasks| ==> ShowsAfter(tasks[i], 0, world)
    requires forall i :: 0 <= i < |sched| ==> sched[i] < |tasks|
    ensures forall i :: 0 <= i < |tasks| ==> tasks[i].x.Good()
    ensures var r := RunSchedule(tasks, fuel, sched, world);
            && r.Some?
            && forall i :: 0 <= i < |tasks| ==> ShowsAfter(tasks[i], Calls(sched, i), r.value)
  {
    var zero: seq<nat> := seq(|tasks|, i => 0);
    ScheduleEnds(tasks, fuel, sched, zero, world);
    var world' := RunSchedule(tasks, fuel, sched, world).value;
    forall i | 0 <= i < |tasks|
      ensures ShowsAfter(tasks[i], Calls(sched, i), world')
    {
      assert AddCalls(zero, sched)[i] == Calls(sched, i);
    }
  }

  /**
   Whatever order the calls come in, every task ends where its own calls alone would have put it:
   its context and its slot are those of its walk after 4096 dispatches for each of its calls. All
   that is asked of the tasks is that they were accepted, start from fresh slots, have contexts and
   slots of their own, and use no opcode that traps.
   */
  lemma InterleavingIsHarmless(tasks: seq<Task>, fuel: nat, sched: seq<nat>, world: World)
    requires fuel >= QUANTUM
    requires forall i :: 0 <= i < |tasks| ==> ShowsAfter(tasks[i], 0, world) && NeverTraps(tasks[i].x.isa)
    requires forall i, j :: 0 <= i < |tasks| && 0 <= j < |tasks| && i != j ==> Apart(tasks[i], tasks[j])
    requires forall i :: 0 <= i < |sched| ==> sched[i] < |tasks|
    ensures forall i :: 0 <= i < |tasks| ==> tasks[i].x.Good()
    ensures var r := RunSchedule(tasks, fuel, sched, world);
            && r.Some?
            && forall i :: 0 <= i < |tasks| ==> ShowsAfter(tasks[i], Calls(sched, i), r.value)
  {
    forall i | 0 <= i < |tasks|
      ensures NeverFaults(tasks[i])
    {
      assert ShowsAfter(tasks[i], 0, world);
      GoodTaskNeverFaults(tasks[i]);
    }
    FaultlessInterleaving(tasks, fuel, sched, world);
  }

  // ---- how long it takes ----

  /** The walk of t runs for exactly n dispatches and leaves ctx. */
  ghost predicate RunsFor(t: Task, n: nat, ctx: Context) {
    && n > 0
    && Dispatches(t.x.isa, t.x.g, n, Entry(t.ctx0)) == Finished(ctx)
    && Dispatches(t.x.isa, t.x.g, n - 1, Entry(t.ctx0)).Running?
  }

  lemma StillRunning(t: Task, n: nat, ctx: Context, m: nat)
    requires RunsFor(t, n, ctx)
    ensures var w := Dispatches(t.x.isa, t.x.g, m, Entry(t.ctx0));
            if m < n then w.Running? else w == Finished(ctx)
  {
    if m < n {
      DispatchesCompose(t.x.isa, t.x.g, m, n - 1 - m, Entry(t.ctx0));
      var w := Dispatches(t.x.isa, t.x.g, m, Entry(t.ctx0));
      if !w.Running? {
        EndedWalkStays(t.x.isa, t.x.g, n - 1 - m, w);
      }
    } else {
      DispatchesCompose(t.x.isa, t.x.g, n, m - n, Entry(t.ctx0));
      EndedWalkStays(t.x.isa, t.x.g, m - n, Finished(ctx));
    }
  }

  /**
   A run of n blocks is complete after exactly ceil(n / 4096) calls: the slot says so then and not
   before, the context is the one the uninterrupted walk leaves, and later calls keep both.
   */
  lemma CompletesOnCall(t: Task, n: nat, ctx: Context, j: nat, world: World)
    requires RunsFor(t, n, ctx) && ShowsAfter(t, j, world)
    ensures SlotSays(t.x.locals, world.mem, t.slot, SlotCompleted) <==> j >= (n + 4095) / 4096
    ensures j >= (n + 4095) / 4096 ==> world.ctxs[t.at] == ctx
  {
    StillRunning(t, n, ctx, QUANTUM * j);
    assert j >= (n + 4095) / 4096 <==> QUANTUM * j >= n;
  }

  /**
   Suspending changes nothing: the context a completed slot leaves is the one the module that
   never suspends leaves, for every run short enough for that module's budget.
   */
  lemma SuspendingChangesNothing(
    t: Task, y: Lowered, n: nat, ctx: Context, j: nat, world: World, fuel: nat)
    requires RunsFor(t, n, ctx) && ShowsAfter(t, j, world)
    requires y.Good() && y.b.Trapping? && y.g == t.x.g && y.isa == t.x.isa
    requires fuel >= 100000
    ensures TrappingModule.Run(y, fuel, t.at, t.ctx0)
            == if n <= 100000 then TrappingModule.Ran(y.isa.r3(ctx), ctx) else TrappingModule.RunTrapped
    ensures SlotSays(t.x.locals, world.mem, t.slot, SlotCompleted) ==> world.ctxs[t.at] == ctx
  {
    StillRunning(t, n, ctx, 100000);
    TrappingModule.RunsTheWalk(y, fuel, t.at, t.ctx0);
    CompletesOnCall(t, n, ctx, j, world);
  }

  /** A run that returns meets no fault on the way. */
  lemma ReturningNeverFaults(t: Task, n: nat, ctx: Context)
    requires RunsFor(t, n, ctx)
    ensures NeverFaults(t)
  {
    forall m: nat
      ensures !Dispatches(t.x.isa, t.x.g, m, Entry(t.ctx0)).Faulted?
    {
      StillRunning(t, n, ctx, m);
    }
  }

  lemma {:induction false} CallsOfOne(calls: nat)
    ensures Calls(seq(calls, _ => 0), 0) == calls
    decreases calls
  {
    if calls > 0 {
      var sched := seq(calls, _ => 0);
      assert sched[1..] == seq(calls - 1, _ => 0);
      CallsOfOne(calls - 1);
    }
  }

  /**
   From a fresh slot: calling again and again ends, after ceil(n / 4096) calls and no fewer, with
   the slot completed and the context of the uninterrupted run; further calls change neither.
   */
  lemma CallingUntilCompleted(t: Task, n: nat, ctx: Context, calls: nat, fuel: nat, world: World)
    requires RunsFor(t, n, ctx) && ShowsAfter(t, 0, world) && fuel >= QUANTUM
    ensures t.x.Good()
    ensures var r := RunSchedule([t], fuel, seq(calls, _ => 0), world);
            && r.Some? && Placed(t, r.value)
            && (SlotSays(t.x.locals, r.value.mem, t.slot, SlotCompleted) <==> calls >= (n + 4095) / 4096)
            && (calls >= (n + 4095) / 4096 ==> r.value.ctxs[t.at] == ctx)
  {
    hide RunSchedule, SlotSays, ShowsAfter;
    assert t.x.Good() && Placed(t, world) by { ShownIsGood(t, 0, world); }
    var sched := seq(calls, _ => 0);
    ReturningNeverFaults(t, n, ctx);
    assert Independent([t]);
    FaultlessInterleaving([t], fuel, sched, world);
    CallsOfOne(calls);
    var r := RunSchedule([t], fuel, sched, world);
    assert ShowsAfter([t][0], calls, r.value);
    ShownIsGood(t, calls, r.value);
    CompletesOnCall(t, n, ctx, calls, r.value);
  }

  lemma ShownIsGood(t: Task, j: nat, world: World)
    requires ShowsAfter(t, j, world)
    ensures t.x.Good() && Placed(t, world)
  {
  }

  // ---- starting over ----

  /** ResetWasmBackendCfgContinuation: the slot's bytes become zero. */
  function Cleared(locals: Locals, mem: seq<byte>, p: nat): (r: seq<byte>)
    requires InBounds(locals, mem, p)
    ensures |r| == |mem|
  {
    seq(|mem|, i requires 0 <= i < |mem| => if p <= i < p + StateSize(locals) then 0 else mem[i])
  }

  /** A reset slot is a fresh one, whatever it held, so its task starts over. */
  lemma ResetStartsOver(t: Task, world: World)
    requires GoodTask(t) && Placed(t, world) && world.ctxs[t.at] == t.ctx0
    ensures ShowsAfter(t, 0, world.(mem := Cleared(t.x.locals, world.mem, t.slot)))
    ensures OnlySlot(t.x.locals, world.mem, Cleared(t.x.locals, world.mem, t.slot), t.slot)
  {
    var r := Cleared(t.x.locals, world.mem, t.slot);
    var word := r[t.slot + STATUS_AT..t.slot + STATUS_AT + 4];
    assert word == [0, 0, 0, 0];
    assert Decode(word[3..]) == 0 && Decode(word[2..]) == 0 && Decode(word[1..]) == 0;
    assert word[1..][1..] == word[2..] && word[2..][1..] == word[3..];
  }
}
