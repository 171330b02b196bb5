/**
 What every live frame of the recursive executor holds, in whatever run: its logical depth counts the
 linked calls on the chain, and, as long as no operation finds a stale token, it expects the address
 of the nearest of them. Frames the arrays do not reach hold nothing.
 */
module HostFrames {
  import opened Options
  import opened GuestProgram
  import opened HostMachine
  import opened HostRefinement

  /** All live frames, the entry's first. */
  function Frames(h: Host): (fs: seq<HostFrame>)
    requires h.Active?
    ensures |fs| == |h.callers| + 1
  {
    h.callers + [h.top]
  }

  /** One more than the linked calls it was reached through; tail calls do not count. */
  predicate Counts(callers: seq<HostFrame>, f: HostFrame) {
    f.logical == if |callers| < MAX_DEPTH then |StackOf(callers, f.link)| + 1 else 0
  }

  /** The address of the nearest linked call, or the entry's link register, or that there is neither. */
  predicate Expects(seed: nat, callers: seq<HostFrame>, f: HostFrame) {
    if |callers| < MAX_DEPTH then
      && f.expected == ReturnOf(seed, StackOf(callers, f.link))
      && (f.expected.None? ==> callers == [] || f.terminal)
    else f.expected.None? && !f.terminal
  }

  ghost predicate AllCount(fs: seq<HostFrame>) {
    forall k :: 0 <= k < |fs| ==> Counts(fs[..k], fs[k])
  }

  ghost predicate AllExpect(seed: nat, fs: seq<HostFrame>) {
    forall k :: 0 <= k < |fs| ==> Expects(seed, fs[..k], fs[k])
  }

  // ---- what one operation does to the frames ----

  /** The k-th frame of h is on top now; it may have moved and been charged. */
  ghost predicate BackIn(h: Host, g: Host, k: nat)
    requires h.Active? && g.Active?
  {
    && k < |Frames(h)| && g.callers == Frames(h)[..k]
    && g.top == Frames(h)[k].(pos := g.top.pos, charged := g.top.charged)
  }

  /** A callee of r is on top now. */
  ghost predicate EnteredFrom(r: Host, g: Host)
    requires r.Active? && g.Active?
  {
    g.callers == Frames(r) && g.top == CalleeFrame(r, g.top.func, g.top.link)
  }

  lemma {:induction false} LeaveIsBackIn(
    callers: seq<HostFrame>, link: Option<nat>, token: Option<nat>, s: Guest, executed: nat) returns (k: nat)
    ensures var g := Leave(callers, link, token, s, executed);
            g.Active? ==>
              k < |callers| && g.callers == callers[..k] && g.top == callers[k].(pos := callers[k].pos + 1)
  {
    k := 0;
    if callers != [] {
      var n := |callers| - 1;
      if link.Some? {
        k := n;
      } else {
        k := LeaveIsBackIn(callers[..n], callers[n].link, token, s, executed);
        assert k < n ==> callers[..n][..k] == callers[..k];
      }
    }
  }

  lemma StaysIsBackIn(r: Host, g: Host)
    requires r.Active? && g.Active? && g.callers == r.callers
    requires g.top == r.top.(pos := g.top.pos, charged := g.top.charged)
    ensures BackIn(r, g, |r.callers|)
  {
    assert Frames(r)[..|r.callers|] == r.callers;
  }

  lemma LeftIsBackIn(r: Host, token: Option<nat>) returns (k: nat)
    requires r.Active?
    ensures var g := Leave(r.callers, r.top.link, token, r.s, r.executed); g.Active? ==> BackIn(r, g, k)
  {
    k := LeaveIsBackIn(r.callers, r.top.link, token, r.s, r.executed);
    assert k < |r.callers| ==> Frames(r)[..k] == r.callers[..k];
  }

  /** Every operation about to be performed stays in its frame, goes back to an earlier one, or enters a callee. */
  lemma PerformMovesFrames(u: Setup, r: Host) returns (k: nat)
    requires AtOp(u, r) && Perform(u, OpOf(u, r), r).Active?
    ensures var g := Perform(u, OpOf(u, r), r);
            BackIn(r, g, k) || (EnteredFrom(r, g) && g.top.link == LinkOf(OpOf(u, r)))
  {
    hide BackIn, Leave;
    var op, g := OpOf(u, r), Perform(u, OpOf(u, r), r);
    k := |r.callers|;
    if g.callers == r.callers && g.top == r.top.(pos := g.top.pos, charged := g.top.charged) {
      StaysIsBackIn(r, g);
    } else if op.Return? {
      k := LeftIsBackIn(r, None);
    } else if op.PossibleReturn? && TakesReturn(r, u.prog.pointer(op.id, r.s)) {
      k := LeftIsBackIn(r, r.token);
    }
  }

  // ---- and what it keeps ----

  /** Where a frame stands, and what was charged to it, matters to neither. */
  lemma BackInKeeps(seed: nat, h: Host, g: Host, k: nat)
    requires h.Active? && g.Active? && BackIn(h, g, k)
    ensures AllCount(Frames(h)) ==> AllCount(Frames(g))
    ensures AllExpect(seed, Frames(h)) ==> AllExpect(seed, Frames(g))
  {
    hide StackOf;
    forall i | 0 <= i < |Frames(g)|
      ensures Frames(g)[..i] == Frames(h)[..i]
      ensures Frames(g)[i] == Frames(h)[i].(pos := Frames(g)[i].pos, charged := Frames(g)[i].charged)
    {
    }
  }

  lemma EnteredFrames(r: Host, g: Host, i: nat)
    requires r.Active? && g.Active? && EnteredFrom(r, g) && i < |Frames(g)|
    ensures if i <= |r.callers| then Frames(g)[..i] == Frames(r)[..i] && Frames(g)[i] == Frames(r)[i]
            else Frames(g)[..i] == Frames(r) && Frames(g)[i] == g.top
  {
  }

  lemma CalleeCounts(r: Host, g: Host)
    requires r.Active? && g.Active? && EnteredFrom(r, g) && Counts(r.callers, r.top)
    ensures Counts(Frames(r), g.top)
  {
    StackUnder(r.callers, r.top, g.top.link);
    hide StackOf;
  }

  lemma CalleeExpects(seed: nat, r: Host, g: Host)
    requires r.Active? && g.Active? && EnteredFrom(r, g) && Expects(seed, r.callers, r.top) && r.token == g.top.link
    ensures Expects(seed, Frames(r), g.top)
  {
    StackUnder(r.callers, r.top, g.top.link);
    hide StackOf;
  }

  lemma EnteredKeeps(seed: nat, r: Host, g: Host)
    requires r.Active? && g.Active? && EnteredFrom(r, g)
    ensures AllCount(Frames(r)) ==> AllCount(Frames(g))
    ensures AllExpect(seed, Frames(r)) && r.token == g.top.link ==> AllExpect(seed, Frames(g))
  {
    hide StackOf, Counts, Expects, EnteredFrom;
    var n := |r.callers|;
    assert Frames(r)[..n] == r.callers && Frames(r)[n] == r.top;
    if AllCount(Frames(r)) {
      CalleeCounts(r, g);
    }
    if AllExpect(seed, Frames(r)) && r.token == g.top.link {
      CalleeExpects(seed, r, g);
    }
    forall i | 0 <= i < |Frames(g)|
      ensures if i <= n then Frames(g)[..i] == Frames(r)[..i] && Frames(g)[i] == Frames(r)[i]
              else Frames(g)[..i] == Frames(r) && Frames(g)[i] == g.top
    {
      EnteredFrames(r, g, i);
    }
  }

  lemma ReadyIsBackIn(u: Setup, h: Host)
    requires AtOp(u, h)
    ensures BackIn(h, Ready(u, h), |h.callers|)
  {
    hide Charged;
    assert Frames(h)[..|h.callers|] == h.callers;
  }

  /** One operation keeps the logical depths whatever token it finds, and the return addresses if it finds none. */
  lemma StepKeepsFrames(u: Setup, h: Host)
    requires h.Active? && HostStep(u, h).Active?
    ensures AllCount(Frames(h)) ==> AllCount(Frames(HostStep(u, h)))
    ensures AllExpect(u.seed, Frames(h)) && h.token.None? ==> AllExpect(u.seed, Frames(HostStep(u, h)))
  {
    hide Perform, AllCount, AllExpect, BackIn, EnteredFrom;
    var r, g := Ready(u, h), HostStep(u, h);
    ReadyIsBackIn(u, h);
    BackInKeeps(u.seed, h, r, |h.callers|);
    var k := PerformMovesFrames(u, r);
    if BackIn(r, g, k) {
      BackInKeeps(u.seed, r, g, k);
    } else {
      EnteredKeeps(u.seed, r, g);
    }
  }

  // ---- whole runs ----

  lemma {:induction false} RunKeepsCounts(u: Setup, n: nat, h: Host)
    requires h.Active? ==> AllCount(Frames(h))
    ensures var g := HostSteps(u, n, h); g.Active? ==> AllCount(Frames(g))
  {
    hide HostStep, AllCount;
    if n > 0 {
      var next := HostStep(u, h);
      if h.Ended? {
        EndedHostStays(u, n, h);
      } else {
        if next.Active? {
          StepKeepsFrames(u, h);
        }
        RunKeepsCounts(u, n - 1, next);
      }
    }
  }

  lemma {:induction false} RunKeepsReturns(u: Setup, n: nat, h: Host)
    requires NonLinking(u.prog) && (h.Active? ==> h.token.None? && AllExpect(u.seed, Frames(h)))
    ensures var g := HostSteps(u, n, h); g.Active? ==> AllExpect(u.seed, Frames(g))
  {
    hide HostStep, AllExpect, NonLinking;
    if n > 0 {
      var next := HostStep(u, h);
      if h.Ended? {
        EndedHostStays(u, n, h);
      } else {
        if next.Active? {
          StepKeepsFrames(u, h);
        }
        TokenIsItsOwn(u, 1, h);
        OneHostStep(u, h);
        RunKeepsReturns(u, n - 1, next);
      }
    }
  }

  lemma StartFrames(u: Setup, func: nat, initial: Guest, executed: nat)
    ensures var h := Start(u, func, initial, executed);
            AllCount(Frames(h)) && AllExpect(u.seed, Frames(h)) && h.token.None?
  {
    var h := Start(u, func, initial, executed);
    assert Frames(h)[..0] == [] && Frames(h)[0] == h.top;
  }

  /**
   In every run of every program, at every depth and with any token, the logical depth of each live
   frame is one more than the linked calls on the chain below it, tail calls changing nothing; a frame
   beyond the 64 has none.
   */
  lemma LogicalDepthCountsLinks(u: Setup, func: nat, initial: Guest, executed: nat, n: nat)
    ensures var h := HostSteps(u, n, Start(u, func, initial, executed));
            h.Active? ==> AllCount(Frames(h))
  {
    StartFrames(u, func, initial, executed);
    RunKeepsCounts(u, n, Start(u, func, initial, executed));
  }

  /**
   In every run of a program whose possible returns do not link, each live frame within the 64 expects
   what the nearest enclosing linked call set, or the entry's link register, through any chain of tail
   calls, even while the run is deeper than that; a frame beyond expects nothing.
   */
  lemma ExpectedReturnIsNearestLink(u: Setup, func: nat, initial: Guest, executed: nat, n: nat)
    requires NonLinking(u.prog)
    ensures var h := HostSteps(u, n, Start(u, func, initial, executed));
            h.Active? ==> AllExpect(u.seed, Frames(h))
  {
    StartFrames(u, func, initial, executed);
    RunKeepsReturns(u, n, Start(u, func, initial, executed));
  }

  /** Read at the current frame: the return test is the flat machine's pop wherever a run has got to within the 64. */
  lemma CurrentFrameIsRight(u: Setup, func: nat, initial: Guest, executed: nat, n: nat)
    ensures var h := HostSteps(u, n, Start(u, func, initial, executed));
            h.Active? && |h.callers| < MAX_DEPTH ==>
              && h.top.logical == |FlatOf(h).stack| + 1
              && (NonLinking(u.prog) ==>
                    && h.top.expected == ReturnOf(u.seed, FlatOf(h).stack)
                    && forall target :: TakesReturn(h, target) <==> IsReturn(u.seed, FlatOf(h).stack, target))
  {
    hide HostSteps, StackOf;
    LogicalDepthCountsLinks(u, func, initial, executed, n);
    var h := HostSteps(u, n, Start(u, func, initial, executed));
    if h.Active? && |h.callers| < MAX_DEPTH {
      var k := |h.callers|;
      assert Frames(h)[..k] == h.callers && Frames(h)[k] == h.top;
      assert Counts(Frames(h)[..k], Frames(h)[k]);
      if NonLinking(u.prog) {
        ExpectedReturnIsNearestLink(u, func, initial, executed, n);
        assert Expects(u.seed, Frames(h)[..k], Frames(h)[k]);
        ReturnTestIsExact(u.seed, h);
      }
    }
  }
}
