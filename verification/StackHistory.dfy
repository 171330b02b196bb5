/**
 The last 32 writes of the guest stack pointer and the last 32 guest calls, each kept in a ring,
 with one counter that numbers both.
 */
module StackHistory {
  const CAPACITY := 32

  datatype Event = Event(sequence: nat, write: bool, source: nat, detail: nat, depth: nat)

  /** The last n of a sequence, or all of it. */
  function Last<T>(s: seq<T>, n: nat): (r: seq<T>)
    ensures |r| <= n && |r| <= |s|
  {
    if |s| <= n then s else s[|s| - n..]
  }

  // ---- one ring ----

  /** HistorySlot: where the index-th oldest is. */
  function Slot(head: nat, index: nat): (r: nat)
    ensures r < CAPACITY
  {
    (head + index) % CAPACITY
  }

  lemma SlotsDiffer(head: nat, i: nat, j: nat)
    requires head < CAPACITY && i < CAPACITY && j < CAPACITY && i != j
    ensures Slot(head, i) != Slot(head, j)
  {
  }

  lemma SlotAfter(head: nat, i: nat)
    requires head < CAPACITY && i < CAPACITY
    ensures Slot((head + 1) % CAPACITY, i) == Slot(head, i + 1)
    ensures Slot(head, CAPACITY) == head && Slot(head, 0) == head
  {
  }

  class Ring {
    const cells: array<Event>
    var count: nat
    var head: nat

    constructor ()
      ensures Valid() && Contents() == [] && fresh(cells)
    {
      cells := new Event[CAPACITY](_ => Event(0, false, 0, 0, 0));
      count, head := 0, 0;
    }

    predicate Valid()
      reads this
    {
      cells.Length == CAPACITY && count <= CAPACITY && head < CAPACITY
    }

    /** Oldest first, as the readers index it. */
    ghost function Contents(): (r: seq<Event>)
      requires Valid()
      reads this, cells
      ensures |r| == count
    {
      seq(count, i requires 0 <= i < count reads this, cells => cells[Slot(head, i)])
    }

    /** PushBoundedHistory: the oldest gives way when the ring is full. */
    method Push(event: Event)
      requires Valid()
      modifies this, cells
      ensures Valid() && Contents() == Last(old(Contents()) + [event], 32)
    {
      ghost var before := Contents();
      if count < CAPACITY {
        forall i | 0 <= i < count ensures Slot(head, i) != Slot(head, count) { SlotsDiffer(head, i, count); }
        cells[Slot(head, count)] := event;
        count := count + 1;
        assert Contents() == before + [event];
        return;
      }
      var next := (head + 1) % CAPACITY;
      forall i | 1 <= i < CAPACITY ensures Slot(head, i) != head { SlotAfter(head, 0); SlotsDiffer(head, i, 0); }
      forall i | 0 <= i < CAPACITY ensures Slot(next, i) == Slot(head, i + 1) { SlotAfter(head, i); }
      SlotAfter(head, CAPACITY - 1);
      cells[head] := event;
      head := next;
      assert Contents() == before[1..] + [event];
      assert (before + [event])[1..] == before[1..] + [event];
    }
  }

  // ---- both rings ----

  /** The events of one kind, in order. */
  function Kind(log: seq<Event>, write: bool): seq<Event> {
    if log == [] then []
    else Kind(log[..|log| - 1], write) + if log[|log| - 1].write == write then [log[|log| - 1]] else []
  }

  /** Every event ever recorded since the reset, numbered from 1. */
  ghost predicate Numbered(log: seq<Event>) {
    forall i :: 0 <= i < |log| ==> log[i].sequence == i + 1
  }

  class History {
    const writes: Ring
    const calls: Ring
    var sequence: nat
    ghost var log: seq<Event>

    constructor ()
      ensures Valid() && log == [] && fresh(writes) && fresh(calls) && fresh(writes.cells) && fresh(calls.cells)
    {
      writes := new Ring();
      calls := new Ring();
      sequence, log := 0, [];
    }

    ghost predicate Valid()
      reads this, writes, calls, writes.cells, calls.cells
    {
      && writes != calls && writes.cells != calls.cells && writes.Valid() && calls.Valid()
      && sequence == |log| && Numbered(log)
      && writes.Contents() == Last(Kind(log, true), CAPACITY)
      && calls.Contents() == Last(Kind(log, false), CAPACITY)
    }

    lemma Extended(event: Event)
      requires event.sequence == |log| + 1 && Numbered(log)
      ensures Numbered(log + [event])
      ensures Kind(log + [event], event.write) == Kind(log, event.write) + [event]
      ensures Kind(log + [event], !event.write) == Kind(log, !event.write)
    {
      assert (log + [event])[..|log|] == log;
    }

    lemma LastOfLast(s: seq<Event>, event: Event)
      ensures Last(Last(s, CAPACITY) + [event], CAPACITY) == Last(s + [event], CAPACITY)
    {
    }

    /** RecordStackWriteHistory. */
    method RecordWrite(source: nat, detail: nat, depth: nat)
      requires Valid() && sequence + 1 < 0x1_0000_0000
      modifies this, writes, writes.cells
      ensures Valid() && log == old(log) + [Event(old(sequence) + 1, true, source, detail, depth)]
    {
      sequence := sequence + 1;
      var event := Event(sequence, true, source, detail, depth);
      Extended(event);
      LastOfLast(Kind(log, true), event);
      writes.Push(event);
      log := log + [event];
    }

    /** RecordStackCallHistory, with a context. */
    method RecordCall(source: nat, detail: nat, depth: nat)
      requires Valid() && sequence + 1 < 0x1_0000_0000
      modifies this, calls, calls.cells
      ensures Valid() && log == old(log) + [Event(old(sequence) + 1, false, source, detail, depth)]
    {
      sequence := sequence + 1;
      var event := Event(sequence, false, source, detail, depth);
      Extended(event);
      LastOfLast(Kind(log, false), event);
      calls.Push(event);
      log := log + [event];
    }

    /** What a reader gets by sorting the union of both rings by sequence is the true interleaving of what they retain. */
    lemma TimelineIsTrue()
      requires Valid()
      ensures Merge(writes.Contents(), calls.Contents()) == Retained(log, 32, 32)
    {
      MergeIsRetained(log, CAPACITY, CAPACITY);
    }
  }

  /** The events of a log that are among its last w writes or its last c calls, in the log's order. */
  function Retained(log: seq<Event>, w: nat, c: nat): seq<Event> {
    if log == [] then []
    else
      var e, before := log[|log| - 1], log[..|log| - 1];
      if e.write then Retained(before, if w > 0 then w - 1 else 0, c) + (if w > 0 then [e] else [])
      else Retained(before, w, if c > 0 then c - 1 else 0) + (if c > 0 then [e] else [])
  }

  /** Two sequences sorted by sequence number, as one. */
  function Merge(a: seq<Event>, b: seq<Event>): seq<Event>
    decreases |a| + |b|
  {
    if a == [] then b
    else if b == [] then a
    else if a[|a| - 1].sequence > b[|b| - 1].sequence then Merge(a[..|a| - 1], b) + [a[|a| - 1]]
    else Merge(a, b[..|b| - 1]) + [b[|b| - 1]]
  }

  predicate Sorted(s: seq<Event>) {
    forall i, j :: 0 <= i < j < |s| ==> s[i].sequence < s[j].sequence
  }

  lemma MultisetOfLast(s: seq<Event>)
    requires s != []
    ensures multiset(s) == multiset(s[..|s| - 1]) + multiset{s[|s| - 1]}
  {
    assert s == s[..|s| - 1] + [s[|s| - 1]];
  }

  lemma MultisetOfMore(s: seq<Event>, e: Event)
    ensures multiset(s + [e]) == multiset(s) + multiset{e}
  {
  }

  /** Merging loses nothing and adds nothing. */
  lemma {:induction false} MergeKeepsAll(a: seq<Event>, b: seq<Event>)
    ensures multiset(Merge(a, b)) == multiset(a) + multiset(b)
    decreases |a| + |b|
  {
    if a != [] && b != [] {
      var last, other := a[|a| - 1], b[|b| - 1];
      if last.sequence > other.sequence {
        MergeKeepsAll(a[..|a| - 1], b);
        MultisetOfLast(a);
        MultisetOfMore(Merge(a[..|a| - 1], b), last);
      } else {
        MergeKeepsAll(a, b[..|b| - 1]);
        MultisetOfLast(b);
        MultisetOfMore(Merge(a, b[..|b| - 1]), other);
      }
    }
  }

  lemma {:induction false} KindComesFrom(log: seq<Event>, write: bool)
    ensures forall e :: e in Kind(log, write) ==> e in log && e.write == write
  {
    if log != [] {
      KindComesFrom(log[..|log| - 1], write);
    }
  }

  lemma MergeAppendLeft(a: seq<Event>, e: Event, b: seq<Event>)
    requires b != [] ==> e.sequence > b[|b| - 1].sequence
    ensures Merge(a + [e], b) == Merge(a, b) + [e]
  {
    assert (a + [e])[..|a|] == a;
  }

  lemma MergeAppendRight(a: seq<Event>, b: seq<Event>, e: Event)
    requires a != [] ==> a[|a| - 1].sequence < e.sequence
    ensures Merge(a, b + [e]) == Merge(a, b) + [e]
  {
    assert (b + [e])[..|b|] == b;
  }

  lemma LastAppend(s: seq<Event>, e: Event, n: nat)
    requires n > 0
    ensures Last(s + [e], n) == Last(s, n - 1) + [e]
  {
  }

  lemma EarlierIsSmaller(log: seq<Event>, s: seq<Event>)
    requires Numbered(log) && log != [] && forall x :: x in s ==> x in log[..|log| - 1]
    ensures forall x :: x in s ==> x.sequence < log[|log| - 1].sequence
  {
  }

  lemma {:induction false} MergeIsRetained(log: seq<Event>, w: nat, c: nat)
    requires Numbered(log)
    ensures Merge(Last(Kind(log, true), w), Last(Kind(log, false), c)) == Retained(log, w, c)
    decreases |log|
  {
    hide Merge, Last;
    if log == [] {
      assert Kind(log, true) == [] && Kind(log, false) == [];
      MergeOfNothing(w, c);
    } else {
      var e, before := log[|log| - 1], log[..|log| - 1];
      MergeIsRetained(before, if e.write && w > 0 then w - 1 else w, if !e.write && c > 0 then c - 1 else c);
      var other := Last(Kind(before, !e.write), if e.write then c else w);
      assert Kind(log, !e.write) == Kind(before, !e.write);
      KindComesFrom(before, !e.write);
      LastComesFrom(Kind(before, !e.write), if e.write then c else w);
      EarlierIsSmaller(log, other);
      if e.write {
        if w > 0 {
          LastAppend(Kind(before, true), e, w);
          MergeAppendLeft(Last(Kind(before, true), w - 1), e, other);
        } else {
          LastNone(Kind(log, true));
          LastNone(Kind(before, true));
        }
      } else {
        if c > 0 {
          LastAppend(Kind(before, false), e, c);
          MergeAppendRight(other, Last(Kind(before, false), c - 1), e);
        } else {
          LastNone(Kind(log, false));
          LastNone(Kind(before, false));
        }
      }
    }
  }

  lemma MergeOfNothing(w: nat, c: nat)
    ensures Merge(Last([], w), Last([], c)) == []
  {
  }

  lemma LastNone(s: seq<Event>)
    ensures Last(s, 0) == []
  {
  }

  lemma LastComesFrom(s: seq<Event>, n: nat)
    ensures forall x :: x in Last(s, n) ==> x in s
  {
  }

  lemma {:induction false} RetainedComesFrom(log: seq<Event>, w: nat, c: nat)
    ensures forall e :: e in Retained(log, w, c) ==> e in log
  {
    if log != [] {
      var e, before := log[|log| - 1], log[..|log| - 1];
      RetainedComesFrom(before, if e.write && w > 0 then w - 1 else w, if !e.write && c > 0 then c - 1 else c);
    }
  }

  /** The timeline is in the order things happened. */
  lemma {:induction false} TimelineIsSorted(log: seq<Event>, w: nat, c: nat)
    requires Numbered(log)
    ensures Sorted(Retained(log, w, c))
    decreases |log|
  {
    if log != [] {
      var e, before := log[|log| - 1], log[..|log| - 1];
      var w', c' := if e.write && w > 0 then w - 1 else w, if !e.write && c > 0 then c - 1 else c;
      TimelineIsSorted(before, w', c');
      RetainedComesFrom(before, w', c');
      var s := Retained(before, w', c');
      EarlierIsSmaller(log, s);
      forall i | 0 <= i < |s|
        ensures s[i].sequence < e.sequence
      {
        assert s[i] in s;
      }
    }
  }
}
