/**
 extractStfsEntry of wasm-core.js: the loop that feeds the extractor from the package file and
 keeps the first bytes of the result in a capture buffer.
 */
module StfsDriver {
  import opened Options
  import opened LittleEndian
  import opened StfsExtraction
  import opened StfsContents
  import opened StfsExtractor

  datatype Outcome =
    | Extracted(complete: bool, captured: seq<byte>, requests: nat)
    | TooManyRequests
    | InvalidRequest
    | ShortRead

  /** What the directory entry promises. */
  function Promised(pkg: Package, entries: seq<Entry>, index: nat, file: seq<byte>): Option<seq<byte>>
    requires |file| == pkg.fileSize
  {
    if index < |entries| then FileContents(pkg, entries[index], file) else None
  }

  /** done has been delivered so far, the buffer holds as much of it as fits, and the rest is still to come. */
  ghost predicate Underway(pkg: Package, file: seq<byte>, goal: Option<seq<byte>>, st: State, done: seq<byte>, buffer: seq<byte>)
    requires |file| == pkg.fileSize && Inv(pkg, st)
  {
    && AsksRight(pkg, st)
    && |done| == st.bytesDone
    && goal == Prepend(done, Rest(pkg, file, st))
    && buffer[..Min(|done|, |buffer|)] == done[..Min(|done|, |buffer|)]
  }

  lemma PrependTwice(a: seq<byte>, b: seq<byte>, rest: Option<seq<byte>>)
    ensures Prepend(a, Prepend(b, rest)) == Prepend(a + b, rest)
  {
    if rest.Some? {
      assert a + (b + rest.value) == (a + b) + rest.value;
    }
  }

  /** Blocks are counted in order: a data read moves bytesDone by its size, a hash read not at all. */
  lemma SubmitCounts(pkg: Package, st: State, bytes: seq<byte>)
    requires Inv(pkg, st) && st.request.Some?
    requires |bytes| == st.request.value.size
    requires st.request.value.kind.DataBlockRead? ==> st.bytesDone + |bytes| <= st.bytesTotal
    ensures Submit(pkg, st, bytes).bytesDone
            == if st.request.value.kind.DataBlockRead? then st.bytesDone + |bytes| else st.bytesDone
    ensures Submit(pkg, st, bytes).bytesTotal == st.bytesTotal && Submit(pkg, st, bytes).expected == st.expected
  {
    hide DataOffset, HashOffset;
  }

  /** The buffer with some of the bytes read copied in at bytesDone. */
  function CopiedIn(buffer: seq<byte>, read: seq<byte>, dest: nat): (r: seq<byte>)
    ensures |r| == |buffer|
  {
    if dest < |buffer| then
      var take := Min(|read|, |buffer| - dest);
      buffer[..dest] + read[..take] + buffer[dest + take..]
    else buffer
  }

  /** Copying a read in at the end of what has been delivered disturbs none of it. */
  lemma CopiedInKeeps(buffer: seq<byte>, read: seq<byte>, done: seq<byte>)
    requires buffer[..Min(|done|, |buffer|)] == done[..Min(|done|, |buffer|)]
    ensures var b := CopiedIn(buffer, read, |done|);
            && b[..Min(|done|, |b|)] == done[..Min(|done|, |b|)]
            && b[..Min(|done + read|, |b|)] == (done + read)[..Min(|done + read|, |b|)]
  {
    var b := CopiedIn(buffer, read, |done|);
    if |done| < |buffer| {
      assert buffer[..|done|] == done;
      var take := Min(|read|, |buffer| - |done|);
      assert b[..|done|] == done;
      assert b[..|done| + take] == done + read[..take];
      assert (done + read)[..|done| + take] == done + read[..take];
    } else {
      assert (done + read)[..|b|] == done[..|b|];
    }
  }

  lemma RequestFits(pkg: Package, st: State)
    requires Inv(pkg, st) && st.request.Some?
    ensures InFile(pkg, st.request.value.offset, st.request.value.size)
    ensures st.request.value.kind.DataBlockRead? ==> st.bytesDone + st.request.value.size <= st.bytesTotal
  {
  }

  /** One turn of the loop. */
  lemma TurnKeepsUnderway(pkg: Package, file: seq<byte>, goal: Option<seq<byte>>, st: State, done: seq<byte>, buffer: seq<byte>)
    requires |file| == pkg.fileSize && Inv(pkg, st) && st.request.Some?
    requires Underway(pkg, file, goal, st, done, buffer)
    ensures var read := Served(file, st.request.value);
            && Inv(pkg, Submit(pkg, st, read))
            && Bound(Submit(pkg, st, read)) < Bound(st)
            && Submit(pkg, st, read).bytesTotal == st.bytesTotal
            && Underway(pkg, file, goal, Submit(pkg, st, read), done + Delivered(file, st.request.value),
                        CopiedIn(buffer, read, st.bytesDone))
  {
    hide Inv, Rest, AsksRight, Submit;
    var req := st.request.value;
    assert InFile(pkg, req.offset, req.size) && (req.kind.DataBlockRead? ==> st.bytesDone + req.size <= st.bytesTotal)
    by {
      RequestFits(pkg, st);
    }
    var read := Served(file, req);
    SubmitAdvances(pkg, st, read);
    SubmitAsksRight(pkg, st, read);
    SubmitFollows(pkg, file, st);
    SubmitCounts(pkg, st, read);
    PrependTwice(done, Delivered(file, req), Rest(pkg, file, Submit(pkg, st, read)));
    CopiedInKeeps(buffer, read, done);
    if !req.kind.DataBlockRead? {
      assert done + [] == done;
    }
  }

  lemma BoundIsPositive(pkg: Package, st: State)
    requires Inv(pkg, st) && st.request.Some?
    ensures Bound(st) > 0
  {
  }

  lemma BeginExpects(pkg: Package, entries: seq<Entry>, index: nat)
    ensures var st := Begin(pkg, entries, index);
            && st.bytesDone == 0
            && (st.request.Some? ==> index < |entries| && st.expected == CeilBlocks(entries[index].length))
  {
    hide DataOffset;
  }

  /** When nothing is pending any more, either all of the goal has been delivered or there is none. */
  lemma CompleteDelivers(pkg: Package, file: seq<byte>, goal: Option<seq<byte>>, st: State, done: seq<byte>, buffer: seq<byte>)
    requires |file| == pkg.fileSize && Inv(pkg, st) && st.request.None? && |buffer| <= st.bytesTotal
    requires Underway(pkg, file, goal, st, done, buffer)
    ensures st.status.Complete? <==> goal.Some?
    ensures st.status.Complete? ==> buffer <= goal.value && |goal.value| == st.bytesTotal
  {
    if st.status.Complete? {
      assert done + [] == done;
      assert goal == Some(done);
      assert buffer == done[..|buffer|];
    }
  }

  /**
   Begins an entry and serves its requests from the file. When the entry's chain holds, what comes
   back is complete and its capture buffer is the start of the file; when the chain is broken, it
   is not complete. Neither error a request could meet can happen, and the request limit is met
   only by an entry of so many blocks that 4 * blocks - 3 is above it.
   */
  method ExtractStfsEntry(x: Extractor, file: seq<byte>, index: nat, maxRequests: nat, captureLimit: int)
    returns (out: Outcome)
    requires x.visited.Length == VISITED_BYTES && |file| == x.pkg.fileSize
    modifies x, x.visited
    ensures out.Extracted? || out.TooManyRequests?
    ensures var goal := Promised(x.pkg, x.entries, index, file);
            out.Extracted? ==>
              && (out.complete <==> goal.Some?)
              && out.requests <= maxRequests
              && (out.complete ==> out.captured <= goal.value)
              && (out.complete ==> |out.captured| == Min(|goal.value|, if captureLimit < 0 then 0 else captureLimit))
    ensures out.TooManyRequests? ==>
              index < |x.entries| && maxRequests < 4 * CeilBlocks(x.entries[index].length) - 3
    ensures out.TooManyRequests? ==> x.Abs() == IDLE
  {
    hide Inv, Rest, AsksRight, Submit, StfsExtraction.Begin;
    x.Begin(index);
    ghost var goal := Promised(x.pkg, x.entries, index, file);
    BeginKeeps(x.pkg, x.entries, index);
    BeginDeliversTheFile(x.pkg, file, x.entries, index);
    BeginExpects(x.pkg, x.entries, index);
    ghost var most := Bound(x.Abs());
    var captureBytes := Min(x.bytesTotal, if captureLimit < 0 then 0 else captureLimit);
    var captured: seq<byte> := seq(captureBytes, _ => 0);
    var requests := 0;
    ghost var done: seq<byte> := [];
    assert goal == Prepend([], Rest(x.pkg, file, x.Abs())) by {
      PrependNothing(goal);
    }
    while x.pending
      invariant Inv(x.pkg, x.Abs())
      invariant Underway(x.pkg, file, goal, x.Abs(), done, captured)
      invariant requests + Bound(x.Abs()) <= most && requests <= maxRequests
      invariant |captured| == captureBytes == Min(x.bytesTotal, if captureLimit < 0 then 0 else captureLimit)
      decreases Bound(x.Abs())
    {
      RequestFits(x.pkg, x.Abs());
      TurnKeepsUnderway(x.pkg, file, goal, x.Abs(), done, captured);
      if requests + 1 > maxRequests {
        BoundIsPositive(x.pkg, x.Abs());
        x.Reset();
        return TooManyRequests;
      }
      requests := requests + 1;
      if x.requestSize == 0 || x.requestSize > IO_CAPACITY {
        return InvalidRequest;
      }
      var staged := file[Min(x.requestOffset, |file|)..Min(x.requestOffset + x.requestSize, |file|)];
      if |staged| != x.requestSize {
        return ShortRead;
      }
      assert staged == Served(file, x.Abs().request.value);
      done := done + Delivered(file, x.Abs().request.value);
      captured := CopiedIn(captured, staged, x.bytesDone);
      x.SubmitRead(staged);
    }
    CompleteDelivers(x.pkg, file, goal, x.Abs(), done, captured);
    out := Extracted(x.status.Complete?, captured, requests);
  }
}
