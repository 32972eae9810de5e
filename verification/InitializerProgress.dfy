/**
  The initializer half of a query's progress: the initializer numbers its uploads,
  hands them to the upload tracker, and reports the last value it signalled.
 */
module InitializerProgress {
  import Uploads = QueryUploads
  import Ends = QueryEnds
  import opened Options

  datatype Initializer = Initializer(tracker: Uploads.Uploads, nextValue: nat, lastSignaled: nat)

  const START := Initializer(Uploads.NO_UPLOADS, 1, 0)

  /**
    A flush of the pending uploads, a progress query, or an upload that failed
    before it was queued. `buffer` is the command buffer of a flush, None when it or
    its encoder could not be made.
   */
  datatype Step =
    | Flush(pending: bool, hasEvent: bool, buffer: Option<nat>, signaled: nat, statusOf: nat -> Uploads.UploadStatus)
    | Progress(signaled: nat, statusOf: nat -> Uploads.UploadStatus)
    | FailUpload

  /** The calls one step makes on the tracker. */
  function Calls(i: Initializer, capacity: nat, s: Step): seq<Uploads.Op> {
    match s
    case Progress(signaled, statusOf) => [Uploads.Op.Poll(signaled, statusOf)]
    case FailUpload => [Uploads.Op.Fail]
    case Flush(pending, hasEvent, buffer, signaled, statusOf) =>
      var poll, admit := Uploads.Op.Poll(signaled, statusOf), Uploads.Op.Admit(hasEvent, i.nextValue);
      if !pending then []
      else if !Uploads.Accepts(Uploads.Next(i.tracker, capacity, poll), capacity, hasEvent, i.nextValue) then [poll, admit]
      else if buffer == None then [poll, admit, Uploads.Op.Fail]
      else [poll, admit, Uploads.Op.Append(buffer.value, i.nextValue)]
  }

  /** The tracker after a list of calls. */
  function Called(t: Uploads.Uploads, capacity: nat, ops: seq<Uploads.Op>): Uploads.Uploads
    decreases |ops|
  {
    if ops == [] then t else Uploads.Next(Called(t, capacity, ops[..|ops| - 1]), capacity, ops[|ops| - 1])
  }

  function Next(i: Initializer, capacity: nat, s: Step): Initializer {
    var calls := Calls(i, capacity, s);
    var tracker := Called(i.tracker, capacity, calls);
    if calls != [] && calls[|calls| - 1].Append? then Initializer(tracker, i.nextValue + 1, i.nextValue)
    else i.(tracker := tracker)
  }

  function After(capacity: nat, run: seq<Step>): Initializer {
    if run == [] then START else Next(After(capacity, run[..|run| - 1]), capacity, run[|run| - 1])
  }

  /** All calls of a run on the tracker. */
  function Trace(capacity: nat, run: seq<Step>): seq<Uploads.Op> {
    if run == [] then []
    else
      var init := run[..|run| - 1];
      Trace(capacity, init) + Calls(After(capacity, init), capacity, run[|run| - 1])
  }

  lemma {:induction false} CalledAfter(capacity: nat, ops: seq<Uploads.Op>, more: seq<Uploads.Op>)
    ensures Called(Uploads.After(capacity, ops), capacity, more) == Uploads.After(capacity, ops + more)
    decreases |more|
  {
    if more == [] {
      assert ops + more == ops;
    } else {
      var init := more[..|more| - 1];
      assert (ops + more)[..|ops + more| - 1] == ops + init;
      CalledAfter(capacity, ops, init);
    }
  }

  /** The tracker is what its calls made of it. */
  lemma {:induction false} TrackerIsTraced(capacity: nat, run: seq<Step>)
    ensures After(capacity, run).tracker == Uploads.After(capacity, Trace(capacity, run))
  {
    if run != [] {
      var init := run[..|run| - 1];
      TrackerIsTraced(capacity, init);
      CalledAfter(capacity, Trace(capacity, init), Calls(After(capacity, init), capacity, run[|run| - 1]));
      hide Calls, Called, Uploads.After;
    }
  }

  /** The reported value is the tracker's published one, refused and failed uploads included, and never falls. */
  ghost predicate Reports(i: Initializer) {
    Uploads.Sound(i.tracker) && i.lastSignaled == i.tracker.published && i.nextValue == i.lastSignaled + 1
  }

  lemma NextReports(i: Initializer, capacity: nat, s: Step)
    requires Reports(i)
    ensures Reports(Next(i, capacity, s)) && i.lastSignaled <= Next(i, capacity, s).lastSignaled
  {
    var calls := Calls(i, capacity, s);
    if calls != [] && calls[|calls| - 1].Append? {
      AppendAccepted(i, capacity, s);
    } else {
      CalledQuiet(i.tracker, capacity, calls);
      hide Called;
    }
  }

  /** A flush that gets as far as appending is accepted: the admission before it saw the same tracker. */
  lemma AppendAccepted(i: Initializer, capacity: nat, s: Step)
    requires Reports(i)
    requires
      var calls := Calls(i, capacity, s);
      calls != [] && calls[|calls| - 1].Append?
    ensures
      var t := Called(i.tracker, capacity, Calls(i, capacity, s));
      Uploads.Sound(t) && t.published == i.nextValue
  {
    var calls := Calls(i, capacity, s);
    var two := calls[..2];
    assert calls[..|calls| - 1] == two && two[..1] == [calls[0]] && [calls[0]][..0] == [];
    CalledQuiet(i.tracker, capacity, two);
    var polled := Uploads.Next(i.tracker, capacity, calls[0]);
    assert Called(i.tracker, capacity, [calls[0]]) == polled;
    assert Called(i.tracker, capacity, two) == polled;
    Uploads.NextSound(polled, capacity, calls[2]);
  }

  lemma {:induction false} CalledQuiet(t: Uploads.Uploads, capacity: nat, ops: seq<Uploads.Op>)
    requires Uploads.Sound(t) && forall k :: 0 <= k < |ops| ==> !ops[k].Append?
    ensures Uploads.Sound(Called(t, capacity, ops)) && Called(t, capacity, ops).published == t.published
    decreases |ops|
  {
    if ops != [] {
      var init := ops[..|ops| - 1];
      CalledQuiet(t, capacity, init);
      Uploads.NextSound(Called(t, capacity, init), capacity, ops[|ops| - 1]);
    }
  }

  lemma {:induction false} AlwaysReports(capacity: nat, run: seq<Step>, i: nat)
    requires i <= |run|
    ensures Reports(After(capacity, run)) && After(capacity, run[..i]).lastSignaled <= After(capacity, run).lastSignaled
  {
    assert run[..|run|] == run;
    if run != [] {
      var init := run[..|run| - 1];
      if i < |run| {
        assert init[..i] == run[..i];
        AlwaysReports(capacity, init, i);
      } else {
        AlwaysReports(capacity, init, 0);
      }
      NextReports(After(capacity, init), capacity, run[|run| - 1]);
      hide Next, Reports;
    }
  }

  /** Whether a flush of pending uploads gets as far as the queue. */
  predicate Reaches(i: Initializer, capacity: nat, hasEvent: bool, buffer: Option<nat>, signaled: nat,
                    statusOf: nat -> Uploads.UploadStatus) {
    var polled := Uploads.Next(i.tracker, capacity, Uploads.Op.Poll(signaled, statusOf));
    !polled.failed && |polled.queue| != capacity && hasEvent && i.nextValue < Uploads.U64_MAX && buffer.Some?
  }

  /**
    A flush with nothing pending changes nothing; any other polls first, and then
    either queues its buffer under the next value and reports that, or fails for good.
   */
  lemma FlushExactly(i: Initializer, capacity: nat, hasEvent: bool, buffer: Option<nat>, signaled: nat,
                     statusOf: nat -> Uploads.UploadStatus)
    requires Reports(i)
    ensures Next(i, capacity, Flush(false, hasEvent, buffer, signaled, statusOf)) == i
    ensures
      var polled := Uploads.Next(i.tracker, capacity, Uploads.Op.Poll(signaled, statusOf));
      var n := Next(i, capacity, Flush(true, hasEvent, buffer, signaled, statusOf));
      var ok := Reaches(i, capacity, hasEvent, buffer, signaled, statusOf);
      && n.lastSignaled == (if ok then i.nextValue else i.lastSignaled)
      && n.nextValue == n.lastSignaled + 1
      && n.tracker.failed == !ok && n.tracker.completed == polled.completed
      && n.tracker.queue == polled.queue + (if ok then [Uploads.Entry(buffer.value, i.nextValue)] else [])
  {
    var calls := Calls(i, capacity, Flush(true, hasEvent, buffer, signaled, statusOf));
    hide Calls, Uploads.Ready;
    FlushCalls(i, capacity, hasEvent, buffer, signaled, statusOf);
    CallsInTurn(i.tracker, capacity, calls);
    Uploads.NextSound(i.tracker, capacity, Uploads.Op.Poll(signaled, statusOf));
  }

  lemma FlushCalls(i: Initializer, capacity: nat, hasEvent: bool, buffer: Option<nat>, signaled: nat,
                   statusOf: nat -> Uploads.UploadStatus)
    requires Reports(i)
    ensures Calls(i, capacity, Flush(false, hasEvent, buffer, signaled, statusOf)) == []
    ensures
      var calls := Calls(i, capacity, Flush(true, hasEvent, buffer, signaled, statusOf));
      var polled := Uploads.Next(i.tracker, capacity, Uploads.Op.Poll(signaled, statusOf));
      && 2 <= |calls| <= 3
      && calls[0] == Uploads.Op.Poll(signaled, statusOf) && calls[1] == Uploads.Op.Admit(hasEvent, i.nextValue)
      && (|calls| == 3 <==> Uploads.Accepts(polled, capacity, hasEvent, i.nextValue))
      && (|calls| == 3 ==> calls[2] == if buffer.Some? then Uploads.Op.Append(buffer.value, i.nextValue) else Uploads.Op.Fail)
  {
  }

  lemma CallsInTurn(t: Uploads.Uploads, capacity: nat, ops: seq<Uploads.Op>)
    requires 2 <= |ops| <= 3
    ensures
      var two := Uploads.Next(Uploads.Next(t, capacity, ops[0]), capacity, ops[1]);
      Called(t, capacity, ops) == if |ops| == 2 then two else Uploads.Next(two, capacity, ops[2])
  {
    hide Uploads.Next;
    assert Called(t, capacity, ops[..0]) == t;
    assert ops[..1][..0] == ops[..0] && ops[..2][..1] == ops[..1] && ops[..|ops|] == ops;
    assert Called(t, capacity, ops[..1]) == Uploads.Next(t, capacity, ops[0]);
    assert Called(t, capacity, ops[..2]) == Uploads.Next(Called(t, capacity, ops[..1]), capacity, ops[1]);
  }

  // ----- the progress it gives a query -----

  /** What a progress query reports, with the queue's own half. */
  function Derived(i: Initializer, signaled: nat, queue: nat, published: nat, completed: nat): Ends.Progress {
    Ends.Progress(queue, published, completed, i.tracker.failed, i.lastSignaled, Uploads.Answer(i.tracker, signaled))
  }

  /**
    A fence that took its initializer value from the value reported at an earlier
    moment of the run is never Invalid for it, and is Complete only when every upload
    up to it has been retired and signalled.
   */
  lemma InitializerNeverInvalid(
      capacity: nat, run: seq<Step>, i: nat, signaled: nat, fence: Ends.Fence, queue: nat, published: nat, completed: nat)
    requires i <= |run| && fence.initializer <= After(capacity, run[..i]).lastSignaled
    ensures
      var now := After(capacity, run);
      var answer := Ends.Classify(fence, Derived(now, signaled, queue, published, completed));
      && (answer == Ends.Invalid <==>
            !fence.IsValid() || fence.queue != queue || completed > published || fence.sequence > published)
      && (answer == Ends.Complete ==>
            fence.initializer <= now.tracker.completed && fence.initializer <= signaled && !now.tracker.failed)
      && (now.tracker.failed ==> answer in {Ends.Invalid, Ends.Failed})
  {
    AlwaysReports(capacity, run, i);
  }

  /** So under a Complete answer every upload of the fence was seen complete by some poll of the run. */
  lemma CompleteFenceSawUploads(
      capacity: nat, run: seq<Step>, signaled: nat, fence: Ends.Fence, queue: nat, published: nat, completed: nat, v: nat)
      returns (p: nat)
    requires Ends.Classify(fence, Derived(After(capacity, run), signaled, queue, published, completed)) == Ends.Complete
    requires 0 < v <= fence.initializer
    ensures p < |Trace(capacity, run)| && Uploads.RetiredAt(capacity, Trace(capacity, run), p, v)
  {
    var ops := Trace(capacity, run);
    TrackerIsTraced(capacity, run);
    assert ops[..|ops|] == ops;
    p := Uploads.CompletedWasRetired(capacity, ops, |ops|, v);
  }

  lemma CoveredCompleted(capacity: nat, run: seq<Step>, v: nat)
    requires v > 0 ==> Uploads.RetiredBefore(capacity, Trace(capacity, run), |Trace(capacity, run)|, v)
    ensures v <= After(capacity, run).tracker.completed
  {
    hide After, Trace, Uploads.After;
    TrackerIsTraced(capacity, run);
    var ops := Trace(capacity, run);
    assert ops[..|ops|] == ops;
    if v > 0 {
      var p: nat :| p < |ops| && Uploads.RetiredAt(capacity, ops, p, v);
      Uploads.RunAdvances(capacity, ops, p + 1, |ops|);
    }
  }

  /**
    And it is Complete once it can be: the fence is over a value reported earlier, its
    queue and sequence are published and done, nothing failed, and every upload it
    covers was retired by some poll and is signalled.
   */
  lemma FenceCompletes(
      capacity: nat, run: seq<Step>, i: nat, signaled: nat, fence: Ends.Fence, queue: nat, published: nat, completed: nat)
    requires i <= |run| && fence.initializer <= After(capacity, run[..i]).lastSignaled
    requires fence.IsValid() && fence.queue == queue && fence.sequence <= completed <= published
    requires !After(capacity, run).tracker.failed && fence.initializer <= signaled
    requires forall v: nat :: 0 < v <= fence.initializer ==>
      Uploads.RetiredBefore(capacity, Trace(capacity, run), |Trace(capacity, run)|, v)
    ensures Ends.Classify(fence, Derived(After(capacity, run), signaled, queue, published, completed)) == Ends.Complete
  {
    AlwaysReports(capacity, run, i);
    CoveredCompleted(capacity, run, fence.initializer);
    hide After, Trace;
  }
}
