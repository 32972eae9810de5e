/** Uploads in flight, in a fixed ring; they retire strictly in order. */
module QueryUploads {

  const U64_MAX: nat := 0xFFFF_FFFF_FFFF_FFFF

  datatype UploadStatus = Pending | Complete | Failed

  datatype Entry = Entry(buffer: nat, value: nat)

  const NOTHING := Entry(0, 0)

  /** Position i places after head. */
  function Slot(head: nat, i: nat, capacity: nat): (s: nat)
    requires head < capacity && i <= capacity
    ensures s < capacity
    ensures s == (head + i) % capacity
  {
    Wraps(head + i, capacity);
    if head + i < capacity then head + i else head + i - capacity
  }

  lemma Wraps(n: nat, capacity: nat)
    requires 0 < capacity && n < 2 * capacity
    ensures n % capacity == if n < capacity then n else n - capacity
  {
    if n >= capacity {
      assert n == capacity * 1 + (n - capacity);
      assert (n - capacity) % capacity == n - capacity;
      assert n / capacity == 1;
    }
  }

  /** The entries in use, oldest first. */
  function Ring(entries: seq<Entry>, head: nat, count: nat): (q: seq<Entry>)
    requires head < |entries| && count <= |entries|
    ensures |q| == count && forall i :: 0 <= i < count ==> q[i] == entries[Slot(head, i, |entries|)]
  {
    seq(count, i requires 0 <= i < count => entries[Slot(head, i, |entries|)])
  }

  lemma RingPush(entries: seq<Entry>, head: nat, count: nat, e: Entry)
    requires head < |entries| && count < |entries|
    ensures Ring(entries[(head + count) % |entries| := e], head, count + 1) == Ring(entries, head, count) + [e]
  {
    var n := |entries|;
    assert Slot(head, count, n) == (head + count) % n;
    assert forall i :: 0 <= i < count ==> Slot(head, i, n) != Slot(head, count, n);
  }

  lemma RingPop(entries: seq<Entry>, head: nat, count: nat)
    requires head < |entries| && 0 < count <= |entries|
    ensures Ring(entries, head, count)[0] == entries[head]
    ensures Ring(entries[head := NOTHING], (head + 1) % |entries|, count - 1) == Ring(entries, head, count)[1..]
  {
    var n := |entries|;
    Wraps(head + 1, n);
    assert Slot(head, 0, n) == head;
    var next := (head + 1) % n;
    assert forall i :: 0 <= i < count - 1 ==> Slot(next, i, n) == Slot(head, i + 1, n) != head;
  }

  /** How many uploads at the front have completed. */
  function Ready(queue: seq<Entry>, statusOf: nat -> UploadStatus): (k: nat)
    ensures k <= |queue|
    ensures forall i :: 0 <= i < k ==> statusOf(queue[i].buffer) == Complete
    ensures k < |queue| ==> statusOf(queue[k].buffer) != Complete
  {
    if queue == [] || statusOf(queue[0].buffer) != Complete then 0 else 1 + Ready(queue[1..], statusOf)
  }

  /** Values run on from the completed one without a gap. */
  predicate Numbered(queue: seq<Entry>, completed: nat) {
    forall i :: 0 <= i < |queue| ==> queue[i].value == completed + 1 + i
  }

  /** The queue, the completed value and the failure after k uploads of `was` were retired. */
  ghost predicate Retired(was: seq<Entry>, k: nat, now: seq<Entry>, before: nat, completed: nat) {
    k <= |was| && now == was[k..] && completed == before + k
  }

  lemma RetireOne(was: seq<Entry>, k: nat, now: seq<Entry>, before: nat, completed: nat, statusOf: nat -> UploadStatus)
    requires Retired(was, k, now, before, completed) && now != []
    ensures Retired(was, k + 1, now[1..], before, completed + 1)
    ensures now[0] == was[k]
    ensures Ready(was[k..], statusOf) == if statusOf(was[k].buffer) == Complete then 1 + Ready(was[k + 1..], statusOf) else 0
  {
    assert was[k..][1..] == was[k + 1..];
  }

  lemma RetireNone(was: seq<Entry>, completed: nat)
    ensures Retired(was, 0, was, completed, completed)
    ensures was[0..] == was
  {
  }

  ghost predicate Stopped(was: seq<Entry>, k: nat, statusOf: nat -> UploadStatus, before: bool) {
    if before then k == 0 else k == Ready(was, statusOf) && k < |was| && statusOf(was[k].buffer) == Failed
  }

  lemma RetiredAll(was: seq<Entry>, k: nat, now: seq<Entry>, before: nat, completed: nat, statusOf: nat -> UploadStatus)
    requires Retired(was, k, now, before, completed) && now == []
    ensures Ready(was[k..], statusOf) == 0
  {
  }

  // ----- the tracker on values, and its runs -----

  datatype Uploads = Uploads(queue: seq<Entry>, published: nat, completed: nat, failed: bool)

  datatype Op =
    | Admit(hasEvent: bool, next: nat)
    | Append(buffer: nat, value: nat)
    | Poll(signaled: nat, statusOf: nat -> UploadStatus)
    | Fail

  const NO_UPLOADS := Uploads([], 0, 0, false)

  predicate Accepts(t: Uploads, capacity: nat, hasEvent: bool, next: nat) {
    !t.failed && |t.queue| != capacity && hasEvent && next != U64_MAX && next != 0 && next == t.published + 1
  }

  /** One call on the tracker. */
  function Next(t: Uploads, capacity: nat, op: Op): Uploads {
    match op
    case Admit(hasEvent, next) => if Accepts(t, capacity, hasEvent, next) then t else t.(failed := true)
    case Append(buffer, value) =>
      if Accepts(t, capacity, true, value) then t.(queue := t.queue + [Entry(buffer, value)], published := value)
      else t.(failed := true)
    case Poll(_, statusOf) =>
      if t.failed then t
      else
        var k := Ready(t.queue, statusOf);
        t.(queue := t.queue[k..], completed := t.completed + k,
           failed := k < |t.queue| && statusOf(t.queue[k].buffer) == Failed)
    case Fail => t.(failed := true)
  }

  /** What a poll answers, from the state it leaves. */
  function Answer(t: Uploads, signaled: nat): (progress: nat)
    ensures progress <= t.completed && progress <= signaled
  {
    if t.completed < signaled then t.completed else signaled
  }

  function After(capacity: nat, run: seq<Op>): Uploads {
    if run == [] then NO_UPLOADS else Next(After(capacity, run[..|run| - 1]), capacity, run[|run| - 1])
  }

  /** The pending values are exactly those after the completed one, up to the published one. */
  predicate Sound(t: Uploads) {
    t.published == t.completed + |t.queue| && t.published < U64_MAX && Numbered(t.queue, t.completed)
  }

  lemma NextSound(t: Uploads, capacity: nat, op: Op)
    requires Sound(t)
    ensures
      var u := Next(t, capacity, op);
      Sound(u) && t.completed <= u.completed && t.published <= u.published && (t.failed ==> u.failed && u.completed == t.completed)
  {
  }

  lemma {:induction false} AlwaysSound(capacity: nat, run: seq<Op>)
    ensures Sound(After(capacity, run))
  {
    if run != [] {
      hide Next, Sound;
      AlwaysSound(capacity, run[..|run| - 1]);
      NextSound(After(capacity, run[..|run| - 1]), capacity, run[|run| - 1]);
    }
  }

  /** Along a run nothing published or completed is taken back, and a failure ends all progress. */
  lemma {:induction false} RunAdvances(capacity: nat, run: seq<Op>, i: nat, j: nat)
    requires i <= j <= |run|
    ensures
      var t, u := After(capacity, run[..i]), After(capacity, run[..j]);
      t.completed <= u.completed && t.published <= u.published && (t.failed ==> u.failed && u.completed == t.completed)
  {
    hide Next, Sound, After;
    if i < j {
      RunAdvances(capacity, run, i, j - 1);
      AlwaysSound(capacity, run[..j - 1]);
      NextAt(capacity, run, j - 1);
      NextSound(After(capacity, run[..j - 1]), capacity, run[j - 1]);
    }
  }

  lemma NextAt(capacity: nat, run: seq<Op>, i: nat)
    requires i < |run|
    ensures After(capacity, run[..i + 1]) == Next(After(capacity, run[..i]), capacity, run[i])
  {
    assert run[..i + 1][..i] == run[..i];
  }

  /** The answer of the poll at step i of a run. */
  function Result(capacity: nat, run: seq<Op>, i: nat): nat
    requires i < |run| && run[i].Poll?
  {
    Answer(After(capacity, run[..i + 1]), run[i].signaled)
  }

  /** Polls never go back while the signalled value does not. */
  lemma ResultsRise(capacity: nat, run: seq<Op>, i: nat, j: nat)
    requires i <= j < |run| && run[i].Poll? && run[j].Poll? && run[i].signaled <= run[j].signaled
    ensures Result(capacity, run, i) <= Result(capacity, run, j)
  {
    RunAdvances(capacity, run, i + 1, j + 1);
  }

  /** Step a published upload v with this buffer. */
  predicate PublishedAt(capacity: nat, run: seq<Op>, a: nat, v: nat, buffer: nat)
    requires a < |run|
  {
    run[a] == Append(buffer, v) && Accepts(After(capacity, run[..a]), capacity, true, v)
  }

  /** Step p is a poll that saw upload v complete and retired it. */
  ghost predicate RetiredAt(capacity: nat, run: seq<Op>, p: nat, v: nat)
    requires p < |run|
  {
    && run[p].Poll?
    && After(capacity, run[..p]).completed < v <= After(capacity, run[..p + 1]).completed
    && exists a: nat, buffer: nat ::
         a < p && PublishedAt(capacity, run, a, v, buffer) && run[p].statusOf(buffer) == Complete
  }

  ghost predicate RetiredBefore(capacity: nat, run: seq<Op>, i: nat, v: nat)
    requires i <= |run|
  {
    exists p: nat :: p < i && RetiredAt(capacity, run, p, v)
  }

  /** Every pending upload was published by an earlier step. */
  lemma {:induction false} PendingWasPublished(capacity: nat, run: seq<Op>, i: nat, e: Entry) returns (a: nat)
    requires i <= |run| && e in After(capacity, run[..i]).queue
    ensures a < i && PublishedAt(capacity, run, a, e.value, e.buffer)
  {
    var before := After(capacity, run[..i - 1]);
    NextAt(capacity, run, i - 1);
    if e in before.queue {
      a := PendingWasPublished(capacity, run, i - 1, e);
    } else {
      a := i - 1;
      FreshIsAppended(before, capacity, run[i - 1], e);
    }
  }

  lemma FreshIsAppended(t: Uploads, capacity: nat, op: Op, e: Entry)
    requires e in Next(t, capacity, op).queue && e !in t.queue
    ensures op == Append(e.buffer, e.value) && Accepts(t, capacity, true, e.value)
  {
  }

  /** A poll that passes v saw it complete. */
  lemma PassedIsSeen(t: Uploads, capacity: nat, op: Op, v: nat)
    requires Sound(t) && t.completed < v <= Next(t, capacity, op).completed
    ensures op.Poll? && v - t.completed - 1 < |t.queue|
    ensures
      var e := t.queue[v - t.completed - 1];
      e.value == v && op.statusOf(e.buffer) == Complete
  {
  }

  /** Every completed upload was retired by some poll. */
  lemma {:induction false} CompletedWasRetired(capacity: nat, run: seq<Op>, i: nat, v: nat) returns (p: nat)
    requires i <= |run| && 0 < v <= After(capacity, run[..i]).completed
    ensures p < i && RetiredAt(capacity, run, p, v)
  {
    var before := After(capacity, run[..i - 1]);
    AlwaysSound(capacity, run[..i - 1]);
    NextAt(capacity, run, i - 1);
    if v <= before.completed {
      p := CompletedWasRetired(capacity, run, i - 1, v);
    } else {
      p := i - 1;
      PassedIsSeen(before, capacity, run[p], v);
      var e := before.queue[v - before.completed - 1];
      var a := PendingWasPublished(capacity, run, p, e);
      hide Next, Sound, PublishedAt;
    }
  }

  /** A result k: k is signalled and published, and each upload up to k was seen complete by a poll no later than this one. */
  lemma ResultMeans(capacity: nat, run: seq<Op>, i: nat, v: nat) returns (p: nat)
    requires i < |run| && run[i].Poll? && 0 < v <= Result(capacity, run, i)
    ensures v <= run[i].signaled && v <= After(capacity, run[..i + 1]).published
    ensures p <= i && RetiredAt(capacity, run, p, v)
  {
    AlwaysSound(capacity, run[..i + 1]);
    p := CompletedWasRetired(capacity, run, i + 1, v);
  }

  /** And no less: a result reaches v exactly when v is signalled and some poll up to this one retired upload v. */
  lemma ResultExactly(capacity: nat, run: seq<Op>, i: nat, v: nat)
    requires i < |run| && run[i].Poll? && v > 0
    ensures v <= Result(capacity, run, i) <==>
      v <= run[i].signaled && exists p: nat :: p <= i && RetiredAt(capacity, run, p, v)
  {
    hide RetiredAt, After, Next;
    if v <= Result(capacity, run, i) {
      var p := ResultMeans(capacity, run, i, v);
    }
    if p: nat :| p <= i && RetiredAt(capacity, run, p, v) {
      RetiredReaches(capacity, run, p, i, v);
    }
  }

  lemma RetiredReaches(capacity: nat, run: seq<Op>, p: nat, i: nat, v: nat)
    requires p <= i < |run| && RetiredAt(capacity, run, p, v)
    ensures v <= After(capacity, run[..i + 1]).completed
  {
    hide After, Next;
    RunAdvances(capacity, run, p + 1, i + 1);
  }

  /** Upload v was published before step i, and its buffer is complete as step i polls. */
  ghost predicate DoneAt(capacity: nat, run: seq<Op>, i: nat, v: nat)
    requires i < |run| && run[i].Poll?
  {
    exists a: nat, buffer: nat :: a < i && PublishedAt(capacity, run, a, v, buffer) && run[i].statusOf(buffer) == Complete
  }

  lemma {:induction false} PublishedOnce(capacity: nat, run: seq<Op>, a: nat, b: nat, v: nat, x: nat, y: nat)
    requires a < |run| && b < |run| && PublishedAt(capacity, run, a, v, x) && PublishedAt(capacity, run, b, v, y)
    ensures a == b && x == y
  {
    if a < b {
      NextAt(capacity, run, a);
      RunAdvances(capacity, run, a + 1, b);
    } else if b < a {
      NextAt(capacity, run, b);
      RunAdvances(capacity, run, b + 1, a);
    }
  }

  /**
    A poll before any failure passes exactly the published uploads up to the first
    that is not complete.
   */
  lemma PollPassesExactly(capacity: nat, run: seq<Op>, i: nat, v: nat)
    requires i < |run| && run[i].Poll? && !After(capacity, run[..i]).failed
    requires After(capacity, run[..i]).completed < v <= After(capacity, run[..i]).published
    ensures v <= After(capacity, run[..i + 1]).completed <==>
      forall w :: After(capacity, run[..i]).completed < w <= v ==> DoneAt(capacity, run, i, w)
  {
    hide After, Sound, Ready, DoneAt, EntryOf;
    var t := After(capacity, run[..i]);
    AlwaysSound(capacity, run[..i]);
    NextAt(capacity, run, i);
    forall w | t.completed < w <= v ensures DoneAt(capacity, run, i, w) <==> run[i].statusOf(EntryOf(t, w).buffer) == Complete {
      DoneExactly(capacity, run, i, w);
    }
    ReadyReaches(t, capacity, run[i], v);
  }

  /** Whether a pending upload is done as the step polls is what its entry says. */
  lemma DoneExactly(capacity: nat, run: seq<Op>, i: nat, w: nat)
    requires i < |run| && run[i].Poll? && Sound(After(capacity, run[..i]))
    requires After(capacity, run[..i]).completed < w <= After(capacity, run[..i]).published
    ensures DoneAt(capacity, run, i, w) <==> run[i].statusOf(EntryOf(After(capacity, run[..i]), w).buffer) == Complete
  {
    hide After, Sound, PublishedAt, EntryOf;
    var e := EntryOf(After(capacity, run[..i]), w);
    var a := PendingWasPublished(capacity, run, i, e);
    forall b: nat, y: nat | b < i && PublishedAt(capacity, run, b, w, y) ensures y == e.buffer {
      PublishedOnce(capacity, run, a, b, w, e.buffer, y);
    }
  }

  lemma ReadyReaches(t: Uploads, capacity: nat, op: Op, v: nat)
    requires Sound(t) && op.Poll? && !t.failed && t.completed < v <= t.published
    ensures v <= Next(t, capacity, op).completed <==>
      forall w :: t.completed < w <= v ==> op.statusOf(EntryOf(t, w).buffer) == Complete
  {
    var k := Ready(t.queue, op.statusOf);
    if t.completed + k < v {
      assert EntryOf(t, t.completed + k + 1) == t.queue[k];
    }
  }

  /** The pending upload of value w. */
  ghost function EntryOf(t: Uploads, w: nat): (e: Entry)
    requires Sound(t) && t.completed < w <= t.published
    ensures e in t.queue && e.value == w
  {
    t.queue[w - t.completed - 1]
  }

  /** What can fail the tracker: an explicit failure, a refused upload, or a failed buffer met by a poll after complete ones only. */
  ghost predicate FailsAt(capacity: nat, run: seq<Op>, i: nat)
    requires i < |run|
  {
    var t := After(capacity, run[..i]);
    match run[i]
    case Fail => true
    case Admit(hasEvent, next) => |t.queue| == capacity || !hasEvent || next != t.published + 1 || next >= U64_MAX
    case Append(_, next) => |t.queue| == capacity || next != t.published + 1 || next >= U64_MAX
    case Poll(_, statusOf) =>
      exists k :: 0 <= k < |t.queue| && statusOf(t.queue[k].buffer) == Failed
        && forall j :: 0 <= j < k ==> statusOf(t.queue[j].buffer) == Complete
  }

  /** The tracker has failed exactly when some step of the run failed it. */
  lemma {:induction false} FailedExactly(capacity: nat, run: seq<Op>, i: nat)
    requires i <= |run|
    ensures After(capacity, run[..i]).failed <==> exists j: nat :: j < i && FailsAt(capacity, run, j)
  {
    hide After, Next, Sound, FailsAt;
    if i == 0 {
      NothingYet(capacity, run);
    } else {
      FailedExactly(capacity, run, i - 1);
      NextAt(capacity, run, i - 1);
      AlwaysSound(capacity, run[..i - 1]);
      FailsNow(capacity, run, i - 1);
    }
  }

  lemma NothingYet(capacity: nat, run: seq<Op>)
    ensures After(capacity, run[..0]) == NO_UPLOADS
  {
  }

  lemma FailsNow(capacity: nat, run: seq<Op>, i: nat)
    requires i < |run| && Sound(After(capacity, run[..i]))
    ensures
      var t := After(capacity, run[..i]);
      Next(t, capacity, run[i]).failed <==> t.failed || FailsAt(capacity, run, i)
  {
    hide After;
    var t := After(capacity, run[..i]);
    if run[i].Poll? && !t.failed {
      var k := Ready(t.queue, run[i].statusOf);
      if k < |t.queue| {
        assert run[i].statusOf(t.queue[k].buffer) != Complete;
      }
    }
  }

  /** In order: an upload is never retired by a later poll than the one after it. */
  lemma RetiredInOrder(capacity: nat, run: seq<Op>, p: nat, q: nat, u: nat, v: nat)
    requires p < |run| && q < |run| && u <= v && RetiredAt(capacity, run, p, u) && RetiredAt(capacity, run, q, v)
    ensures p <= q
  {
    if q < p {
      RunAdvances(capacity, run, q + 1, p);
    }
  }

  // ----- the tracker -----

  class UploadTracker {
    const capacity: nat
    const entries: array<Entry>
    var head: nat
    var count: nat
    var published: nat
    var completed: nat
    var failed: bool

    /** The pending uploads, oldest first. */
    ghost function Queue(): (q: seq<Entry>)
      requires entries.Length == capacity && head < capacity && count <= capacity
      reads this`head, this`count, entries
    {
      Ring(entries[..], head, count)
    }

    ghost function Value(): Uploads
      requires entries.Length == capacity && head < capacity && count <= capacity
      reads this, entries
    {
      Uploads(Queue(), published, completed, failed)
    }

    ghost predicate Valid()
      reads this, entries
    {
      entries.Length == capacity && head < capacity && count <= capacity && Sound(Value())
    }

    constructor (capacity: nat)
      requires capacity > 0
      ensures Valid() && this.capacity == capacity && Value() == NO_UPLOADS
      ensures fresh(entries)
    {
      this.capacity := capacity;
      entries := new Entry[capacity](_ => NOTHING);
      head, count, published, completed, failed := 0, 0, 0, 0, false;
    }

    /** Refusing an upload fails the tracker for good. */
    method Admit(hasEvent: bool, next: nat) returns (ok: bool)
      requires Valid() && next <= U64_MAX
      modifies this`failed
      ensures Valid() && Value() == Next(old(Value()), capacity, Op.Admit(hasEvent, next))
      ensures ok == Accepts(old(Value()), capacity, hasEvent, next)
      ensures ok <==> !old(failed) && count < capacity && hasEvent && next == published + 1 && next < U64_MAX
    {
      if failed || count == capacity || !hasEvent || next == U64_MAX || next == 0 || next != published + 1 {
        Fail();
        return false;
      }
      ok := true;
    }

    method Append(buffer: nat, value: nat) returns (ok: bool)
      requires Valid() && value <= U64_MAX
      modifies this, entries
      ensures Valid() && Value() == Next(old(Value()), capacity, Op.Append(buffer, value))
      ensures ok == Accepts(old(Value()), capacity, true, value)
      ensures ok <==> !old(failed) && old(count) < capacity && value == old(published) + 1 && value < U64_MAX
    {
      ok := Admit(true, value);
      if !ok {
        return;
      }
      RingPush(entries[..], head, count, Entry(buffer, value));
      entries[(head + count) % capacity] := Entry(buffer, value);
      count := count + 1;
      published := value;
      assert entries[..] == old(entries[..])[(head + old(count)) % capacity := Entry(buffer, value)];
      assert count == old(count) + 1 && head == old(head);
      assert Queue() == old(Queue()) + [Entry(buffer, value)];
    }

    /** Retires the completed uploads at the front, in order; one failure stops everything. */
    method Poll(signaled: nat, statusOf: nat -> UploadStatus) returns (progress: nat)
      requires Valid()
      modifies this, entries
      ensures Valid() && Value() == Next(old(Value()), capacity, Op.Poll(signaled, statusOf))
      ensures progress == Answer(Value(), signaled) && progress <= published
      ensures progress <= completed && progress <= signaled && (progress == completed || progress == signaled)
    {
      hide Ring, Numbered, Ready, Slot;
      ghost var was, k := Queue(), 0;
      RetireNone(was, completed);
      while !failed && count != 0
        invariant Valid() && published == old(published)
        invariant Retired(was, k, Queue(), old(completed), completed)
        invariant if failed then Stopped(was, k, statusOf, old(failed))
                  else !old(failed) && Ready(was, statusOf) == k + Ready(was[k..], statusOf)
        decreases count, failed
      {
        var first := entries[head];
        RingPop(entries[..], head, count);
        RetireOne(was, k, Queue(), old(completed), completed, statusOf);
        var status := statusOf(first.buffer);
        if status == Failed {
          Fail();
          break;
        }
        if status != Complete {
          break;
        }
        PopHead();
        k := k + 1;
      }
      if count == 0 {
        RetiredAll(was, k, Queue(), old(completed), completed, statusOf);
      }
      progress := if completed < signaled then completed else signaled;
    }

    /** Drops the head of the ring. */
    method PopHead()
      requires Valid() && count > 0
      modifies this`head, this`count, this`completed, entries
      ensures Valid() && Queue() == old(Queue())[1..] && completed == old(completed) + 1 && count == old(count) - 1
    {
      RingPop(entries[..], head, count);
      assert entries[head] == Queue()[0];
      completed := entries[head].value;
      entries[head] := NOTHING;
      head := (head + 1) % capacity;
      count := count - 1;
      assert entries[..] == old(entries[..])[old(head) := NOTHING];
    }

    method Fail()
      requires Valid()
      modifies this`failed
      ensures Valid() && Value() == Next(old(Value()), capacity, Op.Fail)
    {
      failed := true;
    }
  }
}
