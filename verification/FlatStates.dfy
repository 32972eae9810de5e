/**
  Flat state sets: the entries of a state table in ascending order, up to a fixed
  capacity; how they are searched, and how two of them are walked side by side.
 */
module FlatStates {
  import opened Bits
  import opened StateTables
  import opened Options

  /** `entries` is the whole fixed array; the first `count` of it are in use. */
  datatype FlatStateSet = FlatStateSet(entries: seq<Entry>, count: nat, hash: nat, overflow: bool) {
    function Live(): (live: seq<Entry>) {
      entries[..if count <= |entries| then count else |entries|]
    }
  }

  /** The value the entries give a state, if any. */
  function Lookup(entries: seq<Entry>, state: nat): (r: Option<nat>) {
    if entries == [] then None
    else if entries[|entries| - 1].state == state then Some(entries[|entries| - 1].value)
    else Lookup(entries[..|entries| - 1], state)
  }

  lemma {:induction false} LookupAt(entries: seq<Entry>, i: nat)
    requires Ascending(entries) && i < |entries|
    ensures Lookup(entries, entries[i].state) == Some(entries[i].value)
  {
    if i < |entries| - 1 {
      LookupAt(entries[..|entries| - 1], i);
    }
  }

  lemma {:induction false} LookupMisses(entries: seq<Entry>, state: nat)
    requires forall i :: 0 <= i < |entries| ==> entries[i].state != state
    ensures Lookup(entries, state) == None
  {
    if entries != [] {
      LookupMisses(entries[..|entries| - 1], state);
    }
  }

  /** Between two neighbours there is nothing. */
  lemma LookupBetween(entries: seq<Entry>, i: nat, state: nat)
    requires Ascending(entries) && i <= |entries|
    requires i > 0 ==> entries[i - 1].state < state
    requires i < |entries| ==> state < entries[i].state
    ensures Lookup(entries, state) == None
  {
    forall j | 0 <= j < |entries| ensures entries[j].state != state {
      if j < i - 1 {
        assert entries[j].state < entries[i - 1].state;
      } else if i < j {
        assert entries[i].state < entries[j].state;
      }
    }
    LookupMisses(entries, state);
  }

  // ----- search -----

  /** Binary search for the first live entry not below the state. */
  method FindFlatState(s: FlatStateSet, state: nat) returns (hit: Option<Entry>)
    requires Ascending(s.Live())
    ensures hit.Some? ==> hit.value in s.Live() && hit.value.state == state
    ensures (if hit.Some? then Some(hit.value.value) else None) == Lookup(s.Live(), state)
  {
    var live := s.Live();
    var first, last := 0, |live|;
    while first < last
      invariant 0 <= first <= last <= |live|
      invariant forall i :: 0 <= i < first ==> live[i].state < state
      invariant forall i :: last <= i < |live| ==> state <= live[i].state
    {
      var middle := first + (last - first) / 2;
      if live[middle].state < state {
        first := middle + 1;
      } else {
        last := middle;
      }
    }
    if first == |live| || live[first].state != state {
      LookupMisses(live, state);
      return None;
    }
    LookupAt(live, first);
    hit := Some(live[first]);
  }

  method FlatStateOr(s: FlatStateSet, state: nat, fallback: nat) returns (value: nat)
    requires Ascending(s.Live())
    ensures value == if Lookup(s.Live(), state).Some? then Lookup(s.Live(), state).value else fallback
  {
    var hit := FindFlatState(s, state);
    value := if hit.Some? then hit.value.value else fallback;
  }

  // ----- making one from a table -----

  function Prefix(entries: seq<Entry>, n: nat): seq<Entry> {
    if n <= |entries| then entries[..n] else entries
  }

  /** The flat set of a table: complete, or cut to the smallest keys and marked so. */
  method MakeFlatStateSet(table: StateValueTable, capacity: nat, digest: (nat, Word) -> nat) returns (s: FlatStateSet)
    requires table.Valid()
    ensures s.overflow <==> |table.contents| > capacity
    ensures Ascending(s.Live()) && |s.entries| == capacity && s.count <= capacity
    ensures s.Live() == Prefix(Listing(table.contents, table.size), capacity)
    ensures forall i :: s.count <= i < capacity ==> s.entries[i] == Entry(0, 0)
    ensures s.hash == digest(table.count, table.rolling)
  {
    KeysInRange(table.State(), table.contents, table.hash);
    var entries := seq(capacity, _ => Entry(0, 0));
    var count := 0;
    ghost var listing := Listing(table.contents, table.size);
    var all := table.Entries();
    while count < |all| && count < capacity
      invariant count <= |all| && count <= |entries| == capacity
      invariant entries[..count] == all[..count]
      invariant forall i :: count <= i < capacity ==> entries[i] == Entry(0, 0)
    {
      assert entries[count := all[count]][..count + 1] == entries[..count] + [all[count]];
      entries := entries[count := all[count]];
      count := count + 1;
    }
    s := FlatStateSet(entries, count, digest(table.count, table.rolling), table.count > capacity);
  }

  lemma {:induction false} LookupListing(m: map<nat, nat>, n: nat, k: nat)
    ensures Lookup(Listing(m, n), k) == if k < n && k in m then Some(m[k]) else None
  {
    if n > 0 {
      LookupListing(m, n - 1, k);
      if n - 1 in m {
        assert Listing(m, n)[..|Listing(m, n)| - 1] == Listing(m, n - 1);
      }
    }
  }

  // ----- the side-by-side walk -----

  const RS_ALPHA_TEST_ENABLE: nat := 15
  const RS_ALPHA_REF: nat := 24
  const RS_ALPHA_FUNC: nat := 25

  predicate IsAlphaTest(state: nat) {
    state == RS_ALPHA_TEST_ENABLE || state == RS_ALPHA_REF || state == RS_ALPHA_FUNC
  }

  predicate Differs(a: seq<Entry>, b: seq<Entry>, state: nat) {
    Lookup(a, state) != Lookup(b, state)
  }

  /** The state comes before both cursors. */
  predicate Passed(a: seq<Entry>, b: seq<Entry>, i: nat, j: nat, state: nat) {
    (i < |a| ==> state < a[i].state) && (j < |b| ==> state < b[j].state)
  }

  /** The cursors stand side by side: each is past nothing the other has not reached. */
  ghost predicate Abreast(a: seq<Entry>, b: seq<Entry>, i: nat, j: nat) {
    && Ascending(a) && Ascending(b) && i <= |a| && j <= |b|
    && (i > 0 && j < |b| ==> a[i - 1].state < b[j].state)
    && (j > 0 && i < |a| ==> b[j - 1].state < a[i].state)
  }

  /** Which cursor the walk moves. */
  datatype Move = Left | Right | Both

  function MoveOf(a: seq<Entry>, b: seq<Entry>, i: nat, j: nat): Move
    requires i <= |a| && j <= |b| && (i < |a| || j < |b|)
  {
    if j == |b| || (i < |a| && a[i].state < b[j].state) then Left
    else if i == |a| || b[j].state < a[i].state then Right
    else Both
  }

  /** One move passes exactly one more state of either side, and it is the state under the moved cursor. */
  lemma MovePasses(a: seq<Entry>, b: seq<Entry>, i: nat, j: nat)
    requires Abreast(a, b, i, j) && (i < |a| || j < |b|)
    ensures
      var m := MoveOf(a, b, i, j);
      var i', j' := (if m == Right then i else i + 1), (if m == Left then j else j + 1);
      var at := if m == Right then b[j].state else a[i].state;
      && Abreast(a, b, i', j')
      && !Passed(a, b, i, j, at) && Passed(a, b, i', j', at)
      && (Differs(a, b, at) <==> m != Both || a[i].value != b[j].value)
      && (forall k: nat :: Passed(a, b, i, j, k) ==> Passed(a, b, i', j', k) && k < at)
      && (forall k: nat :: Passed(a, b, i', j', k) && !Passed(a, b, i, j, k) && Differs(a, b, k) ==> k == at)
  {
    var m := MoveOf(a, b, i, j);
    var i', j' := (if m == Right then i else i + 1), (if m == Left then j else j + 1);
    var at := if m == Right then b[j].state else a[i].state;
    if m != Right { LookupAt(a, i); } else { LookupBetween(a, i, at); }
    if m != Left { LookupAt(b, j); } else { LookupBetween(b, j, at); }
    forall k: nat | Passed(a, b, i', j', k) && !Passed(a, b, i, j, k) && k != at ensures !Differs(a, b, k) {
      LookupBetween(a, i', k);
      LookupBetween(b, j', k);
    }
    hide Lookup;
  }

  lemma WalkStarts(a: seq<Entry>, b: seq<Entry>)
    requires Ascending(a) && Ascending(b)
    ensures Abreast(a, b, 0, 0)
    ensures forall k: nat :: Passed(a, b, 0, 0, k) ==> !Differs(a, b, k)
  {
    forall k: nat | Passed(a, b, 0, 0, k) ensures !Differs(a, b, k) {
      LookupBetween(a, 0, k);
      LookupBetween(b, 0, k);
    }
  }

  /** Both maps agree on every state that is not alpha test. */
  ghost predicate AgreeOutsideAlphaTest(a: seq<Entry>, b: seq<Entry>) {
    forall k: nat :: !IsAlphaTest(k) ==> !Differs(a, b, k)
  }

  /** What the draw-run batch asks of two render-state sets. */
  ghost predicate RenderStatesBatch(a: FlatStateSet, b: FlatStateSet) {
    if a.overflow || b.overflow then a == b else AgreeOutsideAlphaTest(a.Live(), b.Live())
  }

  /** The walk answers whether two complete sets agree outside the alpha-test states. */
  method FlatRenderStatesEqualExceptAlphaTest(a: FlatStateSet, b: FlatStateSet) returns (same: bool)
    requires Ascending(a.Live()) && Ascending(b.Live())
    ensures same <==> RenderStatesBatch(a, b)
  {
    if a.overflow || b.overflow {
      return a == b;
    }
    var p, q, i, j := a.Live(), b.Live(), 0, 0;
    hide Lookup;
    WalkStarts(p, q);
    while i < |p| || j < |q|
      invariant Abreast(p, q, i, j)
      invariant forall k: nat :: Passed(p, q, i, j, k) && !IsAlphaTest(k) ==> !Differs(p, q, k)
      decreases |p| + |q| - i - j
    {
      MovePasses(p, q, i, j);
      if j == |q| || (i < |p| && p[i].state < q[j].state) {
        if !IsAlphaTest(p[i].state) {
          return false;
        }
        i := i + 1;
      } else if i == |p| || q[j].state < p[i].state {
        if !IsAlphaTest(q[j].state) {
          return false;
        }
        j := j + 1;
      } else {
        if p[i].value != q[j].value && !IsAlphaTest(p[i].state) {
          return false;
        }
        i, j := i + 1, j + 1;
      }
    }
    same := true;
  }

  /** Of two tables' flat sets, neither overflowing, it compares the tables. */
  lemma FlatComparesTables(a: FlatStateSet, b: FlatStateSet, m: map<nat, nat>, w: map<nat, nat>, n: nat)
    requires !a.overflow && !b.overflow && a.Live() == Listing(m, n) && b.Live() == Listing(w, n)
    requires forall k :: k in m || k in w ==> k < n
    ensures RenderStatesBatch(a, b) <==> forall k: nat :: Changed(m, w, k) ==> IsAlphaTest(k)
  {
    forall k: nat ensures Differs(a.Live(), b.Live(), k) <==> Changed(m, w, k) {
      LookupListing(m, n, k);
      LookupListing(w, n, k);
    }
  }

  // ----- classifying the differences -----

  datatype Group = AlphaTestGroup | BlendGroup | CullGroup | DepthGroup | FogGroup | TextureFactorGroup | OtherGroup

  datatype DiffClass =
    | AlphaTestOnly | BlendOnly | CullOnly | DepthOnly | FogOnly | TextureFactorOnly | SingleOther | Mixed | NoDiff

  function GroupOf(state: nat): Group {
    if IsAlphaTest(state) then AlphaTestGroup
    else if state in {27, 19, 20, 171, 193, 206, 207, 208, 209} then BlendGroup
    else if state == 22 then CullGroup
    else if state in {7, 14, 23, 195, 175} then DepthGroup
    else if state in {28, 35, 140, 34, 36, 37, 38} then FogGroup
    else if state == 60 then TextureFactorGroup
    else OtherGroup
  }

  function ClassOf(g: Group, count: nat): DiffClass {
    match g
    case AlphaTestGroup => AlphaTestOnly
    case BlendGroup => BlendOnly
    case CullGroup => CullOnly
    case DepthGroup => DepthOnly
    case FogGroup => FogOnly
    case TextureFactorGroup => TextureFactorOnly
    case OtherGroup => if count == 1 then SingleOther else Mixed
  }

  /** Exactly these states differ. */
  ghost predicate DiffSet(a: seq<Entry>, b: seq<Entry>, states: set<nat>) {
    forall k: nat :: k in states <==> Differs(a, b, k)
  }

  /** What a class and a first register say of the differing states. */
  ghost predicate Describes(diff: DiffClass, first: nat, states: set<nat>) {
    && (diff == NoDiff <==> states == {})
    && (states == {} ==> first == 0)
    && (states != {} ==> first in states && forall k :: k in states ==> first <= k)
    && (diff == SingleOther <==> |states| == 1 && forall k :: k in states ==> GroupOf(k) == OtherGroup)
    && (diff == Mixed <==>
          || (exists k, l :: k in states && l in states && GroupOf(k) != GroupOf(l))
          || (|states| > 1 && forall k :: k in states ==> GroupOf(k) == OtherGroup))
    && (forall g: Group :: g != OtherGroup ==>
          (diff == ClassOf(g, 0) <==> states != {} && forall k :: k in states ==> GroupOf(k) == g))
  }

  /** The class and the first register describe exactly the states that differ. */
  ghost predicate DescribesDiff(a: seq<Entry>, b: seq<Entry>, diff: DiffClass, first: nat) {
    exists states :: DiffSet(a, b, states) && Describes(diff, first, states)
  }

  /** The registers of each class, by number. */
  function RegistersOf(diff: DiffClass): set<nat> {
    match diff
    case AlphaTestOnly => {15, 24, 25}
    case BlendOnly => {27, 19, 20, 171, 193, 206, 207, 208, 209}
    case CullOnly => {22}
    case DepthOnly => {7, 14, 23, 195, 175}
    case FogOnly => {28, 35, 140, 34, 36, 37, 38}
    case TextureFactorOnly => {60}
    case _ => {}
  }

  lemma GroupNamed(named: DiffClass) returns (g: Group)
    requires RegistersOf(named) != {}
    ensures g != OtherGroup && ClassOf(g, 0) == named
  {
    g := match named
      case AlphaTestOnly => AlphaTestGroup
      case BlendOnly => BlendGroup
      case CullOnly => CullGroup
      case DepthOnly => DepthGroup
      case FogOnly => FogGroup
      case _ => TextureFactorGroup;
  }

  lemma RegistersAreGroup(named: DiffClass, g: Group, k: nat)
    requires g != OtherGroup && ClassOf(g, 0) == named
    ensures GroupOf(k) == g <==> k in RegistersOf(named)
  {
  }

  /** A class that names a group means that all differing registers are of that group, and some register differs. */
  lemma ClassMeansRegisters(diff: DiffClass, first: nat, states: set<nat>, named: DiffClass)
    requires Describes(diff, first, states) && RegistersOf(named) != {}
    ensures diff == named <==> states != {} && states <= RegistersOf(named)
  {
    hide GroupOf, RegistersOf;
    var g := GroupNamed(named);
    forall k: nat ensures GroupOf(k) == g <==> k in RegistersOf(named) {
      RegistersAreGroup(named, g, k);
    }
  }

  /** What the walk remembers of the states noted so far. */
  ghost predicate Summary(states: set<nat>, groups: set<Group>, count: nat, first: nat) {
    && groups == (set k | k in states :: GroupOf(k)) && count == |states|
    && if states == {} then first == 0 else first in states && forall k :: k in states ==> first <= k
  }

  function ClassFrom(groups: set<Group>, count: nat, first: nat): DiffClass {
    if count == 0 then NoDiff else if |groups| != 1 then Mixed else ClassOf(GroupOf(first), count)
  }

  lemma OneGroup(states: set<nat>, groups: set<Group>, first: nat)
    requires groups == (set k | k in states :: GroupOf(k)) && first in states
    ensures |groups| == 1 <==> forall k :: k in states ==> GroupOf(k) == GroupOf(first)
  {
    hide GroupOf;
    assert forall k :: k in states ==> GroupOf(k) in groups;
    if |groups| == 1 {
      assert |groups - {GroupOf(first)}| == 0;
    }
    if forall k :: k in states ==> GroupOf(k) == GroupOf(first) {
      assert groups == {GroupOf(first)};
    }
  }

  lemma ClassDescribes(states: set<nat>, groups: set<Group>, count: nat, first: nat)
    requires Summary(states, groups, count, first)
    ensures Describes(ClassFrom(groups, count, first), first, states)
  {
    hide GroupOf;
    if states != {} {
      OneGroup(states, groups, first);
    }
  }

  lemma SummaryGrows(states: set<nat>, groups: set<Group>, count: nat, first: nat, k: nat)
    requires Summary(states, groups, count, first) && forall l :: l in states ==> l < k
    ensures Summary(states + {k}, groups + {GroupOf(k)}, count + 1, if count == 0 then k else first)
  {
    hide GroupOf;
    assert k !in states;
    assert groups + {GroupOf(k)} == (set l | l in states + {k} :: GroupOf(l));
    assert |states + {k}| == |states| + 1;
  }

  /** The differing states before both cursors. */
  ghost predicate NotedSoFar(a: seq<Entry>, b: seq<Entry>, i: nat, j: nat, states: set<nat>) {
    forall k: nat :: k in states <==> Passed(a, b, i, j, k) && Differs(a, b, k)
  }

  /** The state the next move notes, if it does. */
  function ToNote(a: seq<Entry>, b: seq<Entry>, i: nat, j: nat): Option<nat>
    requires i <= |a| && j <= |b| && (i < |a| || j < |b|)
  {
    match MoveOf(a, b, i, j)
    case Left => Some(a[i].state)
    case Right => Some(b[j].state)
    case Both => if a[i].value != b[j].value then Some(a[i].state) else None
  }

  lemma NoteNext(a: seq<Entry>, b: seq<Entry>, i: nat, j: nat, states: set<nat>)
    requires Abreast(a, b, i, j) && (i < |a| || j < |b|) && NotedSoFar(a, b, i, j, states)
    ensures
      var m, k := MoveOf(a, b, i, j), ToNote(a, b, i, j);
      var i', j' := (if m == Right then i else i + 1), (if m == Left then j else j + 1);
      && Abreast(a, b, i', j')
      && NotedSoFar(a, b, i', j', if k.Some? then states + {k.value} else states)
      && (k.Some? ==> forall l :: l in states ==> l < k.value)
  {
    MovePasses(a, b, i, j);
    hide Passed, Differs, Abreast;
  }

  /** Walks both sets, noting every state that differs, and names their group. */
  method ClassifyRenderStateDiff(a: FlatStateSet, b: FlatStateSet)
    returns (diff: DiffClass, first: nat)
    requires Ascending(a.Live()) && Ascending(b.Live())
    ensures DescribesDiff(a.Live(), b.Live(), diff, first)
  {
    var p, q, i, j := a.Live(), b.Live(), 0, 0;
    var groups: set<Group>, count := {}, 0;
    first := 0;
    ghost var states: set<nat> := {};
    WalkStarts(p, q);
    hide Lookup, GroupOf;
    assert Summary(states, groups, count, first) && NotedSoFar(p, q, i, j, states);
    hide Summary, NotedSoFar, Abreast;
    while i < |p| || j < |q|
      invariant i <= |p| && j <= |q| && Abreast(p, q, i, j)
      invariant NotedSoFar(p, q, i, j, states) && Summary(states, groups, count, first)
      decreases |p| + |q| - i - j
    {
      NoteNext(p, q, i, j, states);
      var noted: Option<nat> := None;
      if j == |q| || (i < |p| && p[i].state < q[j].state) {
        noted := Some(p[i].state);
        i := i + 1;
      } else if i == |p| || q[j].state < p[i].state {
        noted := Some(q[j].state);
        j := j + 1;
      } else {
        if p[i].value != q[j].value {
          noted := Some(p[i].state);
        }
        i, j := i + 1, j + 1;
      }
      if noted.Some? {
        SummaryGrows(states, groups, count, first, noted.value);
        first := if count == 0 then noted.value else first;
        count := count + 1;
        groups := groups + {GroupOf(noted.value)};
        states := states + {noted.value};
      }
    }
    diff := if count == 0 then NoDiff else if |groups| != 1 then Mixed else ClassOf(GroupOf(first), count);
    ClassDescribes(states, groups, count, first);
    AllNoted(p, q, i, j, states);
  }

  lemma AllNoted(a: seq<Entry>, b: seq<Entry>, i: nat, j: nat, states: set<nat>)
    requires i >= |a| && j >= |b| && NotedSoFar(a, b, i, j, states)
    ensures DiffSet(a, b, states)
  {
  }
}
