/**
  Dependency edges from access logs. The builder records an edge to a new access
  only from the most recent write and the reads since; this is enough for every
  pair of conflicting passes to be joined by a path, and merging keeps it so.
 */
module Hazards {
  import opened Sequences
  import opened FrameGraphs
  import opened Coalescing
  import opened Provenance
  import opened Execution
  import opened Fixpoint

  predicate Reads(k: AccessKind) {
    k.Read? || k.ReadWrite?
  }

  predicate Writes(k: AccessKind) {
    k.Write? || k.ClearAccess? || k.ReadWrite?
  }

  predicate Touches(k: AccessKind) {
    Reads(k) || Writes(k)
  }

  /** Both touch the resource and one of them writes it. */
  predicate Conflict(x: Access, y: Access) {
    Touches(x.kind) && Touches(y.kind) && (Writes(x.kind) || Writes(y.kind))
  }

  /** Conflicting accesses of two different passes are joined by a path. */
  ghost predicate LogOrdered(g: Graph, log: seq<Access>) {
    forall i, j ::
      && 0 <= i < |log| && 0 <= j < |log|
      && log[i].pass < log[j].pass < |g.passes|
      && Conflict(log[i], log[j])
      ==> Reaches(g, log[i].pass, log[j].pass)
  }

  ghost predicate HazardComplete(g: Graph) {
    forall r :: 0 <= r < |g.resources| ==> LogOrdered(g, g.resources[r].accesses)
  }

  // ----- the edges one new access adds -----

  /** An edge once, and never from a pass to itself. */
  function AddOnce(es: seq<Edge>, src: nat, dst: nat, handle: nat): seq<Edge> {
    if src == dst || Edge(src, dst, handle) in es then es else es + [Edge(src, dst, handle)]
  }

  /** Index of the last write among the first k accesses, or -1. */
  function LastWrite(log: seq<Access>, k: nat): (i: int)
    requires k <= |log|
    ensures -1 <= i < k
    ensures i >= 0 ==> Writes(log[i].kind)
    ensures forall j :: i < j < k ==> !Writes(log[j].kind)
  {
    if k == 0 then -1
    else if Writes(log[k - 1].kind) then k - 1
    else LastWrite(log, k - 1)
  }

  /** Edges from the reads in log[from..k] to the new access. */
  function ReadEdges(es: seq<Edge>, log: seq<Access>, from: nat, k: nat, pass: nat, handle: nat): seq<Edge>
    requires k <= |log|
  {
    if k <= from then es
    else
      var prev := ReadEdges(es, log, from, k - 1, pass, handle);
      if Reads(log[k - 1].kind) then AddOnce(prev, log[k - 1].pass, pass, handle) else prev
  }

  function HazardEdges(es: seq<Edge>, log: seq<Access>, pass: nat, kind: AccessKind, handle: nat): seq<Edge> {
    var w := LastWrite(log, |log|);
    var raw := if Reads(kind) && w >= 0 then AddOnce(es, log[w].pass, pass, handle) else es;
    if !Writes(kind) then raw
    else
      var waw := if w >= 0 then AddOnce(raw, log[w].pass, pass, handle) else raw;
      ReadEdges(waw, log, w + 1, |log|, pass, handle)
  }

  /** The edge leads from another pass in the log to this one. */
  predicate FromLog(e: Edge, log: seq<Access>, pass: nat) {
    e.dst == pass && e.src != pass && exists i :: 0 <= i < |log| && log[i].pass == e.src
  }

  lemma {:induction false} ReadEdgesFacts(es: seq<Edge>, log: seq<Access>, from: nat, k: nat, pass: nat, handle: nat)
    requires k <= |log|
    ensures forall e :: e in es ==> e in ReadEdges(es, log, from, k, pass, handle)
    ensures forall i :: from <= i < k && Reads(log[i].kind) && log[i].pass != pass ==>
      Edge(log[i].pass, pass, handle) in ReadEdges(es, log, from, k, pass, handle)
    ensures forall e :: e in ReadEdges(es, log, from, k, pass, handle) && e !in es ==> FromLog(e, log, pass)
  {
    if k > from {
      ReadEdgesFacts(es, log, from, k - 1, pass, handle);
    }
  }

  lemma HazardEdgesFacts(es: seq<Edge>, log: seq<Access>, pass: nat, kind: AccessKind, handle: nat)
    ensures forall e :: e in es ==> e in HazardEdges(es, log, pass, kind, handle)
    ensures forall e :: e in HazardEdges(es, log, pass, kind, handle) && e !in es ==> FromLog(e, log, pass)
    ensures
      var w := LastWrite(log, |log|);
      w >= 0 && Touches(kind) && log[w].pass != pass ==>
        Edge(log[w].pass, pass, handle) in HazardEdges(es, log, pass, kind, handle)
    ensures
      var w := LastWrite(log, |log|);
      Writes(kind) ==> forall i :: w < i < |log| && Reads(log[i].kind) && log[i].pass != pass ==>
        Edge(log[i].pass, pass, handle) in HazardEdges(es, log, pass, kind, handle)
  {
    var w := LastWrite(log, |log|);
    var raw := if Reads(kind) && w >= 0 then AddOnce(es, log[w].pass, pass, handle) else es;
    var waw := if w >= 0 then AddOnce(raw, log[w].pass, pass, handle) else raw;
    assert HazardEdges(es, log, pass, kind, handle)
        == if Writes(kind) then ReadEdges(waw, log, w + 1, |log|, pass, handle) else raw;
    hide HazardEdges, ReadEdges, AddOnce, LastWrite;
    if w >= 0 {
      AddOnceFacts(es, log[w].pass, pass, handle);
      AddOnceFacts(raw, log[w].pass, pass, handle);
      assert log[w].pass != pass ==> FromLog(Edge(log[w].pass, pass, handle), log, pass);
    }
    hide FromLog;
    if Writes(kind) {
      ReadEdgesFacts(waw, log, w + 1, |log|, pass, handle);
    }
  }

  lemma AddOnceFacts(es: seq<Edge>, src: nat, dst: nat, handle: nat)
    ensures forall e :: e in es ==> e in AddOnce(es, src, dst, handle)
    ensures src != dst ==> Edge(src, dst, handle) in AddOnce(es, src, dst, handle)
    ensures forall e :: e in AddOnce(es, src, dst, handle) && e !in es ==> e == Edge(src, dst, handle) && src != dst
  {
  }

  method AddEdgeOnce(es: seq<Edge>, src: nat, dst: nat, handle: nat) returns (out: seq<Edge>)
    ensures out == AddOnce(es, src, dst, handle)
  {
    if src == dst {
      return es;
    }
    for i := 0 to |es|
      invariant Edge(src, dst, handle) !in es[..i]
    {
      if es[i].src == src && es[i].dst == dst && es[i].resource == handle {
        assert es[i] == Edge(src, dst, handle);
        return es;
      }
    }
    assert es[..|es|] == es;
    return es + [Edge(src, dst, handle)];
  }

  /** Hazard-edge inference against the strictly earlier accesses. */
  method AddDependencyEdges(es: seq<Edge>, log: seq<Access>, pass: nat, kind: AccessKind, handle: nat)
    returns (out: seq<Edge>)
    ensures out == HazardEdges(es, log, pass, kind, handle)
  {
    out := es;
    var last := -1;
    for i := 0 to |log|
      invariant last == LastWrite(log, i)
    {
      if Writes(log[i].kind) {
        last := i;
      }
    }
    if Reads(kind) && last >= 0 {
      out := AddEdgeOnce(out, log[last].pass, pass, handle);
    }
    if Writes(kind) {
      if last >= 0 {
        out := AddEdgeOnce(out, log[last].pass, pass, handle);
      }
      ghost var start := out;
      for i := last + 1 to |log|
        invariant out == ReadEdges(start, log, last + 1, i, pass, handle)
      {
        if Reads(log[i].kind) {
          out := AddEdgeOnce(out, log[i].pass, pass, handle);
        }
      }
    }
  }

  // ----- one access keeps the logs ordered -----

  /** More edges and more passes keep every path. */
  lemma ReachesMonotone(g: Graph, h: Graph, u: nat, v: nat)
    requires |g.passes| <= |h.passes| && forall e :: e in g.edges ==> e in h.edges
    requires Reaches(g, u, v)
    ensures Reaches(h, u, v)
  {
    var p :| PathBetween(g, p, u, v);
    forall i | 0 < i < |p| ensures HasEdge(h, p[i - 1], p[i]) {
      assert HasEdge(g, p[i - 1], p[i]);
    }
    assert PathBetween(h, p, u, v);
  }

  lemma HazardMonotone(g: Graph, h: Graph, log: seq<Access>)
    requires |g.passes| <= |h.passes| && forall e :: e in g.edges ==> e in h.edges
    requires LogOrdered(g, log) && forall i :: 0 <= i < |log| ==> log[i].pass < |g.passes|
    ensures LogOrdered(h, log)
  {
    forall i, j
      | && 0 <= i < |log| && 0 <= j < |log|
        && log[i].pass < log[j].pass < |h.passes|
        && Conflict(log[i], log[j])
      ensures Reaches(h, log[i].pass, log[j].pass)
    {
      ReachesMonotone(g, h, log[i].pass, log[j].pass);
    }
  }

  /** After the hazard edges of `y` are in, everything `y` conflicts with leads to it. */
  lemma ConflictReachesNew(g: Graph, log: seq<Access>, y: Access, handle: nat, i: nat)
    requires LogOrdered(g, log) && i < |log| && y.pass < |g.passes|
    requires forall j :: 0 <= j < |log| ==> log[j].pass <= y.pass
    requires forall e :: e in HazardEdges([], log, y.pass, y.kind, handle) ==> e in g.edges
    requires log[i].pass < y.pass && Conflict(log[i], y)
    requires forall j, k :: 0 <= j <= k < |log| ==> log[j].pass <= log[k].pass
    ensures Reaches(g, log[i].pass, y.pass)
  {
    var w := LastWrite(log, |log|);
    HazardEdgesFacts([], log, y.pass, y.kind, handle);
    if w < i {
      assert HasEdge(g, log[i].pass, y.pass) by {
        assert Edge(log[i].pass, y.pass, handle) in g.edges;
      }
      ReachesEdge(g, log[i].pass, y.pass);
    } else {
      assert Touches(y.kind) && Writes(log[w].kind);
      if log[i].pass == log[w].pass {
        ReachesSelf(g, log[i].pass);
      } else {
        assert Conflict(log[i], log[w]);
      }
      if log[w].pass != y.pass {
        assert HasEdge(g, log[w].pass, y.pass) by {
          assert Edge(log[w].pass, y.pass, handle) in g.edges;
        }
        ReachesThenEdge(g, log[i].pass, log[w].pass, y.pass);
      }
    }
  }

  /** The edge list grows the same way whatever it already holds. */
  lemma {:induction false} ReadEdgesFromEmpty(es: seq<Edge>, fs: seq<Edge>, log: seq<Access>, from: nat, k: nat,
                                              pass: nat, handle: nat)
    requires k <= |log| && forall e :: e in fs ==> e in es
    ensures forall e :: e in ReadEdges(fs, log, from, k, pass, handle) ==> e in ReadEdges(es, log, from, k, pass, handle)
  {
    if k > from {
      ReadEdgesFromEmpty(es, fs, log, from, k - 1, pass, handle);
    }
  }

  lemma HazardEdgesFromEmpty(es: seq<Edge>, log: seq<Access>, pass: nat, kind: AccessKind, handle: nat)
    ensures forall e :: e in HazardEdges([], log, pass, kind, handle) ==> e in HazardEdges(es, log, pass, kind, handle)
  {
    var w := LastWrite(log, |log|);
    var raw0 := if Reads(kind) && w >= 0 then AddOnce([], log[w].pass, pass, handle) else [];
    var raw := if Reads(kind) && w >= 0 then AddOnce(es, log[w].pass, pass, handle) else es;
    var waw0 := if w >= 0 then AddOnce(raw0, log[w].pass, pass, handle) else raw0;
    var waw := if w >= 0 then AddOnce(raw, log[w].pass, pass, handle) else raw;
    ReadEdgesFromEmpty(waw, waw0, log, w + 1, |log|, pass, handle);
  }

  /** Appending an access after adding its edges keeps its log ordered. */
  lemma LogOrderedAppend(g: Graph, log: seq<Access>, y: Access, handle: nat)
    requires LogOrdered(g, log) && y.pass < |g.passes|
    requires forall j :: 0 <= j < |log| ==> log[j].pass <= y.pass
    requires forall j, k :: 0 <= j <= k < |log| ==> log[j].pass <= log[k].pass
    requires forall e :: e in HazardEdges([], log, y.pass, y.kind, handle) ==> e in g.edges
    ensures LogOrdered(g, log + [y])
  {
    var next := log + [y];
    forall i, j
      | && 0 <= i < |next| && 0 <= j < |next|
        && next[i].pass < next[j].pass < |g.passes|
        && Conflict(next[i], next[j])
      ensures Reaches(g, next[i].pass, next[j].pass)
    {
      if j == |log| {
        ConflictReachesNew(g, log, y, handle, i);
      } else {
        assert i < |log|;
        assert LogOrdered(g, log) && next[i] == log[i] && next[j] == log[j];
      }
    }
  }

  // ----- merging keeps the hazard model complete -----

  lemma DescendantHazards(g0: Graph, g: Graph, origins: seq<seq<nat>>)
    requires Descends(g0, g, origins) && Forward(g0) && Forward(g) && HazardComplete(g0)
    ensures HazardComplete(g)
  {
    DescentBounds(g0, g, origins);
    forall r | 0 <= r < |g.resources| ensures LogOrdered(g, g.resources[r].accesses) {
      var old0, log := g0.resources[r].accesses, g.resources[r].accesses;
      assert ResourceFollows(g0, origins, g0.resources[r], g.resources[r]);
      assert LogOrdered(g0, old0);
      forall i, j
        | && 0 <= i < |log| && 0 <= j < |log|
          && log[i].pass < log[j].pass < |g.passes|
          && Conflict(log[i], log[j])
        ensures Reaches(g, log[i].pass, log[j].pass)
      {
        assert AccessFollows(g0, origins, old0[i], log[i]) && AccessFollows(g0, origins, old0[j], log[j]);
        ConflictKept(g0, g, origins, old0[i], old0[j], log[i], log[j], old0, i, j);
      }
    }
  }

  lemma ConflictKept(g0: Graph, g: Graph, origins: seq<seq<nat>>, x: Access, y: Access, x1: Access, y1: Access,
                     log: seq<Access>, i: nat, j: nat)
    requires Descends(g0, g, origins) && Forward(g0) && Forward(g) && |g.passes| <= |g0.passes|
    requires LogOrdered(g0, log) && i < |log| && j < |log| && log[i] == x && log[j] == y
    requires AccessFollows(g0, origins, x, x1) && AccessFollows(g0, origins, y, y1)
    requires x1.pass < y1.pass < |g.passes| && Conflict(x1, y1)
    ensures Reaches(g, x1.pass, y1.pass)
  {
    var u, v := x.pass, y.pass;
    assert u in origins[x1.pass] && v in origins[y1.pass];
    if u == v {
      GroupsDisjoint(origins, |g0.passes|, x1.pass, y1.pass, u);
    } else if u < v {
      assert Reaches(g0, u, v);
    } else {
      assert Reaches(g0, v, u);
      NotBackward(g, x1.pass, y1.pass);
    }
  }

  /** The optimized frame's edges still join every conflicting pair of passes. */
  lemma CoalescedHazards(g: Graph)
    requires WellFormed(g) && HazardComplete(g)
    ensures HazardComplete(Coalesced(g))
  {
    CoalescedDescends(g);
    var origins := Origins(g);
    DescendantHazards(g, Coalesced(g), origins);
  }

  // ----- meaning in terms of resources -----

  /** No access of pass u conflicts with an access of pass v. */
  ghost predicate Independent(g: Graph, u: nat, v: nat) {
    forall r, i, j ::
      && 0 <= r < |g.resources| && 0 <= i < |g.resources[r].accesses| && 0 <= j < |g.resources[r].accesses|
      && g.resources[r].accesses[i].pass == u && g.resources[r].accesses[j].pass == v
      ==> !Conflict(g.resources[r].accesses[i], g.resources[r].accesses[j])
  }

  /** The logs tell the machine's whole story: passes whose accesses do not conflict commute. */
  ghost predicate HonoursLogs<S(!new)>(m: Machine<S>, g: Graph) {
    forall u: nat, v: nat ::
      u < |g.passes| && v < |g.passes| && u != v && Independent(g, u, v) ==> Commute(m, g, u, v)
  }

  lemma LogsCoverMeaning<S(!new)>(m: Machine<S>, g: Graph)
    requires HazardComplete(g) && HonoursLogs(m, g)
    ensures Respects(m, g)
  {
    forall u: nat, v: nat
      | u < |g.passes| && v < |g.passes| && !Reaches(g, u, v) && !Reaches(g, v, u)
      ensures Commute(m, g, u, v)
    {
      ReachesSelf(g, u);
      UnjoinedIndependent(g, u, v);
    }
  }

  lemma UnjoinedIndependent(g: Graph, u: nat, v: nat)
    requires HazardComplete(g) && u < |g.passes| && v < |g.passes| && u != v
    requires !Reaches(g, u, v) && !Reaches(g, v, u)
    ensures Independent(g, u, v)
  {
    forall r, i, j
      | && 0 <= r < |g.resources| && 0 <= i < |g.resources[r].accesses| && 0 <= j < |g.resources[r].accesses|
        && g.resources[r].accesses[i].pass == u && g.resources[r].accesses[j].pass == v
      ensures !Conflict(g.resources[r].accesses[i], g.resources[r].accesses[j])
    {
      assert LogOrdered(g, g.resources[r].accesses);
    }
  }

  /** Optimizing a hazard-complete frame is invisible to any machine that only sees its accesses. */
  lemma CoalescedFrameRunsAlike<S(!new)>(m: Machine<S>, g: Graph, st: S)
    requires WellFormed(g) && HazardComplete(g) && HonoursLogs(m, g)
    ensures Run(m, Coalesced(g), st) == Run(m, g, st)
  {
    LogsCoverMeaning(m, g);
    CoalescedRunsAlike(m, g, st);
  }
}
