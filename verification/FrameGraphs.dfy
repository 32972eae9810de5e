/**
  The frame graph: render passes over slices of one draw array and one command
  array, dependency edges between pass indices, and per-resource access logs.
  Also: paths along the edges, and the depth-first search that decides them.
 */
module FrameGraphs {
  import opened Sequences

  /** One past the largest value of an unsigned 32-bit field. */
  const U32_LIMIT: nat := 0x1_0000_0000

  /** The all-ones index that marks "no pass" and, in an order list, the merged pass. */
  const NO_PASS: nat := 0xFFFF_FFFF

  function ToU32(n: nat): nat {
    n % U32_LIMIT
  }

  datatype PassKind = Render | Compute | Blit | Present | Sync

  datatype CommandKind =
    | DrawRun | Clear | SurfaceCopy | StretchRect | Readback
    | ColorFill | DepthResolve | GenerateMipmaps | PresentCommand

  datatype AttachmentSet = AttachmentSet(color: seq<nat>, depth: nat, colorCount: nat, sampleCount: nat)

  datatype Range = Range(first: nat, count: nat)

  datatype DrawRef = DrawRef(commandIndex: nat, paramFirst: nat, paramCount: nat)

  datatype CommandRef = CommandRef(commandIndex: nat, kind: CommandKind)

  datatype PassFlags = PassFlags(
    containsLock: bool,
    containsOcclusionQuery: bool,
    containsEventQuery: bool,
    dead: bool,
    debugMarker: bool,
    activeRenderSeed: bool)

  /** `loadStore` is the load/store policy, carried along and never read here. */
  datatype PassNode = PassNode(
    kind: PassKind,
    targets: AttachmentSet,
    draws: Range,
    commands: Range,
    stateProfile: nat,
    loadStore: nat,
    flags: PassFlags)

  datatype AccessKind = Read | Write | ReadWrite | Preserve | ClearAccess

  datatype Access = Access(pass: nat, kind: AccessKind, stage: nat)

  datatype Resource = Resource(handle: nat, accesses: seq<Access>, readbackSeen: bool)

  datatype Edge = Edge(src: nat, dst: nat, resource: nat)

  datatype Graph = Graph(
    passes: seq<PassNode>,
    resources: seq<Resource>,
    edges: seq<Edge>,
    draws: seq<DrawRef>,
    commands: seq<CommandRef>)

  /** The mutable frame graph the optimizer passes work on. */
  class FrameGraph {
    var passes: seq<PassNode>
    var resources: seq<Resource>
    var edges: seq<Edge>
    var draws: seq<DrawRef>
    var commands: seq<CommandRef>

    function Value(): Graph
      reads this
    {
      Graph(passes, resources, edges, draws, commands)
    }

    constructor (g: Graph)
      ensures Value() == g
    {
      passes, resources, edges, draws, commands := g.passes, g.resources, g.edges, g.draws, g.commands;
    }
  }

  // ----- ranges -----

  predicate ValidRange(r: Range, length: nat) {
    r.first <= length && r.count <= length - r.first
  }

  predicate ValidCommandRange(g: Graph, p: PassNode) {
    ValidRange(p.commands, |g.commands|)
  }

  predicate ValidDrawRange(g: Graph, p: PassNode) {
    ValidRange(p.draws, |g.draws|)
  }

  predicate ValidPass(g: Graph, p: PassNode) {
    ValidCommandRange(g, p) && ValidDrawRange(g, p)
  }

  ghost predicate RangesValid(g: Graph) {
    forall i :: 0 <= i < |g.passes| ==> ValidPass(g, g.passes[i])
  }

  function Slice<T>(s: seq<T>, r: Range): seq<T> {
    if ValidRange(r, |s|) then s[r.first..r.first + r.count] else []
  }

  /** Row i is the command list pass i owns. */
  function PassCommands(g: Graph): (r: seq<seq<CommandRef>>)
    ensures |r| == |g.passes|
    ensures forall i :: 0 <= i < |r| ==> r[i] == Slice(g.commands, g.passes[i].commands)
  {
    seq(|g.passes|, i requires 0 <= i < |g.passes| => Slice(g.commands, g.passes[i].commands))
  }

  /** Row i is the draw list pass i owns. */
  function PassDraws(g: Graph): (r: seq<seq<DrawRef>>)
    ensures |r| == |g.passes|
    ensures forall i :: 0 <= i < |r| ==> r[i] == Slice(g.draws, g.passes[i].draws)
  {
    seq(|g.passes|, i requires 0 <= i < |g.passes| => Slice(g.draws, g.passes[i].draws))
  }

  ghost predicate DrawOnly(cs: seq<CommandRef>) {
    forall i :: 0 <= i < |cs| ==> cs[i].kind.DrawRun?
  }

  // ----- dependency paths -----

  ghost predicate HasEdge(g: Graph, u: nat, v: nat) {
    && u < |g.passes|
    && v < |g.passes|
    && exists r: nat :: Edge(u, v, r) in g.edges
  }

  /** Every edge between two existing passes runs from the earlier to the later one. */
  ghost predicate Forward(g: Graph) {
    forall u: nat, v: nat :: HasEdge(g, u, v) ==> u < v
  }

  ghost predicate Path(g: Graph, p: seq<nat>) {
    && p != []
    && Bounded(p, |g.passes|)
    && forall i :: 0 < i < |p| ==> HasEdge(g, p[i - 1], p[i])
  }

  ghost predicate PathBetween(g: Graph, p: seq<nat>, u: nat, v: nat) {
    Path(g, p) && p[0] == u && p[|p| - 1] == v
  }

  /** Some path of edges, possibly of length zero, leads from u to v. */
  ghost predicate Reaches(g: Graph, u: nat, v: nat) {
    exists p :: PathBetween(g, p, u, v)
  }

  lemma ReachesSelf(g: Graph, u: nat)
    requires u < |g.passes|
    ensures Reaches(g, u, u)
  {
    assert PathBetween(g, [u], u, u);
  }

  lemma ReachesEdge(g: Graph, u: nat, v: nat)
    requires HasEdge(g, u, v)
    ensures Reaches(g, u, v)
  {
    assert PathBetween(g, [u, v], u, v);
  }

  lemma ReachesTransitive(g: Graph, u: nat, v: nat, w: nat)
    requires Reaches(g, u, v) && Reaches(g, v, w)
    ensures Reaches(g, u, w)
  {
    var p :| PathBetween(g, p, u, v);
    var q :| PathBetween(g, q, v, w);
    var r := p + q[1..];
    forall i | 0 < i < |r| ensures HasEdge(g, r[i - 1], r[i]) {
      if i >= |p| {
        assert r[i] == q[i - |p| + 1];
        assert r[i - 1] == q[i - |p|];
      }
    }
    assert PathBetween(g, r, u, w);
  }

  lemma ReachesThenEdge(g: Graph, u: nat, v: nat, w: nat)
    requires Reaches(g, u, v) && HasEdge(g, v, w)
    ensures Reaches(g, u, w)
  {
    ReachesEdge(g, v, w);
    ReachesTransitive(g, u, v, w);
  }

  /** A set closed under edges holds everything its members reach. */
  lemma {:induction false} ClosedUnderReaches(g: Graph, s: set<nat>, p: seq<nat>)
    requires Path(g, p) && p[0] in s
    requires forall u: nat, v: nat :: u in s && HasEdge(g, u, v) ==> v in s
    ensures p[|p| - 1] in s
  {
    if |p| > 1 {
      var q := p[1..];
      assert HasEdge(g, p[0], p[1]);
      assert forall i :: 0 < i < |q| ==> q[i - 1] == p[i] && q[i] == p[i + 1] && HasEdge(g, p[i], p[i + 1]);
      ClosedUnderReaches(g, s, q);
    }
  }

  lemma {:induction false} PathForward(g: Graph, p: seq<nat>)
    requires Forward(g) && Path(g, p)
    ensures p[0] <= p[|p| - 1]
  {
    if |p| > 1 {
      var q := p[..|p| - 1];
      PathForward(g, q);
      assert HasEdge(g, p[|p| - 2], p[|p| - 1]);
    }
  }

  /** Along forward edges the index never falls. */
  lemma ReachesForward(g: Graph, u: nat, v: nat)
    requires Forward(g) && Reaches(g, u, v)
    ensures u <= v < |g.passes|
  {
    var p :| PathBetween(g, p, u, v);
    PathForward(g, p);
  }

  /** The search so far: everything seen is reached, and everything seen but not stacked is expanded. */
  ghost predicate Explored(g: Graph, from: nat, to: nat, seen: seq<bool>, stack: seq<nat>) {
    && |seen| == |g.passes| && from < |seen| && to < |seen| && seen[from] && !seen[to]
    && (forall i :: 0 <= i < |stack| ==> stack[i] < |seen| && seen[stack[i]])
    && (forall u :: 0 <= u < |seen| && seen[u] ==> Reaches(g, from, u))
    && (forall u: nat, v: nat :: u < |seen| && seen[u] && u !in stack && HasEdge(g, u, v) ==> seen[v])
  }

  function Unseen(seen: seq<bool>): set<nat> {
    set u: nat | u < |seen| && !seen[u]
  }

  /** What the expansion of `cur` has pushed after k edges. */
  ghost predicate Pushed(g: Graph, from: nat, to: nat, cur: nat, was: seq<bool>, rest: seq<nat>,
                         seen: seq<bool>, stack: seq<nat>, k: nat)
  {
    && |seen| == |was| == |g.passes| && to < |seen| && !seen[to] && k <= |g.edges|
    && (forall u :: 0 <= u < |seen| && was[u] ==> seen[u])
    && (forall i :: 0 <= i < |stack| ==> stack[i] < |seen| && seen[stack[i]])
    && (forall u :: 0 <= u < |seen| && seen[u] ==> Reaches(g, from, u))
    && (forall u :: 0 <= u < |seen| && u in rest ==> u in stack)
    && (forall u :: 0 <= u < |seen| && seen[u] && !was[u] ==> u in stack)
    && (forall j :: 0 <= j < k && g.edges[j].src == cur && g.edges[j].dst < |seen| ==> seen[g.edges[j].dst])
    && (Unseen(seen) < Unseen(was) || (seen == was && stack == rest))
  }

  lemma PushNext(g: Graph, from: nat, to: nat, cur: nat, was: seq<bool>, rest: seq<nat>,
                 seen: seq<bool>, stack: seq<nat>, k: nat)
    requires Pushed(g, from, to, cur, was, rest, seen, stack, k) && k < |g.edges| && g.edges[k].src == cur
    requires g.edges[k].dst < |seen| && g.edges[k].dst != to && !seen[g.edges[k].dst] && Reaches(g, from, g.edges[k].dst)
    ensures
      var dst := g.edges[k].dst;
      Pushed(g, from, to, cur, was, rest, seen[dst := true], stack + [dst], k + 1)
  {
    var dst := g.edges[k].dst;
    assert Unseen(seen[dst := true]) == Unseen(seen) - {dst} && dst in Unseen(seen);
    hide Reaches;
  }

  /** Pushes the unseen targets of `cur`, or finds `to` among them. */
  method PushTargets(g: Graph, from: nat, to: nat, cur: nat, was: seq<bool>, rest: seq<nat>)
    returns (found: bool, seen: seq<bool>, stack: seq<nat>)
    requires Explored(g, from, to, was, rest + [cur])
    ensures found ==> Reaches(g, from, to)
    ensures !found ==> Explored(g, from, to, seen, stack)
    ensures !found ==> Unseen(seen) < Unseen(was) || (seen == was && stack == rest)
  {
    seen, stack := was, rest;
    PushNone(g, from, to, cur, was, rest);
    hide Pushed, Explored, Unseen;
    for k := 0 to |g.edges|
      invariant Pushed(g, from, to, cur, was, rest, seen, stack, k)
    {
      var e := g.edges[k];
      PushedFacts(g, from, to, cur, was, rest, seen, stack, k);
      if e.src == cur {
        if e.dst < |g.passes| {
          assert HasEdge(g, cur, e.dst) by { assert Edge(cur, e.dst, e.resource) == e; }
          ReachesThenEdge(g, from, cur, e.dst);
        }
        if e.dst == to {
          return true, seen, stack;
        }
        if e.dst < |g.passes| && !seen[e.dst] {
          PushNext(g, from, to, cur, was, rest, seen, stack, k);
          seen := seen[e.dst := true];
          stack := stack + [e.dst];
        } else {
          PushSkip(g, from, to, cur, was, rest, seen, stack, k);
        }
      } else {
        PushSkip(g, from, to, cur, was, rest, seen, stack, k);
      }
    }
    PushedAll(g, from, to, cur, was, rest, seen, stack);
    found := false;
  }

  lemma PushNone(g: Graph, from: nat, to: nat, cur: nat, was: seq<bool>, rest: seq<nat>)
    requires Explored(g, from, to, was, rest + [cur])
    ensures Pushed(g, from, to, cur, was, rest, was, rest, 0)
    ensures cur < |g.passes| && to < |g.passes| && was[cur] && Reaches(g, from, cur)
  {
    assert (rest + [cur])[|rest|] == cur;
    assert forall i :: 0 <= i < |rest| ==> (rest + [cur])[i] == rest[i];
    hide Reaches, HasEdge;
  }

  lemma PushedFacts(g: Graph, from: nat, to: nat, cur: nat, was: seq<bool>, rest: seq<nat>,
                    seen: seq<bool>, stack: seq<nat>, k: nat)
    requires Pushed(g, from, to, cur, was, rest, seen, stack, k)
    ensures |seen| == |g.passes|
  {
  }

  lemma PushSkip(g: Graph, from: nat, to: nat, cur: nat, was: seq<bool>, rest: seq<nat>,
                 seen: seq<bool>, stack: seq<nat>, k: nat)
    requires Pushed(g, from, to, cur, was, rest, seen, stack, k) && k < |g.edges|
    requires g.edges[k].src == cur && g.edges[k].dst < |seen| ==> seen[g.edges[k].dst]
    ensures Pushed(g, from, to, cur, was, rest, seen, stack, k + 1)
  {
    hide Reaches;
  }

  lemma PushedAll(g: Graph, from: nat, to: nat, cur: nat, was: seq<bool>, rest: seq<nat>, seen: seq<bool>, stack: seq<nat>)
    requires Explored(g, from, to, was, rest + [cur])
    requires Pushed(g, from, to, cur, was, rest, seen, stack, |g.edges|)
    ensures Explored(g, from, to, seen, stack)
    ensures Unseen(seen) < Unseen(was) || (seen == was && stack == rest)
  {
    forall u: nat, v: nat | u < |seen| && seen[u] && u !in stack && HasEdge(g, u, v) ensures seen[v] {
      hide Reaches;
      assert was[u] && u !in rest;
      if u == cur {
        var r: nat :| Edge(u, v, r) in g.edges;
        var j :| 0 <= j < |g.edges| && g.edges[j] == Edge(u, v, r);
      } else {
        assert u !in rest + [cur];
      }
    }
    hide Reaches, HasEdge;
  }

  /**
    Depth-first search with an explicit stack and a seen array. It answers for
    every graph, with cycles, self-edges and edges to passes that do not exist.
   */
  method SearchReaches(g: Graph, from: nat, to: nat) returns (r: bool)
    requires from < |g.passes| && to < |g.passes|
    ensures r == Reaches(g, from, to)
  {
    ReachesSelf(g, from);
    if from == to {
      return true;
    }
    var seen := seq(|g.passes|, _ => false)[from := true];
    var stack: seq<nat> := [from];
    while stack != []
      invariant Explored(g, from, to, seen, stack)
      decreases Unseen(seen), |stack|
    {
      var cur := stack[|stack| - 1];
      var rest := stack[..|stack| - 1];
      assert stack == rest + [cur];
      var found;
      found, seen, stack := PushTargets(g, from, to, cur, seen, rest);
      if found {
        return true;
      }
    }
    NothingLeft(g, from, to, seen);
    r := false;
  }

  lemma NothingLeft(g: Graph, from: nat, to: nat, seen: seq<bool>)
    requires Explored(g, from, to, seen, [])
    ensures !Reaches(g, from, to)
  {
    if Reaches(g, from, to) {
      var p :| PathBetween(g, p, from, to);
      ClosedUnderReaches(g, (set u: nat | u < |seen| && seen[u]), p);
    }
  }
}
