/**
 * The disabled-node bypass of `Workflow.prune_source_links`, on values.
 *
 * For one link the loop keeps the pair (final source node, final source
 * slot). While the node it names is disabled, it finds the first link in
 * table order that lands on that node at that slot number and adopts that
 * link's RAW source. The loop has no cycle guard; this module describes its
 * run step by step and proves that |edges| + 1 iterations decide whether it
 * ever stops.
 */
module Bypass {
  import opened Outcomes

  /** The six fields of one entry of the workflow's `links` array. */
  datatype Edge = Edge(id: int, srcNode: int, srcPos: int, dstNode: int, dstPos: int, dataType: string)

  predicate LandsAt(e: Edge, node: int, pos: int) {
    e.dstNode == node && e.dstPos == pos
  }

  predicate LeavesFrom(e: Edge, node: int, pos: int) {
    e.srcNode == node && e.srcPos == pos
  }

  /** The index of the first edge, in table order, whose destination is (node, pos). */
  function FirstByDst(edges: seq<Edge>, node: int, pos: int): (r: Option<nat>)
    ensures r.Some? ==> r.value < |edges| && LandsAt(edges[r.value], node, pos)
    ensures r.Some? ==> forall j :: 0 <= j < r.value ==> !LandsAt(edges[j], node, pos)
    ensures r.None? <==> forall j :: 0 <= j < |edges| ==> !LandsAt(edges[j], node, pos)
  {
    if edges == [] then None
    else if LandsAt(edges[0], node, pos) then Some(0)
    else match FirstByDst(edges[1..], node, pos)
      case None => None
      case Some(k) => Some(k + 1)
  }

  /** The index of the first edge, in table order, whose source is (node, pos). */
  function FirstBySrc(edges: seq<Edge>, node: int, pos: int): (r: Option<nat>)
    ensures r.Some? ==> r.value < |edges| && LeavesFrom(edges[r.value], node, pos)
    ensures r.Some? ==> forall j :: 0 <= j < r.value ==> !LeavesFrom(edges[j], node, pos)
    ensures r.None? <==> forall j :: 0 <= j < |edges| ==> !LeavesFrom(edges[j], node, pos)
  {
    if edges == [] then None
    else if LeavesFrom(edges[0], node, pos) then Some(0)
    else match FirstBySrc(edges[1..], node, pos)
      case None => None
      case Some(k) => Some(k + 1)
  }

  /**
   * Where the loop for one link stands. `node` and `pos` are always the
   * link's current final_src_node and final_src_pos.
   *   Running: the loop condition holds, another iteration follows;
   *   Stopped: the loop condition is false, the loop has exited;
   *   GaveUp:  no link lands on the disabled node, the loop broke out;
   *   Missing: `self.nodes[key]` raised KeyError.
   */
  datatype Walk =
    | Running(node: int, pos: int)
    | Stopped(node: int, pos: int)
    | GaveUp(node: int, pos: int)
    | Missing(node: int, pos: int, key: int)

  /** The state after `src_node = self.nodes[node]` with the finals at (node, pos). */
  function Classify(disabled: map<int, bool>, node: int, pos: int): Walk {
    if node !in disabled then Missing(node, pos, node)
    else if disabled[node] then Running(node, pos)
    else Stopped(node, pos)
  }

  /**
   * The state before the first test of the loop condition: `src_node` is the
   * node of the RAW source, while the finals hold whatever the link holds.
   */
  function Start(disabled: map<int, bool>, srcNode: int, finalNode: int, finalPos: int): Walk {
    if srcNode !in disabled then Missing(finalNode, finalPos, srcNode)
    else if disabled[srcNode] then Running(finalNode, finalPos)
    else Stopped(finalNode, finalPos)
  }

  /** One iteration of the loop body; a state that is not Running stays as it is. */
  function Step(edges: seq<Edge>, disabled: map<int, bool>, w: Walk): Walk {
    match w
    case Running(node, pos) =>
      (match FirstByDst(edges, node, pos)
       case None => GaveUp(node, pos)
       case Some(j) => Classify(disabled, edges[j].srcNode, edges[j].srcPos))
    case _ => w
  }

  /**
   * The same iteration for any transition function. The arguments below
   * about repetition need nothing of Step but that it is a function, and
   * they are cheaper to check without Step's definition in view.
   */
  function IterF(f: Walk -> Walk, w: Walk, k: nat): Walk {
    if k == 0 then w else f(IterF(f, w, k - 1))
  }

  /** Step as a function value. */
  function StepFn(edges: seq<Edge>, disabled: map<int, bool>): Walk -> Walk {
    x => Step(edges, disabled, x)
  }

  /** The state after k iterations. */
  function Iterate(edges: seq<Edge>, disabled: map<int, bool>, w: Walk, k: nat): Walk {
    IterF(StepFn(edges, disabled), w, k)
  }

  /** The number of iterations after which a loop that goes on never stops. */
  function Bound(edges: seq<Edge>): nat {
    |edges| + 1
  }

  /** The state after Bound(edges) iterations: the outcome of the loop. */
  function Resolve(edges: seq<Edge>, disabled: map<int, bool>, w: Walk): Walk {
    Iterate(edges, disabled, w, Bound(edges))
  }

  /** The state of a link just built by `Link.__init__`, whose finals equal its source. */
  function FreshStart(disabled: map<int, bool>, e: Edge): Walk {
    Start(disabled, e.srcNode, e.srcNode, e.srcPos)
  }

  // ---------------------------------------------------------------------
  // Once the loop has exited it stays exited.

  /** A transition that leaves every state that is not Running as it is. */
  ghost predicate Absorbing(f: Walk -> Walk) {
    forall x: Walk :: !x.Running? ==> f(x) == x
  }

  lemma {:induction false} StepAbsorbing(edges: seq<Edge>, disabled: map<int, bool>)
    ensures Absorbing(StepFn(edges, disabled))
  {
    forall x: Walk | !x.Running? ensures StepFn(edges, disabled)(x) == x {
      assert StepFn(edges, disabled)(x) == Step(edges, disabled, x);
    }
  }

  lemma {:induction false} StaysStoppedF(f: Walk -> Walk, w: Walk, k: nat, m: nat)
    requires Absorbing(f) && k <= m
    requires !IterF(f, w, k).Running?
    ensures IterF(f, w, m) == IterF(f, w, k)
    decreases m - k
  {
    if k < m {
      StaysStoppedF(f, w, k, m - 1);
      assert IterF(f, w, m) == f(IterF(f, w, m - 1));
    }
  }

  lemma {:induction false} StaysStopped(edges: seq<Edge>, disabled: map<int, bool>, w: Walk, k: nat, m: nat)
    requires k <= m
    requires !Iterate(edges, disabled, w, k).Running?
    ensures Iterate(edges, disabled, w, m) == Iterate(edges, disabled, w, k)
  {
    StepAbsorbing(edges, disabled);
    StaysStoppedF(StepFn(edges, disabled), w, k, m);
  }

  lemma {:induction false} RunningEarlierF(f: Walk -> Walk, w: Walk, j: nat, k: nat)
    requires Absorbing(f) && j <= k
    requires IterF(f, w, k).Running?
    ensures IterF(f, w, j).Running?
  {
    if !IterF(f, w, j).Running? {
      StaysStoppedF(f, w, j, k);
    }
  }

  lemma {:induction false} RunningEarlier(edges: seq<Edge>, disabled: map<int, bool>, w: Walk, j: nat, k: nat)
    requires j <= k
    requires Iterate(edges, disabled, w, k).Running?
    ensures Iterate(edges, disabled, w, j).Running?
  {
    StepAbsorbing(edges, disabled);
    RunningEarlierF(StepFn(edges, disabled), w, j, k);
  }

  // ---------------------------------------------------------------------
  // Bound(edges) iterations are enough.

  /** Among n + 1 numbers below n two are equal. */
  lemma {:induction false} Pigeonhole(s: seq<nat>, n: nat)
    requires n >= 1 && |s| > n
    requires forall i :: 0 <= i < |s| ==> s[i] < n
    ensures exists i, j :: 0 <= i < j < |s| && s[i] == s[j]
    decreases n
  {
    if n == 1 {
      assert s[0] == s[1];
    } else {
      var last := s[|s| - 1];
      if exists i :: 0 <= i < |s| - 1 && s[i] == last {
        var i :| 0 <= i < |s| - 1 && s[i] == last;
        assert s[i] == s[|s| - 1];
      } else {
        // Rename the value n - 1 to `last` in the other elements: they then lie below n - 1.
        var t := seq(|s| - 1, i requires 0 <= i < |s| - 1 => if s[i] == n - 1 then last else s[i]);
        forall i | 0 <= i < |t| ensures t[i] < n - 1 {
          if s[i] == n - 1 {
            assert last != n - 1;
          } else {
            assert s[i] != n - 1;
          }
        }
        Pigeonhole(t, n - 1);
        var i, j :| 0 <= i < j < |t| && t[i] == t[j];
        assert s[i] == s[j];
      }
    }
  }

  /** Two states that agree at times a and b agree at every later pair a + t, b + t. */
  lemma {:induction false} Periodic(f: Walk -> Walk, w: Walk, a: nat, b: nat, t: nat)
    requires IterF(f, w, a) == IterF(f, w, b)
    ensures IterF(f, w, a + t) == IterF(f, w, b + t)
  {
    if t > 0 {
      Periodic(f, w, a, b, t - 1);
    }
  }

  /** A state that comes back after p steps: every later state is one of the first a + p. */
  lemma {:induction false} EarlierTwin(f: Walk -> Walk, w: Walk, a: nat, p: nat, k: nat) returns (k': nat)
    requires p >= 1
    requires IterF(f, w, a) == IterF(f, w, a + p)
    ensures k' <= a + p && IterF(f, w, k) == IterF(f, w, k')
    decreases k
  {
    if k <= a + p {
      k' := k;
    } else {
      k' := EarlierTwin(f, w, a, p, k - p);
      Periodic(f, w, a, a + p, k - p - a);
      assert a + p + (k - p - a) == k;
    }
  }

  /** The index of the link followed at a Running state. */
  function Followed(edges: seq<Edge>, w: Walk): Option<nat>
    requires w.Running?
  {
    FirstByDst(edges, w.node, w.pos)
  }

  /** After i iterations the loop is Running and follows link number `link`. */
  predicate FollowsAt(edges: seq<Edge>, disabled: map<int, bool>, w: Walk, i: nat, link: nat) {
    Iterate(edges, disabled, w, i).Running? && Followed(edges, Iterate(edges, disabled, w, i)) == Some(link)
  }

  /** The index of the link followed after i iterations, or 0 when none is. */
  function FollowedAfter(edges: seq<Edge>, disabled: map<int, bool>, w: Walk, i: nat): nat {
    var x := Iterate(edges, disabled, w, i);
    if x.Running? && Followed(edges, x).Some? then Followed(edges, x).value else 0
  }

  /** A run still going after Bound(edges) iterations followed a link at each of the first |edges| + 1. */
  lemma {:induction false} FollowsBeforeBound(edges: seq<Edge>, disabled: map<int, bool>, w: Walk, i: nat)
    requires Resolve(edges, disabled, w).Running?
    requires i < Bound(edges)
    ensures FollowsAt(edges, disabled, w, i, FollowedAfter(edges, disabled, w, i))
    ensures FollowedAfter(edges, disabled, w, i) < |edges|
  {
    RunningEarlier(edges, disabled, w, i + 1, Bound(edges));
    RunningEarlier(edges, disabled, w, i, Bound(edges));
    IterateNext(edges, disabled, w, i);
  }

  lemma {:induction false} IterateNext(edges: seq<Edge>, disabled: map<int, bool>, w: Walk, k: nat)
    ensures Iterate(edges, disabled, w, k + 1) == Step(edges, disabled, Iterate(edges, disabled, w, k))
  {
  }

  /** Following the same link from two Running states leads to the same state. */
  lemma {:induction false} StepSameLink(edges: seq<Edge>, disabled: map<int, bool>, x: Walk, y: Walk)
    requires x.Running? && y.Running?
    requires Followed(edges, x) == Followed(edges, y) && Followed(edges, x).Some?
    ensures Step(edges, disabled, x) == Step(edges, disabled, y)
  {
  }

  lemma {:induction false} SameLinkSameNext(edges: seq<Edge>, disabled: map<int, bool>, w: Walk, i: nat, j: nat, link: nat)
    requires FollowsAt(edges, disabled, w, i, link) && FollowsAt(edges, disabled, w, j, link)
    ensures Iterate(edges, disabled, w, i + 1) == Iterate(edges, disabled, w, j + 1)
  {
    var x, y := Iterate(edges, disabled, w, i), Iterate(edges, disabled, w, j);
    StepSameLink(edges, disabled, x, y);
    IterateNext(edges, disabled, w, i);
    IterateNext(edges, disabled, w, j);
  }

  /** Following the first link that lands on the slot: the next state is classified at that link's raw source. */
  lemma {:induction false} FollowNext(edges: seq<Edge>, disabled: map<int, bool>, w: Walk, k: nat, node: int, pos: int, j: nat)
    requires Iterate(edges, disabled, w, k) == Running(node, pos)
    requires FirstByDst(edges, node, pos) == Some(j)
    ensures Iterate(edges, disabled, w, k + 1) == Classify(disabled, edges[j].srcNode, edges[j].srcPos)
  {
    IterateNext(edges, disabled, w, k);
  }

  /** No link lands on the slot: the loop breaks out there. */
  lemma {:induction false} DeadEndOutcome(edges: seq<Edge>, disabled: map<int, bool>, w: Walk, k: nat, node: int, pos: int)
    requires k < Bound(edges)
    requires Iterate(edges, disabled, w, k) == Running(node, pos)
    requires FirstByDst(edges, node, pos).None?
    ensures Resolve(edges, disabled, w) == GaveUp(node, pos)
  {
    IterateNext(edges, disabled, w, k);
    StaysStopped(edges, disabled, w, k + 1, Bound(edges));
  }

  /** A Running state that comes back after p >= 1 steps is Running at every time k. */
  lemma {:induction false} CycleRunningAt(edges: seq<Edge>, disabled: map<int, bool>, w: Walk, a: nat, p: nat, k: nat)
    requires p >= 1
    requires Iterate(edges, disabled, w, a) == Iterate(edges, disabled, w, a + p)
    requires Iterate(edges, disabled, w, a + p).Running?
    ensures Iterate(edges, disabled, w, k).Running?
  {
    StepAbsorbing(edges, disabled);
    CycleRunningAtF(StepFn(edges, disabled), w, a, p, k);
  }

  lemma {:induction false} CycleRunningAtF(f: Walk -> Walk, w: Walk, a: nat, p: nat, k: nat)
    requires Absorbing(f) && p >= 1
    requires IterF(f, w, a) == IterF(f, w, a + p)
    requires IterF(f, w, a + p).Running?
    ensures IterF(f, w, k).Running?
  {
    var k' := EarlierTwin(f, w, a, p, k);
    RunningEarlierF(f, w, k', a + p);
  }

  /** A run still going after Bound(edges) iterations follows the same link at two of its first |edges| + 1 steps. */
  lemma {:induction false} RepeatedLink(edges: seq<Edge>, disabled: map<int, bool>, w: Walk) returns (i: nat, j: nat, link: nat)
    requires Resolve(edges, disabled, w).Running?
    ensures i < j <= |edges|
    ensures FollowsAt(edges, disabled, w, i, link) && FollowsAt(edges, disabled, w, j, link)
  {
    var fs := FollowedLinks(edges, disabled, w);
    i, j := PickRepeat(fs, |edges|);
    link := fs[i];
    FollowsBeforeBound(edges, disabled, w, i);
    FollowsBeforeBound(edges, disabled, w, j);
  }

  /** The links followed in the first Bound(edges) iterations of a run that is still going. */
  lemma {:induction false} FollowedLinks(edges: seq<Edge>, disabled: map<int, bool>, w: Walk) returns (fs: seq<nat>)
    requires Resolve(edges, disabled, w).Running?
    ensures |fs| == |edges| + 1 && |edges| >= 1
    ensures forall i :: 0 <= i < |fs| ==> fs[i] < |edges|
    ensures forall i :: 0 <= i < |fs| ==> fs[i] == FollowedAfter(edges, disabled, w, i)
  {
    var n := |edges|;
    fs := seq(n + 1, i requires 0 <= i <= n => FollowedAfter(edges, disabled, w, i));
    forall i | 0 <= i < |fs| ensures fs[i] < n {
      FollowsBeforeBound(edges, disabled, w, i);
    }
    FollowsBeforeBound(edges, disabled, w, 0);
  }

  /** Two equal entries among n + 1 numbers below n. */
  lemma {:induction false} PickRepeat(fs: seq<nat>, n: nat) returns (i: nat, j: nat)
    requires n >= 1 && |fs| == n + 1
    requires forall k :: 0 <= k < |fs| ==> fs[k] < n
    ensures i < j < |fs| && fs[i] == fs[j]
  {
    Pigeonhole(fs, n);
    i, j :| 0 <= i < j < |fs| && fs[i] == fs[j];
  }

  /** Still Running after Bound(edges) iterations: some state comes back. */
  lemma {:induction false} RepeatWithinBound(edges: seq<Edge>, disabled: map<int, bool>, w: Walk) returns (a: nat, p: nat)
    requires Resolve(edges, disabled, w).Running?
    ensures p >= 1 && a + p <= Bound(edges)
    ensures Iterate(edges, disabled, w, a) == Iterate(edges, disabled, w, a + p)
  {
    var i, j, link := RepeatedLink(edges, disabled, w);
    SameLinkSameNext(edges, disabled, w, i, j, link);
    a, p := i + 1, j - i;
  }

  /**
   * The loop is still running after Bound(edges) iterations exactly when it
   * never exits: the model's bound is exact.
   */
  lemma {:induction false} ResolveRunningIffDiverges(edges: seq<Edge>, disabled: map<int, bool>, w: Walk)
    ensures Resolve(edges, disabled, w).Running? <==>
            forall k: nat :: Iterate(edges, disabled, w, k).Running?
  {
    if Resolve(edges, disabled, w).Running? {
      var a, p := RepeatWithinBound(edges, disabled, w);
      RunningEarlier(edges, disabled, w, a + p, Bound(edges));
      forall k: nat ensures Iterate(edges, disabled, w, k).Running? {
        CycleRunningAt(edges, disabled, w, a, p, k);
      }
    } else {
      assert !Iterate(edges, disabled, w, Bound(edges)).Running?;
    }
  }

  // ---------------------------------------------------------------------
  // What holds when the loop of a freshly built link stops.

  /** The consistent states: what the disabled table says about the node each one names. */
  predicate Consistent(edges: seq<Edge>, disabled: map<int, bool>, w: Walk) {
    match w
    case Running(node, _) => node in disabled && disabled[node]
    case Stopped(node, _) => node in disabled && !disabled[node]
    case GaveUp(node, pos) => node in disabled && disabled[node] && FirstByDst(edges, node, pos).None?
    case Missing(node, _, key) => node == key && node !in disabled
  }

  lemma {:induction false} ConsistentIterate(edges: seq<Edge>, disabled: map<int, bool>, e: Edge, k: nat)
    ensures Consistent(edges, disabled, Iterate(edges, disabled, FreshStart(disabled, e), k))
  {
    if k > 0 {
      ConsistentIterate(edges, disabled, e, k - 1);
    }
  }

  /**
   * When the loop of a freshly built link exits, either the final source
   * node is enabled, or it is disabled and no link lands on
   * (final_src_node, final_src_pos): the logged give-up case. A KeyError
   * is raised exactly for a node id missing from the node table. A walk
   * still running at the bound sits on a disabled node; it never exits
   * (ResolveRunningIffDiverges).
   */
  lemma {:induction false} StopsAtEnabledOrDeadEnd(edges: seq<Edge>, disabled: map<int, bool>, e: Edge)
    ensures var w := Resolve(edges, disabled, FreshStart(disabled, e));
      && (w.Stopped? ==> w.node in disabled && !disabled[w.node])
      && (w.GaveUp? ==> w.node in disabled && disabled[w.node] &&
                        forall j :: 0 <= j < |edges| ==> !LandsAt(edges[j], w.node, w.pos))
      && (w.Missing? ==> w.key !in disabled)
      && (w.Running? ==> w.node in disabled && disabled[w.node])
  {
    ConsistentIterate(edges, disabled, e, Bound(edges));
  }

  /** A link whose raw source node is enabled keeps the finals it was built with. */
  lemma {:induction false} EnabledSourceUntouched(edges: seq<Edge>, disabled: map<int, bool>, srcNode: int, finalNode: int, finalPos: int)
    requires srcNode in disabled && !disabled[srcNode]
    ensures Resolve(edges, disabled, Start(disabled, srcNode, finalNode, finalPos)) == Stopped(finalNode, finalPos)
  {
    StaysStopped(edges, disabled, Start(disabled, srcNode, finalNode, finalPos), 0, Bound(edges));
  }

  /**
   * Single hop: a fresh link leaving a disabled node, on which some link
   * lands at the same slot number from an enabled node, ends at that
   * upstream link's raw source.
   */
  lemma {:induction false} SingleHop(edges: seq<Edge>, disabled: map<int, bool>, e: Edge, j: nat)
    requires e.srcNode in disabled && disabled[e.srcNode]
    requires FirstByDst(edges, e.srcNode, e.srcPos) == Some(j)
    requires edges[j].srcNode in disabled && !disabled[edges[j].srcNode]
    ensures Resolve(edges, disabled, FreshStart(disabled, e)) == Stopped(edges[j].srcNode, edges[j].srcPos)
  {
    var w := FreshStart(disabled, e);
    IterateNext(edges, disabled, w, 0);
    assert Iterate(edges, disabled, w, 1) == Stopped(edges[j].srcNode, edges[j].srcPos);
    StaysStopped(edges, disabled, w, 1, Bound(edges));
  }

  /** States reached by following links name the raw source of the link followed. */
  predicate Upstream(edges: seq<Edge>, w0: Walk, w: Walk) {
    (w.node == w0.node && w.pos == w0.pos) ||
    exists j :: 0 <= j < |edges| && LeavesFrom(edges[j], w.node, w.pos)
  }

  lemma {:induction false} UpstreamIterate(edges: seq<Edge>, disabled: map<int, bool>, w0: Walk, k: nat)
    ensures Upstream(edges, w0, Iterate(edges, disabled, w0, k))
  {
    if k > 0 {
      UpstreamIterate(edges, disabled, w0, k - 1);
      var w := Iterate(edges, disabled, w0, k - 1);
      if w.Running? {
        match FirstByDst(edges, w.node, w.pos)
        case None =>
        case Some(j) =>
          assert LeavesFrom(edges[j], Iterate(edges, disabled, w0, k).node, Iterate(edges, disabled, w0, k).pos);
      }
    }
  }

  /**
   * Each bypass step adopts the raw source of a link of the table, never
   * another link's final fields: a final source that moved is the raw source
   * of some link. Because the walk of one link reads only raw fields, its
   * outcome does not depend on the order in which links are processed.
   */
  lemma {:induction false} FinalIsRawSource(edges: seq<Edge>, disabled: map<int, bool>, w0: Walk)
    ensures var w := Resolve(edges, disabled, w0);
      (w.node != w0.node || w.pos != w0.pos) ==>
        exists j :: 0 <= j < |edges| && edges[j].srcNode == w.node && edges[j].srcPos == w.pos
  {
    UpstreamIterate(edges, disabled, w0, Bound(edges));
  }
}
