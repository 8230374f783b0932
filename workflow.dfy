/**
 * `Workflow`: the link and node tables of a loaded workflow, the first-match
 * searches over the links, and the pass that routes links around disabled
 * nodes. The JSON file is taken as already parsed into link tuples and node
 * records.
 */
module Workflow2Prompt {
  import opened Outcomes
  import opened Json
  import opened Bypass
  import opened LinkTable
  import opened Nodes

  /** Which node ids are disabled, as the bypass pass sees the node table. */
  function Disabled(nodes: map<int, Node>): (d: map<int, bool>)
    ensures d.Keys == nodes.Keys
    ensures forall k :: k in nodes ==> d[k] == nodes[k].disabled
  {
    map k | k in nodes :: nodes[k].disabled
  }

  /**
   * The disabled flags of the node table `Workflow.load` fills from the node
   * records, for records `Node.create` accepts: a later record with the
   * same id replaces the earlier one.
   */
  function DisabledTable(raws: seq<RawNode>): map<int, bool>
    decreases |raws|
  {
    if raws == [] then map[]
    else
      var t := DisabledTable(raws[..|raws| - 1]);
      var n := raws[|raws| - 1];
      if n.id.Some? && n.mode.Some? then t[n.id.value := ModeDisabled(n.mode.value)] else t
  }

  lemma {:induction false} DisabledPut(nodes: map<int, Node>, id: int, n: Node)
    ensures Disabled(nodes[id := n]) == Disabled(nodes)[id := n.disabled]
  {
  }

  lemma {:induction false} DisabledTableStep(raws: seq<RawNode>, i: nat)
    requires i < |raws| && raws[i].id.Some? && raws[i].mode.Some?
    ensures DisabledTable(raws[..i + 1]) == DisabledTable(raws[..i])[raws[i].id.value := ModeDisabled(raws[i].mode.value)]
  {
    assert raws[..i + 1][..i] == raws[..i];
  }

  /**
   * For records that all carry an id and a mode, the table holds exactly
   * their ids, and an id's flag comes from the last record carrying it.
   */
  lemma {:induction false} DisabledTableLastWins(raws: seq<RawNode>, k: nat)
    requires forall m :: 0 <= m < |raws| ==> raws[m].id.Some? && raws[m].mode.Some?
    requires k < |raws|
    requires forall m :: k < m < |raws| ==> raws[m].id != raws[k].id
    ensures raws[k].id.value in DisabledTable(raws)
    ensures DisabledTable(raws)[raws[k].id.value] == ModeDisabled(raws[k].mode.value)
    decreases |raws|
  {
    if k < |raws| - 1 {
      DisabledTableLastWins(raws[..|raws| - 1], k);
    }
  }

  lemma {:induction false} DisabledTableKeys(raws: seq<RawNode>)
    requires forall m :: 0 <= m < |raws| ==> raws[m].id.Some? && raws[m].mode.Some?
    ensures forall x :: x in DisabledTable(raws) <==> exists m :: 0 <= m < |raws| && raws[m].id == Some(x)
    decreases |raws|
  {
    if raws != [] {
      var init := raws[..|raws| - 1];
      DisabledTableKeys(init);
      forall x ensures x in DisabledTable(raws) <==> exists m :: 0 <= m < |raws| && raws[m].id == Some(x) {
        if exists m :: 0 <= m < |init| && init[m].id == Some(x) {
          var m :| 0 <= m < |init| && init[m].id == Some(x);
          assert raws[m] == init[m];
        }
        if exists m :: 0 <= m < |raws| && raws[m].id == Some(x) {
          var m :| 0 <= m < |raws| && raws[m].id == Some(x);
          if m < |init| {
            assert init[m] == raws[m];
          }
        }
      }
    }
  }

  /**
   * The position of the last record carrying id k: `self.nodes[node.id] =
   * node` keeps the node of that record under k.
   */
  function LastRecord(raws: seq<RawNode>, k: int): (r: Option<nat>)
    ensures r.Some? ==> r.value < |raws| && raws[r.value].id == Some(k)
    ensures r.Some? ==> forall m :: r.value < m < |raws| ==> raws[m].id != Some(k)
    ensures r.None? <==> forall m :: 0 <= m < |raws| ==> raws[m].id != Some(k)
    decreases |raws|
  {
    if raws == [] then None
    else if raws[|raws| - 1].id == Some(k) then Some(|raws| - 1)
    else LastRecord(raws[..|raws| - 1], k)
  }

  lemma {:induction false} LastRecordStep(raws: seq<RawNode>, i: nat, k: int)
    requires i < |raws|
    ensures LastRecord(raws[..i + 1], k) == if raws[i].id == Some(k) then Some(i) else LastRecord(raws[..i], k)
  {
    assert raws[..i + 1][..i] == raws[..i];
  }

  /**
   * The cache after `Node.create` has run on each of the records in turn:
   * every record with an id consults `_get_object_infos` for its type.
   */
  function CacheAfterRecords(entries: map<string, Value>, fetch: string -> Option<Value>, raws: seq<RawNode>): map<string, Value>
    decreases |raws|
  {
    if raws == [] then entries
    else
      var before := CacheAfterRecords(entries, fetch, raws[..|raws| - 1]);
      var n := raws[|raws| - 1];
      if n.id.Some? then CacheAfter(before, fetch, n.classType) else before
  }

  lemma {:induction false} CacheAfterRecordsStep(entries: map<string, Value>, fetch: string -> Option<Value>, raws: seq<RawNode>, i: nat)
    requires i < |raws|
    ensures CacheAfterRecords(entries, fetch, raws[..i + 1]) ==
      var before := CacheAfterRecords(entries, fetch, raws[..i]);
      if raws[i].id.Some? then CacheAfter(before, fetch, raws[i].classType) else before
  {
    assert raws[..i + 1][..|raws[..i + 1]| - 1] == raws[..i];
  }

  /** The object info record m is served: what the cache holds by then, or ComfyUI's answer. */
  function InfosOf(entries: map<string, Value>, fetch: string -> Option<Value>, raws: seq<RawNode>, m: nat): Option<Value>
    requires m < |raws|
  {
    Served(CacheAfterRecords(entries, fetch, raws[..m]), fetch, raws[m].classType)
  }

  /** Running over the records only ever adds ComfyUI's answers to the cache. */
  lemma {:induction false} RecordsGrowCache(entries: map<string, Value>, fetch: string -> Option<Value>, raws: seq<RawNode>)
    ensures Grows(entries, CacheAfterRecords(entries, fetch, raws), fetch)
    decreases |raws|
  {
    if raws != [] {
      var init := raws[..|raws| - 1];
      var before := CacheAfterRecords(entries, fetch, init);
      RecordsGrowCache(entries, fetch, init);
      CacheAfterGrows(before, fetch, raws[|raws| - 1].classType);
      GrowsTrans(entries, before, CacheAfter(before, fetch, raws[|raws| - 1].classType), fetch);
    }
  }

  /**
   * Starting from a cache that holds only ComfyUI's answers (the empty one
   * in particular), every record is served exactly what ComfyUI answers for
   * its type, and the cache keeps holding only answers.
   */
  lemma {:induction false} RecordsServedAnswers(entries: map<string, Value>, fetch: string -> Option<Value>, raws: seq<RawNode>)
    requires FaithfulTo(entries, fetch)
    ensures FaithfulTo(CacheAfterRecords(entries, fetch, raws), fetch)
    ensures forall m :: 0 <= m < |raws| ==> InfosOf(entries, fetch, raws, m) == fetch(raws[m].classType)
    decreases |raws|
  {
    if raws != [] {
      var n := |raws| - 1;
      var init := raws[..n];
      RecordsServedAnswers(entries, fetch, init);
      CacheTransparent(CacheAfterRecords(entries, fetch, init), fetch, raws[n].classType);
      forall m | 0 <= m < |raws|
        ensures InfosOf(entries, fetch, raws, m) == fetch(raws[m].classType)
      {
        if m < n {
          assert init[..m] == raws[..m];
          assert InfosOf(entries, fetch, init, m) == fetch(init[m].classType);
        } else {
          assert raws[..m] == init;
        }
      }
    }
  }

  /**
   * The node table after the first n records: its keys are their ids, and
   * under each id is the node created from the last record with that id,
   * served the object info the cache gave that record.
   */
  ghost predicate TableFrom(nodes: map<int, Node>, raws: seq<RawNode>, n: nat, links: seq<Link>,
                      entries: map<string, Value>, fetch: string -> Option<Value>)
    requires n <= |raws|
  {
    (forall k :: k in nodes <==> LastRecord(raws[..n], k).Some?) &&
    forall k :: k in nodes ==>
      var m := LastRecord(raws[..n], k).value;
      CreatedFrom(nodes[k], raws[m], links, InfosOf(entries, fetch, raws, m))
  }

  lemma {:induction false} TableFromStep(nodes: map<int, Node>, raws: seq<RawNode>, i: nat, links: seq<Link>,
                                         entries: map<string, Value>, fetch: string -> Option<Value>, n: Node)
    requires i < |raws| && TableFrom(nodes, raws, i, links, entries, fetch)
    requires CreatedFrom(n, raws[i], links, InfosOf(entries, fetch, raws, i))
    ensures TableFrom(nodes[n.id := n], raws, i + 1, links, entries, fetch)
  {
    forall k ensures LastRecord(raws[..i + 1], k) == if raws[i].id == Some(k) then Some(i) else LastRecord(raws[..i], k) {
      LastRecordStep(raws, i, k);
    }
  }

  /** How many records `Node.create` runs on: up to and including the first it rejects. */
  function Consulted(raws: seq<RawNode>, edges: seq<Edge>): (c: nat)
    ensures c <= |raws|
  {
    match FirstNodeFault(raws, 0, edges)
    case Some(f) => f + 1
    case None => |raws|
  }

  lemma {:induction false} ConsultedUpToFault(raws: seq<RawNode>, edges: seq<Edge>, i: nat)
    requires i < |raws| && NodeFault(raws[i], edges).Some?
    requires forall j :: 0 <= j < i ==> NodeFault(raws[j], edges).None?
    ensures FirstNodeFault(raws, 0, edges) == Some(i) && Consulted(raws, edges) == i + 1
  {
  }

  lemma {:induction false} ConsultedAll(raws: seq<RawNode>, edges: seq<Edge>)
    requires forall j :: 0 <= j < |raws| ==> NodeFault(raws[j], edges).None?
    ensures Consulted(raws, edges) == |raws|
  {
  }

  /** The first record `Node.create` rejects. */
  function FirstNodeFault(raws: seq<RawNode>, i: nat, edges: seq<Edge>): (r: Option<nat>)
    requires i <= |raws|
    ensures r.Some? ==> i <= r.value < |raws| && NodeFault(raws[r.value], edges).Some?
    ensures r.Some? ==> forall j :: i <= j < r.value ==> NodeFault(raws[j], edges).None?
    ensures r.None? <==> forall j :: i <= j < |raws| ==> NodeFault(raws[j], edges).None?
    decreases |raws| - i
  {
    if i == |raws| then None
    else if NodeFault(raws[i], edges).Some? then Some(i)
    else FirstNodeFault(raws, i + 1, edges)
  }

  /** A bypass walk that ends without raising. */
  predicate Settles(w: Walk) {
    w.Stopped? || w.GaveUp?
  }

  /** How the bypass loop ends for the j-th link of a freshly built table. */
  function FreshWalk(edges: seq<Edge>, disabled: map<int, bool>, j: nat): Walk
    requires j < |edges|
  {
    Resolve(edges, disabled, FreshStart(disabled, edges[j]))
  }

  /** The exception a walk that does not settle ends in. */
  function PruneError(w: Walk, linkId: int): LoadError {
    if w.Missing? then UnknownNode(w.key) else BypassHangs(linkId)
  }

  /**
   * One iteration of the bypass loop, in the terms of the node table: the
   * link followed is edges[j]; its raw source is looked up in the nodes.
   */
  lemma {:induction false} Advance(edges: seq<Edge>, nodes: map<int, Node>, w0: Walk, k: nat, node: int, pos: int, j: nat)
    requires k < Bound(edges)
    requires Iterate(edges, Disabled(nodes), w0, k) == Running(node, pos)
    requires FirstByDst(edges, node, pos) == Some(j)
    ensures var e := edges[j];
      e.srcNode in nodes ==>
        Iterate(edges, Disabled(nodes), w0, k + 1) ==
          if nodes[e.srcNode].disabled then Running(e.srcNode, e.srcPos) else Stopped(e.srcNode, e.srcPos)
    ensures var e := edges[j];
      e.srcNode !in nodes ==> Resolve(edges, Disabled(nodes), w0) == Missing(e.srcNode, e.srcPos, e.srcNode)
  {
    var d := Disabled(nodes);
    var e := edges[j];
    FollowNext(edges, d, w0, k, node, pos, j);
    ClassifyNodes(nodes, e.srcNode, e.srcPos);
    if e.srcNode !in nodes {
      StaysStopped(edges, d, w0, k + 1, Bound(edges));
    }
  }

  lemma {:induction false} ClassifyNodes(nodes: map<int, Node>, node: int, pos: int)
    ensures Classify(Disabled(nodes), node, pos) ==
      if node !in nodes then Missing(node, pos, node)
      else if nodes[node].disabled then Running(node, pos)
      else Stopped(node, pos)
  {
  }

  /** The link's final source is where the walk is. */
  predicate At(l: Link, w: Walk)
    reads l
  {
    l.finalSrcNode == w.node && l.finalSrcPos == w.pos
  }

  class Workflow {
    var links: seq<Link>
    var nodes: map<int, Node>

    constructor (links: seq<Link>, nodes: map<int, Node>)
      requires DistinctIds(Edges(links))
      ensures this.links == links && this.nodes == nodes
      ensures Valid()
    {
      this.links := links;
      this.nodes := nodes;
    }

    /** The link table is a dict: no two entries share an id (hence no two are the same object). */
    predicate Valid()
      reads this
    {
      DistinctIds(Edges(links))
    }

    /** The outcome of the bypass loop for a raw link whose final source is (finalNode, finalPos). */
    function WalkOf(e: Edge, finalNode: int, finalPos: int): Walk
      reads this
    {
      var d := Disabled(nodes);
      Resolve(Edges(links), d, Start(d, e.srcNode, finalNode, finalPos))
    }

    /** `find_link_by_dst`: the first link in table order that lands on (node, pos). */
    method FindLinkByDst(node: int, pos: int) returns (r: Option<Link>)
      ensures FirstByDst(Edges(links), node, pos).None? ==> r.None?
      ensures FirstByDst(Edges(links), node, pos).Some? ==>
        r == Some(links[FirstByDst(Edges(links), node, pos).value])
    {
      for i := 0 to |links|
        invariant forall j :: 0 <= j < i ==> !LandsAt(Edges(links)[j], node, pos)
      {
        if links[i].dstNode == node && links[i].dstPos == pos {
          assert LandsAt(Edges(links)[i], node, pos);
          return Some(links[i]);
        }
      }
      return None;
    }

    /** `find_link_by_src`: the first link in table order that leaves (node, pos). */
    method FindLinkBySrc(node: int, pos: int) returns (r: Option<Link>)
      ensures FirstBySrc(Edges(links), node, pos).None? ==> r.None?
      ensures FirstBySrc(Edges(links), node, pos).Some? ==>
        r == Some(links[FirstBySrc(Edges(links), node, pos).value])
    {
      for i := 0 to |links|
        invariant forall j :: 0 <= j < i ==> !LeavesFrom(Edges(links)[j], node, pos)
      {
        if links[i].srcNode == node && links[i].srcPos == pos {
          assert LeavesFrom(Edges(links)[i], node, pos);
          return Some(links[i]);
        }
      }
      return None;
    }

    /**
     * The body of the outer loop of `prune_source_links` for one link. The
     * returned walk says how the source loop ends; one that is still
     * Running after Bound iterations never ends (ResolveRunningIffDiverges).
     */
    method BypassLink(link: Link) returns (w: Walk)
      modifies link
      ensures w == WalkOf(link.Raw(), old(link.finalSrcNode), old(link.finalSrcPos))
      ensures At(link, w)
    {
      ghost var edges := Edges(links);
      ghost var d := Disabled(nodes);
      ghost var w0 := Start(d, link.srcNode, link.finalSrcNode, link.finalSrcPos);
      if link.srcNode !in nodes {
        StaysStopped(edges, d, w0, 0, Bound(edges));
        return Missing(link.finalSrcNode, link.finalSrcPos, link.srcNode);
      }
      var src := nodes[link.srcNode];
      if !src.disabled {
        StaysStopped(edges, d, w0, 0, Bound(edges));
        return Stopped(link.finalSrcNode, link.finalSrcPos);
      }
      w := FollowDisabled(link, w0);
    }

    /**
     * The `while src_node.disabled` loop, entered with a disabled source
     * node: at most Bound iterations, each following the first link that
     * lands on the final source.
     */
    method FollowDisabled(link: Link, ghost w0: Walk) returns (w: Walk)
      requires w0 == Running(link.finalSrcNode, link.finalSrcPos)
      modifies link
      ensures w == Resolve(Edges(links), Disabled(nodes), w0)
      ensures At(link, w)
    {
      ghost var edges := Edges(links);
      ghost var d := Disabled(nodes);
      var disabled := true;
      var steps := 0;
      while disabled && steps < |links| + 1
        invariant steps <= |links| + 1
        invariant Iterate(edges, d, w0, steps) ==
          if disabled then Running(link.finalSrcNode, link.finalSrcPos)
          else Stopped(link.finalSrcNode, link.finalSrcPos)
        decreases |links| + 1 - steps
      {
        var follow := FindLinkByDst(link.finalSrcNode, link.finalSrcPos);
        if follow.None? {
          DeadEndOutcome(edges, d, w0, steps, link.finalSrcNode, link.finalSrcPos);
          return GaveUp(link.finalSrcNode, link.finalSrcPos);
        }
        ghost var j := FirstByDst(edges, link.finalSrcNode, link.finalSrcPos).value;
        Advance(edges, nodes, w0, steps, link.finalSrcNode, link.finalSrcPos, j);
        assert follow.value.Raw() == edges[j];
        link.finalSrcNode := follow.value.srcNode;
        link.finalSrcPos := follow.value.srcPos;
        steps := steps + 1;
        if link.finalSrcNode !in nodes {
          return Missing(link.finalSrcNode, link.finalSrcPos, link.finalSrcNode);
        }
        var src := nodes[link.finalSrcNode];
        disabled := src.disabled;
      }
      if disabled {
        return Running(link.finalSrcNode, link.finalSrcPos);
      }
      StaysStopped(edges, d, w0, steps, Bound(edges));
      return Stopped(link.finalSrcNode, link.finalSrcPos);
    }

    /**
     * `prune_source_links`: the links are processed in table order; each
     * one's final source becomes the end of its walk. The first walk that
     * raises ends the pass, and the links after it keep their final source.
     * Only the final sources change: every other field of a link is constant.
     */
    method PruneSourceLinks() returns (r: Option<LoadError>)
      requires Valid()
      modifies set i | 0 <= i < |links| :: links[i]
      ensures Valid()
      ensures r.None? ==> forall j :: 0 <= j < |links| ==>
        var w := WalkOf(links[j].Raw(), old(links[j].finalSrcNode), old(links[j].finalSrcPos));
        Settles(w) && At(links[j], w)
      ensures r.Some? ==>
        exists k :: 0 <= k < |links| &&
          (forall j :: 0 <= j < k ==>
            var w := WalkOf(links[j].Raw(), old(links[j].finalSrcNode), old(links[j].finalSrcPos));
            Settles(w) && At(links[j], w)) &&
          (var w := WalkOf(links[k].Raw(), old(links[k].finalSrcNode), old(links[k].finalSrcPos));
            !Settles(w) && At(links[k], w) && r == Some(PruneError(w, links[k].id))) &&
          (forall j :: k < j < |links| ==>
            links[j].finalSrcNode == old(links[j].finalSrcNode) && links[j].finalSrcPos == old(links[j].finalSrcPos))
    {
      for i := 0 to |links|
        invariant forall j :: 0 <= j < i ==>
          var w := WalkOf(links[j].Raw(), old(links[j].finalSrcNode), old(links[j].finalSrcPos));
          Settles(w) && At(links[j], w)
        invariant forall j :: i <= j < |links| ==>
          links[j].finalSrcNode == old(links[j].finalSrcNode) && links[j].finalSrcPos == old(links[j].finalSrcPos)
      {
        var link := links[i];
        assert forall j :: 0 <= j < |links| && j != i ==> links[j] != link by {
          forall j | 0 <= j < |links| && j != i ensures links[j] != link {
            assert Edges(links)[j].id != Edges(links)[i].id;
          }
        }
        var w := BypassLink(link);
        if !Settles(w) {
          return Some(PruneError(w, link.id));
        }
      }
      return None;
    }

    /**
     * The node loop of `Workflow.load`: `self.nodes[node.id] = node` per
     * record, in order, until `Node.create` raises.
     */
    static method CreateNodes(rawNodes: seq<RawNode>, table: seq<Link>, cache: ObjectInfoCache, fetch: string -> Option<Value>)
      returns (r: Result<map<int, Node>, LoadError>)
      modifies cache
      ensures var f := FirstNodeFault(rawNodes, 0, Edges(table));
        f.Some? ==> r == Err(NodeFault(rawNodes[f.value], Edges(table)).value)
      ensures FirstNodeFault(rawNodes, 0, Edges(table)).None? ==>
        && r.Ok? && Disabled(r.value) == DisabledTable(rawNodes)
        && TableFrom(r.value, rawNodes, |rawNodes|, table, old(cache.entries), fetch)
        && forall k :: k in r.value ==> fresh(r.value[k])
      ensures cache.entries == CacheAfterRecords(old(cache.entries), fetch, rawNodes[..Consulted(rawNodes, Edges(table))])
    {
      ghost var edges := Edges(table);
      var nodes: map<int, Node> := map[];
      for i := 0 to |rawNodes|
        invariant forall j :: 0 <= j < i ==> NodeFault(rawNodes[j], edges).None?
        invariant Disabled(nodes) == DisabledTable(rawNodes[..i])
        invariant TableFrom(nodes, rawNodes, i, table, old(cache.entries), fetch)
        invariant forall k :: k in nodes ==> fresh(nodes[k])
        invariant cache.entries == CacheAfterRecords(old(cache.entries), fetch, rawNodes[..i])
      {
        CacheAfterRecordsStep(old(cache.entries), fetch, rawNodes, i);
        var c := Node.Create(rawNodes[i], table, cache, fetch);
        if c.Err? {
          ConsultedUpToFault(rawNodes, edges, i);
          return Err(c.error);
        }
        DisabledTableStep(rawNodes, i);
        DisabledPut(nodes, c.value.id, c.value);
        TableFromStep(nodes, rawNodes, i, table, old(cache.entries), fetch, c.value);
        nodes := nodes[c.value.id := c.value];
      }
      ConsultedAll(rawNodes, edges);
      assert rawNodes[..|rawNodes|] == rawNodes;
      return Ok(nodes);
    }

    /**
     * `Workflow.load` up to the bypass pass: the link table, then one node per
     * record (a later record with the same id replaces an earlier one). Every
     * link is as built, so its walk is the one of a fresh link.
     */
    static method LoadTables(rawLinks: seq<Edge>, rawNodes: seq<RawNode>, cache: ObjectInfoCache, fetch: string -> Option<Value>)
      returns (r: Result<Workflow, LoadError>)
      modifies cache
      ensures var f := FirstNodeFault(rawNodes, 0, LinkDict(rawLinks));
        f.Some? ==> r == Err(NodeFault(rawNodes[f.value], LinkDict(rawLinks)).value)
      ensures FirstNodeFault(rawNodes, 0, LinkDict(rawLinks)).None? ==> r.Ok?
      ensures r.Ok? ==> fresh(r.value) && r.value.Valid() && forall l :: l in r.value.links ==> fresh(l)
      ensures r.Ok? ==> Edges(r.value.links) == LinkDict(rawLinks) && Disabled(r.value.nodes) == DisabledTable(rawNodes)
      ensures r.Ok? ==> TableFrom(r.value.nodes, rawNodes, |rawNodes|, r.value.links, old(cache.entries), fetch)
      ensures r.Ok? ==> forall j :: 0 <= j < |r.value.links| ==>
        r.value.WalkOf(r.value.links[j].Raw(), r.value.links[j].finalSrcNode, r.value.links[j].finalSrcPos) ==
        FreshWalk(LinkDict(rawLinks), DisabledTable(rawNodes), j)
      ensures cache.entries == CacheAfterRecords(old(cache.entries), fetch, rawNodes[..Consulted(rawNodes, LinkDict(rawLinks))])
    {
      var table := BuildLinkTable(rawLinks);
      LinkDictDistinct(rawLinks);
      assert forall j :: 0 <= j < |table| ==> table[j] in table;
      var c := CreateNodes(rawNodes, table, cache, fetch);
      if c.Err? {
        return Err(c.error);
      }
      var wf := new Workflow(table, c.value);
      forall j | 0 <= j < |table|
        ensures wf.WalkOf(table[j].Raw(), table[j].finalSrcNode, table[j].finalSrcPos) ==
          FreshWalk(LinkDict(rawLinks), DisabledTable(rawNodes), j)
      {
        assert table[j] in table && Edges(table)[j] == table[j].Raw();
      }
      return Ok(wf);
    }

    /**
     * `Workflow.load` from the parsed file: `LoadTables`, then the bypass
     * pass, which fails at the first link whose walk raises. The cache is
     * the module-level `_cached_object_infos`.
     */
    static method Load(rawLinks: seq<Edge>, rawNodes: seq<RawNode>, cache: ObjectInfoCache, fetch: string -> Option<Value>)
      returns (r: Result<Workflow, LoadError>)
      modifies cache
      ensures var f := FirstNodeFault(rawNodes, 0, LinkDict(rawLinks));
        f.Some? ==> r == Err(NodeFault(rawNodes[f.value], LinkDict(rawLinks)).value)
      ensures r.Ok? ==> fresh(r.value) && r.value.Valid()
      ensures r.Ok? ==> Edges(r.value.links) == LinkDict(rawLinks) && Disabled(r.value.nodes) == DisabledTable(rawNodes)
      ensures r.Ok? ==> TableFrom(r.value.nodes, rawNodes, |rawNodes|, r.value.links, old(cache.entries), fetch)
      ensures r.Ok? ==> forall j :: 0 <= j < |r.value.links| ==>
        var w := FreshWalk(LinkDict(rawLinks), DisabledTable(rawNodes), j);
        Settles(w) && At(r.value.links[j], w)
      ensures r.Err? && FirstNodeFault(rawNodes, 0, LinkDict(rawLinks)).None? ==>
        exists k :: 0 <= k < |LinkDict(rawLinks)| &&
          (forall j :: 0 <= j < k ==> Settles(FreshWalk(LinkDict(rawLinks), DisabledTable(rawNodes), j))) &&
          !Settles(FreshWalk(LinkDict(rawLinks), DisabledTable(rawNodes), k)) &&
          r.error == PruneError(FreshWalk(LinkDict(rawLinks), DisabledTable(rawNodes), k), LinkDict(rawLinks)[k].id)
      ensures cache.entries == CacheAfterRecords(old(cache.entries), fetch, rawNodes[..Consulted(rawNodes, LinkDict(rawLinks))])
    {
      var t := LoadTables(rawLinks, rawNodes, cache, fetch);
      if t.Err? {
        return t;
      }
      var wf := t.value;
      assert forall j :: 0 <= j < |wf.links| ==> wf.links[j] in wf.links;
      var p := wf.PruneSourceLinks();
      if p.Some? {
        return Err(p.value);
      }
      return Ok(wf);
    }
  }
}
