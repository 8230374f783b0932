/**
 * The `Link` records of a workflow and the table `Workflow.load` keeps them
 * in. The table is a Python dict keyed by link id; it is modelled as the
 * sequence of its values in dict order, with pairwise distinct ids. Storing
 * under an id already present replaces the value and keeps its position;
 * a new id goes to the end.
 */
module LinkTable {
  import opened Outcomes
  import opened Bypass

  /**
   * One link. The six fields read from the workflow file never change; only
   * the final source, which the bypass pass rewrites, is mutable.
   */
  class Link {
    const id: int
    const srcNode: int
    const srcPos: int
    const dstNode: int
    const dstPos: int
    const dataType: string
    var finalSrcNode: int
    var finalSrcPos: int

    /** `Link(*l)`: the final source starts as the raw source. */
    constructor (id: int, srcNode: int, srcPos: int, dstNode: int, dstPos: int, dataType: string)
      ensures Raw() == Edge(id, srcNode, srcPos, dstNode, dstPos, dataType)
      ensures finalSrcNode == srcNode && finalSrcPos == srcPos
    {
      this.id := id;
      this.srcNode := srcNode;
      this.srcPos := srcPos;
      this.dstNode := dstNode;
      this.dstPos := dstPos;
      this.dataType := dataType;
      finalSrcNode := srcNode;
      finalSrcPos := srcPos;
    }

    /** The raw fields, as read from the file. */
    function Raw(): Edge {
      Edge(id, srcNode, srcPos, dstNode, dstPos, dataType)
    }

    /** The final source is still the raw source. */
    predicate AsBuilt()
      reads this
    {
      finalSrcNode == srcNode && finalSrcPos == srcPos
    }
  }

  /** The raw fields of a table, in order. */
  function Edges(links: seq<Link>): (es: seq<Edge>)
    ensures |es| == |links|
    ensures forall i :: 0 <= i < |links| ==> es[i] == links[i].Raw()
  {
    seq(|links|, i requires 0 <= i < |links| => links[i].Raw())
  }

  function Ids(edges: seq<Edge>): (ids: seq<int>)
    ensures |ids| == |edges|
    ensures forall i :: 0 <= i < |edges| ==> ids[i] == edges[i].id
  {
    seq(|edges|, i requires 0 <= i < |edges| => edges[i].id)
  }

  predicate DistinctIds(edges: seq<Edge>) {
    forall i, j :: 0 <= i < j < |edges| ==> edges[i].id != edges[j].id
  }

  /** The position of the first entry with the given id. */
  function IndexOfId(edges: seq<Edge>, id: int): (r: Option<nat>)
    ensures r.Some? ==> r.value < |edges| && edges[r.value].id == id
    ensures r.Some? ==> forall j :: 0 <= j < r.value ==> edges[j].id != id
    ensures r.None? <==> forall j :: 0 <= j < |edges| ==> edges[j].id != id
  {
    if edges == [] then None
    else if edges[0].id == id then Some(0)
    else match IndexOfId(edges[1..], id)
      case None => None
      case Some(k) => Some(k + 1)
  }

  /** In a table with distinct ids, the entry holding an id is the one found for it. */
  lemma {:induction false} IndexOfDistinct(edges: seq<Edge>, i: nat)
    requires DistinctIds(edges) && i < |edges|
    ensures IndexOfId(edges, edges[i].id) == Some(i)
  {
  }

  /** `links[id]`: the link stored under an id, or None where Python raises KeyError. */
  function LinkFor(links: seq<Link>, id: int): (r: Option<Link>)
    ensures r.Some? <==> IndexOfId(Edges(links), id).Some?
    ensures r.Some? ==> r.value in links && r.value.id == id
  {
    match IndexOfId(Edges(links), id)
    case None => None
    case Some(i) => Some(links[i])
  }

  // ---------------------------------------------------------------------
  // The dict the loop at the head of `Workflow.load` fills.

  /** `table[e.id] = e`. */
  function DictPut(table: seq<Edge>, e: Edge): seq<Edge> {
    match IndexOfId(table, e.id)
    case Some(i) => table[i := e]
    case None => table + [e]
  }

  /** The table after storing every raw link in order. */
  function LinkDict(raws: seq<Edge>): seq<Edge>
    decreases |raws|
  {
    if raws == [] then []
    else DictPut(LinkDict(raws[..|raws| - 1]), raws[|raws| - 1])
  }

  /** The first occurrences of the values of s, in order. */
  function Dedup(s: seq<int>): seq<int>
    decreases |s|
  {
    if s == [] then []
    else
      var init := s[..|s| - 1];
      if s[|s| - 1] in init then Dedup(init) else Dedup(init) + [s[|s| - 1]]
  }

  lemma {:induction false} DedupSameMembers(s: seq<int>)
    ensures forall x :: x in Dedup(s) <==> x in s
    decreases |s|
  {
    if s != [] {
      var init := s[..|s| - 1];
      DedupSameMembers(init);
      assert s == init + [s[|s| - 1]];
    }
  }

  lemma {:induction false} PutKeepsIds(table: seq<Edge>, e: Edge)
    ensures Ids(DictPut(table, e)) == if e.id in Ids(table) then Ids(table) else Ids(table) + [e.id]
  {
    match IndexOfId(table, e.id)
    case Some(i) =>
      assert e.id in Ids(table) by { assert Ids(table)[i] == e.id; }
      assert Ids(table[i := e]) == Ids(table);
    case None =>
      assert forall k :: 0 <= k < |Ids(table)| ==> Ids(table)[k] != e.id;
      assert Ids(table + [e]) == Ids(table) + [e.id];
  }

  lemma {:induction false} PutKeepsDistinct(table: seq<Edge>, e: Edge)
    requires DistinctIds(table)
    ensures DistinctIds(DictPut(table, e))
  {
  }

  /** Storing under one id leaves the entry of every other id where it was. */
  lemma {:induction false} PutKeepsOthers(table: seq<Edge>, e: Edge, id: int)
    requires DistinctIds(table) && id != e.id
    ensures IndexOfId(DictPut(table, e), id) == IndexOfId(table, id)
  {
    var t := DictPut(table, e);
    PutKeepsDistinct(table, e);
    match IndexOfId(table, id)
    case Some(i) =>
      assert t[i] == table[i];
      IndexOfDistinct(t, i);
    case None =>
      assert forall j :: 0 <= j < |t| ==> t[j].id != id;
  }

  /** Storing e makes its id find e. */
  lemma {:induction false} PutFindsNew(table: seq<Edge>, e: Edge)
    requires DistinctIds(table)
    ensures var t := DictPut(table, e);
      IndexOfId(t, e.id).Some? && t[IndexOfId(t, e.id).value] == e
  {
    var t := DictPut(table, e);
    PutKeepsDistinct(table, e);
    match IndexOfId(table, e.id)
    case Some(i) =>
      IndexOfDistinct(t, i);
    case None =>
      IndexOfDistinct(t, |table|);
  }

  /** The link table never holds two links with the same id. */
  lemma {:induction false} LinkDictDistinct(raws: seq<Edge>)
    ensures DistinctIds(LinkDict(raws))
    decreases |raws|
  {
    if raws != [] {
      LinkDictDistinct(raws[..|raws| - 1]);
      PutKeepsDistinct(LinkDict(raws[..|raws| - 1]), raws[|raws| - 1]);
    }
  }

  /**
   * The ids of the table are the ids of the raw links, each once, in the
   * order of their first occurrence: the dict order `find_link_by_dst` uses.
   */
  lemma {:induction false} LinkDictOrder(raws: seq<Edge>)
    ensures Ids(LinkDict(raws)) == Dedup(Ids(raws))
    decreases |raws|
  {
    if raws != [] {
      var init := raws[..|raws| - 1];
      var e := raws[|raws| - 1];
      LinkDictOrder(init);
      PutKeepsIds(LinkDict(init), e);
      DedupSameMembers(Ids(init));
      assert Ids(raws)[..|raws| - 1] == Ids(init);
      assert Ids(raws)[|raws| - 1] == e.id;
      assert LinkDict(raws) == DictPut(LinkDict(init), e);
    }
  }

  /**
   * A later link with the same id overwrites an earlier one: the entry for
   * an id is the last raw link carrying it.
   */
  lemma {:induction false} LinkDictLastWins(raws: seq<Edge>, k: nat)
    requires k < |raws|
    requires forall m :: k < m < |raws| ==> raws[m].id != raws[k].id
    ensures var t := LinkDict(raws);
      IndexOfId(t, raws[k].id).Some? && t[IndexOfId(t, raws[k].id).value] == raws[k]
    decreases |raws|
  {
    var init := raws[..|raws| - 1];
    var e := raws[|raws| - 1];
    LinkDictDistinct(init);
    if k == |raws| - 1 {
      PutFindsNew(LinkDict(init), e);
    } else {
      LinkDictLastWins(init, k);
      PutKeepsOthers(LinkDict(init), e, raws[k].id);
      var i := IndexOfId(LinkDict(init), raws[k].id).value;
      assert LinkDict(raws)[i] == LinkDict(init)[i];
    }
  }

  /**
   * The loop at the head of `Workflow.load`: a fresh link per raw tuple,
   * stored under its id.
   */
  method BuildLinkTable(raws: seq<Edge>) returns (table: seq<Link>)
    ensures Edges(table) == LinkDict(raws)
    ensures forall l :: l in table ==> fresh(l) && l.AsBuilt()
  {
    table := [];
    for k := 0 to |raws|
      invariant Edges(table) == LinkDict(raws[..k])
      invariant forall j :: 0 <= j < |table| ==> fresh(table[j]) && table[j].AsBuilt()
    {
      var e := raws[k];
      var link := new Link(e.id, e.srcNode, e.srcPos, e.dstNode, e.dstPos, e.dataType);
      assert link.Raw() == e;
      assert raws[..k + 1][..k] == raws[..k];
      match IndexOfId(Edges(table), e.id)
      case Some(i) =>
        table := table[i := link];
      case None =>
        table := table + [link];
    }
    assert raws[..|raws|] == raws;
  }
}
