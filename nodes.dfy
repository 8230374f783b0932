/**
 * `Node.create` and the object-info cache it consults. A node record of the
 * workflow file is turned into a Node: its mode decides whether it is
 * disabled, the link ids of its inputs and outputs are replaced by the
 * Link objects of the table, and its widget-bearing inputs consume the
 * `widgets_values` list from the front.
 */
module Nodes {
  import opened Outcomes
  import opened Json
  import opened Bypass
  import opened LinkTable

  // ---------------------------------------------------------------------
  // The object-info cache (`_cached_object_infos`, `_get_object_infos`).

  /** What `_get_object_infos` returns for a class type. */
  function Served(entries: map<string, Value>, fetch: string -> Option<Value>, classType: string): Option<Value> {
    if classType in entries then Some(entries[classType]) else fetch(classType)
  }

  /** The cache after `_get_object_infos` for a class type. */
  function CacheAfter(entries: map<string, Value>, fetch: string -> Option<Value>, classType: string): map<string, Value> {
    if classType in entries then entries
    else match fetch(classType)
      case Some(v) => entries[classType := v]
      case None => entries
  }

  /** Every entry holds what ComfyUI answers for its class type. */
  predicate FaithfulTo(entries: map<string, Value>, fetch: string -> Option<Value>) {
    forall k :: k in entries ==> fetch(k) == Some(entries[k])
  }

  /**
   * A hit is served from the cache: the answer and the new cache do not
   * depend on what ComfyUI would answer.
   */
  lemma {:induction false} HitNeedsNoFetch(entries: map<string, Value>, f: string -> Option<Value>, g: string -> Option<Value>, classType: string)
    requires classType in entries
    ensures Served(entries, f, classType) == Served(entries, g, classType) == Some(entries[classType])
    ensures CacheAfter(entries, f, classType) == entries
  {
  }

  /**
   * A miss returns what was fetched and stores it exactly when it is not
   * None; no other entry changes.
   */
  lemma {:induction false} MissStoresOnlyAnswers(entries: map<string, Value>, fetch: string -> Option<Value>, classType: string)
    requires classType !in entries
    ensures Served(entries, fetch, classType) == fetch(classType)
    ensures classType in CacheAfter(entries, fetch, classType) <==> fetch(classType).Some?
    ensures forall k :: k != classType ==>
      (k in CacheAfter(entries, fetch, classType) <==> k in entries)
    ensures forall k :: k in entries ==> CacheAfter(entries, fetch, classType)[k] == entries[k]
  {
  }

  /**
   * A cache filled only from ComfyUI's answers is transparent: it answers
   * what a fetch would, and it stays filled only from answers.
   */
  lemma {:induction false} CacheTransparent(entries: map<string, Value>, fetch: string -> Option<Value>, classType: string)
    requires FaithfulTo(entries, fetch)
    ensures Served(entries, fetch, classType) == fetch(classType)
    ensures FaithfulTo(CacheAfter(entries, fetch, classType), fetch)
  {
  }

  /** The cache went from `before` to `after` only by storing answers of ComfyUI. */
  predicate Grows(before: map<string, Value>, after: map<string, Value>, fetch: string -> Option<Value>) {
    (forall k :: k in before ==> k in after && after[k] == before[k]) &&
    (forall k :: k in after && k !in before ==> fetch(k) == Some(after[k]))
  }

  lemma {:induction false} CacheAfterGrows(entries: map<string, Value>, fetch: string -> Option<Value>, classType: string)
    ensures Grows(entries, CacheAfter(entries, fetch, classType), fetch)
  {
  }

  lemma {:induction false} GrowsTrans(a: map<string, Value>, b: map<string, Value>, c: map<string, Value>, fetch: string -> Option<Value>)
    requires Grows(a, b, fetch) && Grows(b, c, fetch)
    ensures Grows(a, c, fetch)
  {
  }

  /** The module-level dict `_cached_object_infos`. */
  class ObjectInfoCache {
    var entries: map<string, Value>

    constructor ()
      ensures entries == map[]
    {
      entries := map[];
    }

    /**
     * `_get_object_infos`. ComfyUI's answer for a class type is the
     * parameter `fetch`; it is consulted only on a miss.
     */
    method Get(classType: string, fetch: string -> Option<Value>) returns (infos: Option<Value>)
      modifies this
      ensures infos == Served(old(entries), fetch, classType)
      ensures entries == CacheAfter(old(entries), fetch, classType)
    {
      if classType in entries {
        return Some(entries[classType]);
      }
      infos := fetch(classType);
      if infos.Some? {
        entries := entries[classType := infos.value];
      }
    }
  }

  // ---------------------------------------------------------------------
  // Node records.

  /** An element of a node's `inputs` list; `widget` is the name in its `widget` object. */
  datatype RawInput = RawInput(name: string, link: Option<int>, widget: Option<string>)

  /** An element of a node's `outputs` list. */
  datatype RawOutput = RawOutput(name: string, links: Option<seq<int>>)

  /**
   * A node record of the workflow file. None stands for a key that is
   * absent, or for JSON null where the code treats both alike.
   */
  datatype RawNode = RawNode(
    id: Option<int>,
    classType: string,
    mode: Option<int>,
    inputs: Option<seq<RawInput>>,
    outputs: Option<seq<RawOutput>>,
    widgetsValues: Option<seq<Value>>)

  datatype NodeInput = NodeInput(name: string, link: Option<Link>, widget: Option<string>)

  datatype NodeOutput = NodeOutput(name: string, links: Option<seq<Link>>)

  /** The `Widget` dataclass. */
  datatype Widget = Widget(inputName: string, widgetName: string, valueIndex: nat, value: Value)

  /** The exceptions loading a workflow can end in. */
  datatype LoadError =
    | MissingId                        // ValueError: the record has no "id"
    | MissingMode                      // AttributeError: `node.mode` was never set
    | UnknownLink(id: int)             // KeyError: a link id absent from the table
    | NoWidgetValues                   // TypeError: `None[widget_index]`
    | WidgetIndexOutOfRange(index: nat) // IndexError on `widgets_values`
    | UnknownNode(key: int)            // KeyError: a node id absent from `self.nodes`
    | BypassHangs(link: int)           // the bypass loop of this link never exits
    | SchemaMalformed                  // KeyError/TypeError on `object_infos["input"]`
    | ListHasNoUpdate                  // AttributeError: `list.update`
    | PopFromEmpty                     // IndexError: `pop` from an empty list

  /** Modes 2 (never) and 4 (bypass) disable a node. */
  predicate ModeDisabled(mode: int) {
    mode == 2 || mode == 4
  }

  // ---------------------------------------------------------------------
  // Inputs: link ids resolved, widgets indexed.

  /** The number of widget-bearing inputs. */
  function WidgetCount(inputs: seq<RawInput>): nat
    decreases |inputs|
  {
    if inputs == [] then 0
    else WidgetCount(inputs[..|inputs| - 1]) + (if inputs[|inputs| - 1].widget.Some? then 1 else 0)
  }

  lemma {:induction false} WidgetCountStep(inputs: seq<RawInput>, i: nat)
    requires i < |inputs|
    ensures WidgetCount(inputs[..i + 1]) == WidgetCount(inputs[..i]) + (if inputs[i].widget.Some? then 1 else 0)
  {
    assert inputs[..i + 1][..i] == inputs[..i];
  }

  lemma {:induction false} WidgetCountMonotone(inputs: seq<RawInput>, i: nat, j: nat)
    requires i <= j <= |inputs|
    ensures WidgetCount(inputs[..i]) <= WidgetCount(inputs[..j])
    decreases j - i
  {
    if i < j {
      WidgetCountStep(inputs, i);
      WidgetCountMonotone(inputs, i + 1, j);
    }
  }

  /** Widget-bearing inputs later in the list get larger widget indices. */
  lemma {:induction false} WidgetIndicesIncrease(inputs: seq<RawInput>, i: nat, j: nat)
    requires i < j < |inputs| && inputs[i].widget.Some?
    ensures WidgetCount(inputs[..i]) < WidgetCount(inputs[..j])
  {
    WidgetCountStep(inputs, i);
    WidgetCountMonotone(inputs, i + 1, j);
  }

  /** Every widget index below the count belongs to one widget-bearing input. */
  lemma {:induction false} WidgetIndexOwner(inputs: seq<RawInput>, k: nat) returns (j: nat)
    requires k < WidgetCount(inputs)
    ensures j < |inputs| && inputs[j].widget.Some? && WidgetCount(inputs[..j]) == k
    decreases |inputs|
  {
    var n := |inputs| - 1;
    var init := inputs[..n];
    assert init == inputs[..n];
    if k < WidgetCount(init) {
      j := WidgetIndexOwner(init, k);
      assert inputs[..j] == init[..j];
    } else {
      j := n;
      assert inputs == inputs[..|inputs|];
    }
  }

  /**
   * What goes wrong at input i, if anything: its link id is not in the
   * table, or it bears a widget and `widgets_values` is missing or too short
   * for the widget index that the inputs before it have reached.
   */
  function InputFault(inputs: seq<RawInput>, i: nat, edges: seq<Edge>, values: Option<seq<Value>>): Option<LoadError>
    requires i < |inputs|
  {
    var x := inputs[i];
    var k := WidgetCount(inputs[..i]);
    if x.link.Some? && IndexOfId(edges, x.link.value).None? then Some(UnknownLink(x.link.value))
    else if x.widget.None? then None
    else if values.None? then Some(NoWidgetValues)
    else if k >= |values.value| then Some(WidgetIndexOutOfRange(k))
    else None
  }

  /** The first input from position i on where something goes wrong. */
  function FirstInputFault(inputs: seq<RawInput>, i: nat, edges: seq<Edge>, values: Option<seq<Value>>): (r: Option<nat>)
    requires i <= |inputs|
    ensures r.Some? ==> i <= r.value < |inputs| && InputFault(inputs, r.value, edges, values).Some?
    ensures r.Some? ==> forall j :: i <= j < r.value ==> InputFault(inputs, j, edges, values).None?
    ensures r.None? <==> forall j :: i <= j < |inputs| ==> InputFault(inputs, j, edges, values).None?
    decreases |inputs| - i
  {
    if i == |inputs| then None
    else if InputFault(inputs, i, edges, values).Some? then Some(i)
    else FirstInputFault(inputs, i + 1, edges, values)
  }

  /** The exception the input loop of `Node.create` raises, if any. */
  function InputsFault(inputs: seq<RawInput>, edges: seq<Edge>, values: Option<seq<Value>>): Option<LoadError> {
    match FirstInputFault(inputs, 0, edges, values)
    case None => None
    case Some(i) => InputFault(inputs, i, edges, values)
  }

  /**
   * The input loop goes through exactly when every link id is in the table
   * and, if some input bears a widget, `widgets_values` has at least one
   * value per widget-bearing input.
   */
  lemma {:induction false} InputsSucceedIff(inputs: seq<RawInput>, edges: seq<Edge>, values: Option<seq<Value>>)
    ensures InputsFault(inputs, edges, values).None? <==>
      (forall j :: 0 <= j < |inputs| && inputs[j].link.Some? ==> IndexOfId(edges, inputs[j].link.value).Some?) &&
      (WidgetCount(inputs) == 0 || (values.Some? && WidgetCount(inputs) <= |values.value|))
  {
    assert inputs[..|inputs|] == inputs;
    var ok := InputsFault(inputs, edges, values).None?;
    if ok {
      assert forall j :: 0 <= j < |inputs| ==> InputFault(inputs, j, edges, values).None?;
      forall j | 0 <= j < |inputs| && inputs[j].link.Some?
        ensures IndexOfId(edges, inputs[j].link.value).Some?
      {
        assert InputFault(inputs, j, edges, values).None?;
      }
      if WidgetCount(inputs) > 0 {
        var j := WidgetIndexOwner(inputs, WidgetCount(inputs) - 1);
        assert InputFault(inputs, j, edges, values).None?;
      }
    } else {
      var i := FirstInputFault(inputs, 0, edges, values).value;
      if inputs[i].widget.Some? && !(inputs[i].link.Some? && IndexOfId(edges, inputs[i].link.value).None?) {
        WidgetCountStep(inputs, i);
        WidgetCountMonotone(inputs, i + 1, |inputs|);
      }
    }
  }

  /**
   * With every link id in the table and more widget-bearing inputs than
   * values, the loop stops with an IndexError at widget index
   * |widgets_values|: the first value that is missing.
   */
  lemma {:induction false} WidgetOverflow(inputs: seq<RawInput>, edges: seq<Edge>, values: seq<Value>)
    requires forall j :: 0 <= j < |inputs| && inputs[j].link.Some? ==> IndexOfId(edges, inputs[j].link.value).Some?
    requires WidgetCount(inputs) > |values|
    ensures InputsFault(inputs, edges, Some(values)) == Some(WidgetIndexOutOfRange(|values|))
  {
    var j0 := WidgetIndexOwner(inputs, |values|);
    assert InputFault(inputs, j0, edges, Some(values)).Some?;
    var i := FirstInputFault(inputs, 0, edges, Some(values)).value;
    assert i <= j0;
    if i < j0 {
      WidgetIndicesIncrease(inputs, i, j0);
    }
  }

  /** The first n inputs after the loop: each link id replaced by the link stored under it. */
  predicate ResolvedUpTo(inputs: seq<RawInput>, n: nat, links: seq<Link>, resolved: seq<NodeInput>)
    requires n <= |inputs|
  {
    |resolved| == n &&
    forall j :: 0 <= j < n ==>
      resolved[j].name == inputs[j].name && resolved[j].widget == inputs[j].widget &&
      (inputs[j].link.None? ==> resolved[j].link.None?) &&
      (inputs[j].link.Some? ==> resolved[j].link.Some? && Some(resolved[j].link.value) == LinkFor(links, inputs[j].link.value))
  }

  predicate InputsResolved(inputs: seq<RawInput>, links: seq<Link>, resolved: seq<NodeInput>) {
    ResolvedUpTo(inputs, |inputs|, links, resolved)
  }

  /**
   * The widgets of the first n inputs: one Widget per widget-bearing input,
   * in input order; the one of the input at position j has index k = the
   * number of widget-bearing inputs before j, and value `widgets_values[k]`.
   */
  predicate IndexedUpTo(inputs: seq<RawInput>, n: nat, values: Option<seq<Value>>, widgets: seq<Widget>)
    requires n <= |inputs|
  {
    |widgets| == WidgetCount(inputs[..n]) &&
    forall j :: 0 <= j < n && inputs[j].widget.Some? ==>
      var k := WidgetCount(inputs[..j]);
      k < |widgets| && values.Some? && k < |values.value| &&
      widgets[k] == Widget(inputs[j].name, inputs[j].widget.value, k, values.value[k])
  }

  predicate WidgetsIndexed(inputs: seq<RawInput>, values: Option<seq<Value>>, widgets: seq<Widget>) {
    IndexedUpTo(inputs, |inputs|, values, widgets)
  }

  lemma {:induction false} IndexedStep(inputs: seq<RawInput>, i: nat, values: Option<seq<Value>>, widgets: seq<Widget>)
    requires i < |inputs| && IndexedUpTo(inputs, i, values, widgets)
    requires inputs[i].widget.Some? ==> values.Some? && |widgets| < |values.value|
    ensures IndexedUpTo(inputs, i + 1, values,
      if inputs[i].widget.Some?
      then widgets + [Widget(inputs[i].name, inputs[i].widget.value, |widgets|, values.value[|widgets|])]
      else widgets)
  {
    WidgetCountStep(inputs, i);
  }

  lemma {:induction false} ResolvedStep(inputs: seq<RawInput>, i: nat, links: seq<Link>, resolved: seq<NodeInput>, link: Option<Link>)
    requires i < |inputs| && ResolvedUpTo(inputs, i, links, resolved)
    requires inputs[i].link.None? ==> link.None?
    requires inputs[i].link.Some? ==> link.Some? && link == LinkFor(links, inputs[i].link.value)
    ensures ResolvedUpTo(inputs, i + 1, links, resolved + [NodeInput(inputs[i].name, link, inputs[i].widget)])
  {
  }

  /** A fault at input i with none before it is the fault of the loop. */
  lemma {:induction false} FaultAt(inputs: seq<RawInput>, i: nat, edges: seq<Edge>, values: Option<seq<Value>>, e: LoadError)
    requires i < |inputs| && InputFault(inputs, i, edges, values) == Some(e)
    requires forall j :: 0 <= j < i ==> InputFault(inputs, j, edges, values).None?
    ensures InputsFault(inputs, edges, values) == Some(e)
  {
    assert FirstInputFault(inputs, 0, edges, values) == Some(i);
  }

  /** The input loop of `Node.create`, without the schema lookup. */
  method ResolveInputs(inputs: seq<RawInput>, links: seq<Link>, values: Option<seq<Value>>)
    returns (r: Result<(seq<NodeInput>, seq<Widget>), LoadError>)
    ensures r.Err? <==> InputsFault(inputs, Edges(links), values).Some?
    ensures r.Err? ==> Some(r.error) == InputsFault(inputs, Edges(links), values)
    ensures r.Ok? ==> InputsResolved(inputs, links, r.value.0) && WidgetsIndexed(inputs, values, r.value.1)
  {
    ghost var edges := Edges(links);
    var resolved: seq<NodeInput> := [];
    var widgets: seq<Widget> := [];
    var widgetIndex := 0;
    for i := 0 to |inputs|
      invariant widgetIndex == WidgetCount(inputs[..i]) == |widgets|
      invariant forall j :: 0 <= j < i ==> InputFault(inputs, j, edges, values).None?
      invariant ResolvedUpTo(inputs, i, links, resolved)
      invariant IndexedUpTo(inputs, i, values, widgets)
    {
      var x := inputs[i];
      WidgetCountStep(inputs, i);
      var link: Option<Link> := None;
      if x.link.Some? {
        link := LinkFor(links, x.link.value);
        if link.None? {
          FaultAt(inputs, i, edges, values, UnknownLink(x.link.value));
          return Err(UnknownLink(x.link.value));
        }
      }
      if x.widget.Some? {
        if values.None? {
          FaultAt(inputs, i, edges, values, NoWidgetValues);
          return Err(NoWidgetValues);
        }
        if widgetIndex >= |values.value| {
          FaultAt(inputs, i, edges, values, WidgetIndexOutOfRange(widgetIndex));
          return Err(WidgetIndexOutOfRange(widgetIndex));
        }
        IndexedStep(inputs, i, values, widgets);
        widgets := widgets + [Widget(x.name, x.widget.value, widgetIndex, values.value[widgetIndex])];
        widgetIndex := widgetIndex + 1;
      } else {
        IndexedStep(inputs, i, values, widgets);
      }
      assert InputFault(inputs, i, edges, values).None?;
      ResolvedStep(inputs, i, links, resolved, link);
      resolved := resolved + [NodeInput(x.name, link, x.widget)];
    }
    assert inputs[..|inputs|] == inputs;
    return Ok((resolved, widgets));
  }

  // ---------------------------------------------------------------------
  // Outputs: each list of link ids mapped to links.

  /** The position of the first id not in the table. */
  function FirstUnknown(ids: seq<int>, edges: seq<Edge>): (r: Option<nat>)
    ensures r.Some? ==> r.value < |ids| && IndexOfId(edges, ids[r.value]).None?
    ensures r.Some? ==> forall k :: 0 <= k < r.value ==> IndexOfId(edges, ids[k]).Some?
    ensures r.None? <==> forall k :: 0 <= k < |ids| ==> IndexOfId(edges, ids[k]).Some?
  {
    if ids == [] then None
    else if IndexOfId(edges, ids[0]).None? then Some(0)
    else match FirstUnknown(ids[1..], edges)
      case None => None
      case Some(k) => Some(k + 1)
  }

  predicate OutputResolves(o: RawOutput, edges: seq<Edge>) {
    o.links.None? || FirstUnknown(o.links.value, edges).None?
  }

  /** The first output from position i on that holds an id not in the table. */
  function FirstBadOutput(outputs: seq<RawOutput>, i: nat, edges: seq<Edge>): (r: Option<nat>)
    requires i <= |outputs|
    ensures r.Some? ==> i <= r.value < |outputs| && !OutputResolves(outputs[r.value], edges)
    ensures r.Some? ==> forall j :: i <= j < r.value ==> OutputResolves(outputs[j], edges)
    ensures r.None? <==> forall j :: i <= j < |outputs| ==> OutputResolves(outputs[j], edges)
    decreases |outputs| - i
  {
    if i == |outputs| then None
    else if !OutputResolves(outputs[i], edges) then Some(i)
    else FirstBadOutput(outputs, i + 1, edges)
  }

  /**
   * The KeyError of the output loop, if any: for the first output holding an
   * id that is not in the table, the first such id.
   */
  function OutputsFault(outputs: seq<RawOutput>, edges: seq<Edge>): Option<LoadError> {
    match FirstBadOutput(outputs, 0, edges)
    case None => None
    case Some(i) =>
      var ids := outputs[i].links.value;
      Some(UnknownLink(ids[FirstUnknown(ids, edges).value]))
  }

  /** `[links[i] for i in ids]`: the link stored under each id, length and order kept. */
  predicate LinksFor(ids: seq<int>, links: seq<Link>, ls: seq<Link>) {
    |ls| == |ids| && forall k :: 0 <= k < |ids| ==> Some(ls[k]) == LinkFor(links, ids[k])
  }

  /** One output after the loop: same name, its id list (if any) mapped to links. */
  predicate OutputResolvedTo(o: RawOutput, links: seq<Link>, r: NodeOutput) {
    r.name == o.name &&
    (o.links.None? <==> r.links.None?) &&
    (o.links.Some? ==> LinksFor(o.links.value, links, r.links.value))
  }

  /** The outputs after the loop: each id list mapped to links, length and order kept. */
  predicate OutputsResolved(outputs: seq<RawOutput>, links: seq<Link>, resolved: seq<NodeOutput>) {
    |resolved| == |outputs| &&
    forall i :: 0 <= i < |outputs| ==> OutputResolvedTo(outputs[i], links, resolved[i])
  }

  /** The loop over one output's `links`: Err(id) for the first id not in the table. */
  method ResolveLinkIds(ids: seq<int>, links: seq<Link>) returns (r: Result<seq<Link>, int>)
    ensures r.Err? <==> FirstUnknown(ids, Edges(links)).Some?
    ensures r.Err? ==> r.error == ids[FirstUnknown(ids, Edges(links)).value]
    ensures r.Ok? ==> LinksFor(ids, links, r.value)
  {
    var newLinks: seq<Link> := [];
    for k := 0 to |ids|
      invariant |newLinks| == k
      invariant forall k' :: 0 <= k' < k ==> Some(newLinks[k']) == LinkFor(links, ids[k'])
    {
      var l := LinkFor(links, ids[k]);
      if l.None? {
        assert FirstUnknown(ids, Edges(links)) == Some(k);
        return Err(ids[k]);
      }
      newLinks := newLinks + [l.value];
    }
    return Ok(newLinks);
  }

  /** The first output holding an unknown id decides the fault of the loop. */
  lemma {:induction false} OutputFaultAt(outputs: seq<RawOutput>, i: nat, edges: seq<Edge>)
    requires i < |outputs| && !OutputResolves(outputs[i], edges)
    requires forall j :: 0 <= j < i ==> OutputResolves(outputs[j], edges)
    ensures OutputsFault(outputs, edges) ==
      Some(UnknownLink(outputs[i].links.value[FirstUnknown(outputs[i].links.value, edges).value]))
  {
    assert FirstBadOutput(outputs, 0, edges) == Some(i);
  }

  /** The output loop of `Node.create`. */
  method ResolveOutputs(outputs: seq<RawOutput>, links: seq<Link>) returns (r: Result<seq<NodeOutput>, LoadError>)
    ensures r.Err? <==> OutputsFault(outputs, Edges(links)).Some?
    ensures r.Err? ==> Some(r.error) == OutputsFault(outputs, Edges(links))
    ensures r.Ok? ==> OutputsResolved(outputs, links, r.value)
  {
    ghost var edges := Edges(links);
    var resolved: seq<NodeOutput> := [];
    for i := 0 to |outputs|
      invariant forall j :: 0 <= j < i ==> OutputResolves(outputs[j], edges)
      invariant |resolved| == i
      invariant forall j :: 0 <= j < i ==> OutputResolvedTo(outputs[j], links, resolved[j])
    {
      var o := outputs[i];
      if o.links.None? {
        resolved := resolved + [NodeOutput(o.name, None)];
      } else {
        var rl := ResolveLinkIds(o.links.value, links);
        if rl.Err? {
          OutputFaultAt(outputs, i, edges);
          return Err(UnknownLink(rl.error));
        }
        resolved := resolved + [NodeOutput(o.name, Some(rl.value))];
      }
    }
    assert FirstBadOutput(outputs, 0, edges).None?;
    return Ok(resolved);
  }

  // ---------------------------------------------------------------------
  // The whole of `Node.create`.

  /** The exception `Node.create` raises on a record, if any, in the order the code meets them. */
  function NodeFault(raw: RawNode, edges: seq<Edge>): Option<LoadError> {
    if raw.id.None? then Some(MissingId)
    else if raw.mode.None? then Some(MissingMode)
    else if raw.inputs.Some? && InputsFault(raw.inputs.value, edges, raw.widgetsValues).Some? then
      InputsFault(raw.inputs.value, edges, raw.widgetsValues)
    else if raw.outputs.Some? then OutputsFault(raw.outputs.value, edges)
    else None
  }

  /**
   * The schema lookup of `Node.create` as written (`obj_inputs` filled from
   * the object info, then popped once per input): `obj_inputs` is a
   * list, so `update` on it raises AttributeError as soon as the object
   * info has an input section, and `pop` on the still empty list raises
   * IndexError at the first input.
   */
  function ScaffoldAsWritten(infos: Option<Value>, inputs: Option<seq<RawInput>>): Option<LoadError> {
    if infos.Some? && !(infos.value.Object? && "input" in infos.value.fields && infos.value.fields["input"].Object?) then
      Some(SchemaMalformed)
    else if infos.Some? && infos.value.fields["input"].fields != map[] then Some(ListHasNoUpdate)
    else if inputs.Some? && |inputs.value| > 0 then Some(PopFromEmpty)
    else None
  }

  /**
   * As written, the scaffolding raises for every node that has an input,
   * and for every node whose object info lists any input: it only lets
   * through nodes with neither.
   */
  lemma {:induction false} ScaffoldAlwaysRaises(infos: Option<Value>, inputs: Option<seq<RawInput>>)
    ensures ScaffoldAsWritten(infos, inputs).None? <==>
      (inputs.None? || inputs.value == []) &&
      (infos.None? || (infos.value.Object? && "input" in infos.value.fields &&
                       infos.value.fields["input"] == Object(map[])))
  {
    if infos.Some? && infos.value.Object? && "input" in infos.value.fields && infos.value.fields["input"].Object? {
      assert infos.value.fields["input"] == Object(infos.value.fields["input"].fields);
    }
  }

  /** A concrete record on which the source raises: one input, schema known. */
  lemma ScaffoldRaisesOnTypicalNode()
    ensures ScaffoldAsWritten(
      Some(Object(map["input" := Object(map["required" := Object(map[])])])),
      Some([RawInput("model", Some(1), None)])) == Some(ListHasNoUpdate)
    ensures ScaffoldAsWritten(None, Some([RawInput("model", Some(1), None)])) == Some(PopFromEmpty)
  {
    var fields := map["required" := Object(map[])];
    assert "required" in fields;
  }

  /**
   * What `Node.create` builds from a record it accepts, given the object
   * info it was served: the record's id, type and mode, disabled for modes
   * 2 and 4, every link id replaced by the link stored under it, and the
   * widgets indexed in input order.
   */
  predicate CreatedFrom(n: Node, raw: RawNode, links: seq<Link>, infos: Option<Value>) {
    && raw.id.Some? && raw.mode.Some?
    && n.id == raw.id.value && n.classType == raw.classType
    && n.mode == raw.mode.value && (n.disabled <==> (raw.mode.value == 2 || raw.mode.value == 4))
    && n.objectInfos == infos
    && n.widgetsValues == raw.widgetsValues
    && (raw.inputs.None? ==> n.inputs.None? && n.widgets == [])
    && (raw.inputs.Some? ==> n.inputs.Some? && InputsResolved(raw.inputs.value, links, n.inputs.value) &&
                             WidgetsIndexed(raw.inputs.value, raw.widgetsValues, n.widgets))
    && (raw.outputs.None? ==> n.outputs.None?)
    && (raw.outputs.Some? ==> n.outputs.Some? && OutputsResolved(raw.outputs.value, links, n.outputs.value))
  }

  class Node {
    const id: int
    const classType: string
    const mode: int
    const disabled: bool
    const inputs: Option<seq<NodeInput>>
    const outputs: Option<seq<NodeOutput>>
    const widgetsValues: Option<seq<Value>>
    const widgets: seq<Widget>
    const objectInfos: Option<Value>

    constructor (id: int, classType: string, mode: int, inputs: Option<seq<NodeInput>>, outputs: Option<seq<NodeOutput>>,
                 widgetsValues: Option<seq<Value>>, widgets: seq<Widget>, objectInfos: Option<Value>)
      ensures this.id == id && this.classType == classType && this.mode == mode
      ensures disabled == ModeDisabled(mode)
      ensures this.inputs == inputs && this.outputs == outputs && this.widgetsValues == widgetsValues
      ensures this.widgets == widgets && this.objectInfos == objectInfos
    {
      this.id := id;
      this.classType := classType;
      this.mode := mode;
      disabled := ModeDisabled(mode);
      this.inputs := inputs;
      this.outputs := outputs;
      this.widgetsValues := widgetsValues;
      this.widgets := widgets;
      this.objectInfos := objectInfos;
    }

    /**
     * `Node.create`, without the schema lookup (see `ScaffoldAsWritten`). The
     * id check comes before the cache is consulted; every later check after.
     */
    static method Create(raw: RawNode, links: seq<Link>, cache: ObjectInfoCache, fetch: string -> Option<Value>)
      returns (r: Result<Node, LoadError>)
      modifies cache
      ensures r.Err? <==> NodeFault(raw, Edges(links)).Some?
      ensures r.Err? ==> Some(r.error) == NodeFault(raw, Edges(links))
      ensures raw.id.None? ==> cache.entries == old(cache.entries)
      ensures raw.id.Some? ==> cache.entries == CacheAfter(old(cache.entries), fetch, raw.classType)
      ensures r.Ok? ==> fresh(r.value)
      ensures r.Ok? ==> CreatedFrom(r.value, raw, links, Served(old(cache.entries), fetch, raw.classType))
    {
      if raw.id.None? {
        return Err(MissingId);
      }
      var infos := cache.Get(raw.classType, fetch);
      if raw.mode.None? {
        return Err(MissingMode);
      }
      var inputs: Option<seq<NodeInput>> := None;
      var widgets: seq<Widget> := [];
      if raw.inputs.Some? {
        var ri := ResolveInputs(raw.inputs.value, links, raw.widgetsValues);
        if ri.Err? {
          return Err(ri.error);
        }
        inputs := Some(ri.value.0);
        widgets := ri.value.1;
      }
      var outputs: Option<seq<NodeOutput>> := None;
      if raw.outputs.Some? {
        var ro := ResolveOutputs(raw.outputs.value, links);
        if ro.Err? {
          return Err(ro.error);
        }
        outputs := Some(ro.value);
      }
      var node := new Node(raw.id.value, raw.classType, raw.mode.value, inputs, outputs, raw.widgetsValues, widgets, infos);
      return Ok(node);
    }
  }
}
