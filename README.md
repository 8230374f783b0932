# comfyui-utils core, modelled in Dafny

This models two files of the ComfyUI client helpers.

`workflow2prompt.py` loads a ComfyUI workflow file, the graph format of the
ComfyUI editor. It works in four steps:

- it builds a table of `Link` objects;
- it turns each node record into a `Node`, replacing the link ids of the node's
  inputs and outputs with the `Link` objects and pairing each widget-bearing
  input with its entry in `widgets_values`;
- every `Node.create` consults a module-level cache of ComfyUI's per-class
  object info;
- it routes every link around disabled nodes (mode 2 "never" or mode 4
  "bypass"). It does this by rewriting the link's *final* source: while that
  source node is disabled, it follows the first link that lands on the same
  slot of it.

`comfy.py` is an asynchronous HTTP/websocket client of the ComfyUI server. The
model covers its sequential helpers:

- flattening the `/queue` answer into a list of prompt ids;
- finding a prompt in the `/history` answer;
- shaping cached outputs, including the fix for texts that arrive as a list
  of single characters;
- decoding the 8-byte header of a binary preview message;
- assembling the error message of a rejected `POST /prompt`.

Mutable objects are Dafny classes:

- `LinkTable.Link`: the six raw fields are `const`; the final source is `var`,
  because that is all the bypass pass writes.
- `Nodes.ObjectInfoCache`: the module-level dict.
- `Workflow2Prompt.Workflow`: the link and node tables.

A Python dict becomes:

- a sequence of its values in insertion order, with distinct ids, for the
  link table, whose order `find_link_by_dst` depends on;
- a `map` for the node table and the cache.

JSON values are `Json.Value`. Server answers and ComfyUI's object-info lookup
become parameters. Python exceptions become the `Err` case of a `Result`.

The bypass loop for one link has no cycle guard. `Bypass` describes it step by
step as a walk over plain values. `Bypass.ResolveRunningIffDiverges` proves
that `|links| + 1` iterations decide it: a walk still running after that many
steps runs forever. The methods report such a walk as `BypassHangs`.

Modules and files:

| module | file |
|---|---|
| `Outcomes` | `outcomes.dfy` |
| `Json` | `json.dfy` |
| `Strings` | `strings.dfy` |
| `Bypass` | `bypass.dfy` |
| `LinkTable` | `links.dfy` |
| `Nodes` | `nodes.dfy` |
| `Workflow2Prompt` | `workflow.dfy` |
| `Comfy` | `comfy.dfy` |

## Model

| member | source | states |
|---|---|---|
| LinkTable.Link.constructor | comfyui_utils/workflow2prompt.py:40-48 | The link holds the six given fields, and its final source starts equal to its raw source. |
| LinkTable.LinkFor | comfyui_utils/workflow2prompt.py:103 | `links[id]` finds a link exactly when some table entry has that id, and the link found carries that id. |
| LinkTable.LinkDictDistinct | comfyui_utils/workflow2prompt.py:159-163 | The link dict never holds two entries with the same id. |
| LinkTable.LinkDictOrder | comfyui_utils/workflow2prompt.py:159-163 | The table's ids are the raw ids, each once, in order of first occurrence: an overwrite keeps the old entry's position. |
| LinkTable.LinkDictLastWins | comfyui_utils/workflow2prompt.py:159-163 | For an id, the table entry is the last raw link carrying it. |
| LinkTable.BuildLinkTable | comfyui_utils/workflow2prompt.py:159-163 | The loop's table equals the dict specification `LinkDict`. Every link in it is newly allocated and has its final source equal to its raw source. |
| Bypass.FirstByDst | comfyui_utils/workflow2prompt.py:189-193 | Returns the first index in table order whose destination is (node, pos), or None exactly when no link has that destination. |
| Bypass.FirstBySrc | comfyui_utils/workflow2prompt.py:195-199 | Returns the first index in table order whose source is (node, pos), or None exactly when no link has that source. |
| Bypass.StaysStopped | comfyui_utils/workflow2prompt.py:177-181 | Once the loop has exited, broken out or raised, later steps change nothing. |
| Bypass.RepeatWithinBound | comfyui_utils/workflow2prompt.py:177-184 | If the loop is still running after `|links| + 1` iterations, some state repeats within those iterations. |
| Bypass.ResolveRunningIffDiverges | comfyui_utils/workflow2prompt.py:177-184 | The loop is still running after `|links| + 1` iterations exactly when it runs forever. |
| Bypass.StopsAtEnabledOrDeadEnd | comfyui_utils/workflow2prompt.py:176-184 | For a freshly built link, when the loop exits, it exits at an enabled node, or it breaks out at a disabled node on which no link lands at that slot, or it raises KeyError for an id missing from the node table. A walk still running at the bound sits on a disabled node; `ResolveRunningIffDiverges` shows that such a walk never exits. |
| Bypass.EnabledSourceUntouched | comfyui_utils/workflow2prompt.py:176-177 | A link whose raw source node is enabled keeps its final source. |
| Bypass.SingleHop | comfyui_utils/workflow2prompt.py:177-184 | A link leaving a disabled node ends at the raw source of the first link landing on that slot, when that source is enabled. |
| Bypass.FinalIsRawSource | comfyui_utils/workflow2prompt.py:182-183 | A final source that moved is the raw source of some link, never another link's rewritten final source. |
| Nodes.HitNeedsNoFetch | comfyui_utils/workflow2prompt.py:18-20 | On a hit, the answer is the cached entry, whatever ComfyUI would answer, and the cache is unchanged. |
| Nodes.MissStoresOnlyAnswers | comfyui_utils/workflow2prompt.py:21-28 | On a miss, the answer is what was fetched. It is stored exactly when it is not None, and no other entry changes. |
| Nodes.CacheTransparent | comfyui_utils/workflow2prompt.py:17-28 | A cache filled only from ComfyUI's answers answers what a fetch would, and it stays that way. |
| Nodes.ObjectInfoCache.constructor | comfyui_utils/workflow2prompt.py:15 | The module-level cache starts empty. |
| Nodes.ObjectInfoCache.Get | comfyui_utils/workflow2prompt.py:17-28 | `_get_object_infos` returns the served value and leaves the cache as `CacheAfter` says. |
| Nodes.WidgetIndicesIncrease | comfyui_utils/workflow2prompt.py:99-112 | A widget-bearing input gets a smaller widget index than any input after it. |
| Nodes.WidgetIndexOwner | comfyui_utils/workflow2prompt.py:99-112 | Every widget index below the widget count is the index of some widget-bearing input. |
| Nodes.FirstInputFault | comfyui_utils/workflow2prompt.py:100-112 | Finds the first input whose link id is unknown or whose widget value is missing; None exactly when there is none. |
| Nodes.InputsSucceedIff | comfyui_utils/workflow2prompt.py:98-112 | The input loop goes through exactly when every link id is in the table and `widgets_values` has a value for every widget-bearing input. |
| Nodes.WidgetOverflow | comfyui_utils/workflow2prompt.py:104-112 | When every link resolves but there are more widget-bearing inputs than values, the loop fails at index `len(widgets_values)`. |
| Nodes.ResolveInputs | comfyui_utils/workflow2prompt.py:98-112 | Fails with exactly the first fault. Otherwise each input's link id becomes the link stored under it. The widgets are built in input order, and widget k holds value k. |
| Nodes.FirstUnknown | comfyui_utils/workflow2prompt.py:118-119 | Returns the first id of an output's list that is not in the table; None exactly when all ids are in it. |
| Nodes.FirstBadOutput | comfyui_utils/workflow2prompt.py:114-120 | Returns the first output holding an unknown id; None exactly when every output resolves. |
| Nodes.ResolveLinkIds | comfyui_utils/workflow2prompt.py:117-120 | Fails with the first id not in the table, exactly when there is one. Otherwise returns the link stored under each id, length and order kept. |
| Nodes.ResolveOutputs | comfyui_utils/workflow2prompt.py:114-120 | Fails with KeyError for the first unknown id. Otherwise each id list becomes the list of links stored under those ids, with length and order kept. |
| Nodes.ScaffoldAlwaysRaises | comfyui_utils/workflow2prompt.py:88-101 | As written, the schema lookup lets a node through only if it has no inputs and its object info is absent or has an empty input section. |
| Nodes.ScaffoldRaisesOnTypicalNode | comfyui_utils/workflow2prompt.py:88-101 | A one-input node makes the code as written raise: AttributeError with a schema, IndexError without one. |
| Nodes.Node.constructor | comfyui_utils/workflow2prompt.py:79-96 | The node holds the given fields, and it is disabled exactly for mode 2 or 4. |
| Nodes.Node.Create | comfyui_utils/workflow2prompt.py:78-121 | Fails exactly on the first fault, in the order id, mode, inputs, outputs. The cache is consulted after the id check. On success: the node has the record's id, class type and mode; it is disabled exactly for mode 2 or 4; its object info is the served one; its inputs, widgets and outputs are resolved as above. The predicate `CreatedFrom` collects these facts. |
| Workflow2Prompt.DisabledTableLastWins | comfyui_utils/workflow2prompt.py:165-169 | A node id's disabled flag comes from the last record carrying that id. |
| Workflow2Prompt.DisabledTableKeys | comfyui_utils/workflow2prompt.py:165-169 | The node table holds exactly the ids of the records. |
| Workflow2Prompt.LastRecord | comfyui_utils/workflow2prompt.py:166-168 | Returns the position of the last record carrying an id, the one whose node `self.nodes[node.id] = node` keeps; None exactly when no record carries it. |
| Workflow2Prompt.RecordsGrowCache | comfyui_utils/workflow2prompt.py:17-167 | Running `Node.create` over the records keeps every cache entry and adds only ComfyUI's answers. |
| Workflow2Prompt.RecordsServedAnswers | comfyui_utils/workflow2prompt.py:17-167 | From a cache holding only ComfyUI's answers, such as the empty one, every record is served exactly ComfyUI's answer for its class type. |
| Workflow2Prompt.FirstNodeFault | comfyui_utils/workflow2prompt.py:166-167 | Returns the first record `Node.create` rejects; None exactly when it accepts all of them. |
| Workflow2Prompt.Workflow.constructor | comfyui_utils/workflow2prompt.py:159-168 | A workflow is built from a link table with distinct ids (`LinkDictDistinct`), so it satisfies `Valid`. |
| Workflow2Prompt.Workflow.FindLinkByDst | comfyui_utils/workflow2prompt.py:189-193 | Returns the link at `FirstByDst`, the first in table order landing on (node, pos), or None when no link lands there. |
| Workflow2Prompt.Workflow.FindLinkBySrc | comfyui_utils/workflow2prompt.py:195-199 | Returns the link at `FirstBySrc`, the first in table order leaving (node, pos), or None when no link leaves there. |
| Workflow2Prompt.Workflow.BypassLink | comfyui_utils/workflow2prompt.py:176-184 | The link's final source becomes the end of the bypass walk that starts from its raw source node and its old final source. |
| Workflow2Prompt.Workflow.FollowDisabled | comfyui_utils/workflow2prompt.py:177-184 | Entered at a disabled source, the loop leaves the link at the outcome of `Resolve`. Each iteration follows the first link landing on the final source. |
| Workflow2Prompt.Workflow.PruneSourceLinks | comfyui_utils/workflow2prompt.py:173-187 | Processes links in table order. With no error, every link ends at its settled walk. Otherwise the first failing link gives the error: the links before it are settled, and the links after it are untouched. The table stays `Valid`. |
| Workflow2Prompt.Workflow.CreateNodes | comfyui_utils/workflow2prompt.py:165-169 | Fails with the first rejected record's fault. Otherwise the keys of the node table are the records' ids. Under each id is a new node that satisfies `CreatedFrom` for the last record with that id, with the object info the cache served that record (`TableFrom`). The cache ends as `CacheAfterRecords` over the records up to and including the first rejected one (`Consulted`). |
| Workflow2Prompt.Workflow.LoadTables | comfyui_utils/workflow2prompt.py:159-169 | The link table is `LinkDict`, with new links that are as built. The node table and the cache are as for `CreateNodes`. Each link's walk is the walk of a fresh link (`FreshWalk`). |
| Workflow2Prompt.Workflow.Load | comfyui_utils/workflow2prompt.py:159-171 | Result of loading a parsed file; see the note after this table. |
| Strings.Decimal | comfyui_utils/comfy.py:171 | `str(n)` is a non-empty string of digits, with one digit exactly for n below 10. |
| Strings.DecimalRoundTrip | comfyui_utils/comfy.py:171 | Reading the digits back gives n, so distinct numbers format differently. |
| Strings.SplitJoin | comfyui_utils/comfy.py:250 | Splitting a newline-join of newline-free lines gives the lines back. |
| Comfy.QueueIds | comfyui_utils/comfy.py:43-51 | See the note after this table. |
| Comfy.ParseQueue | comfyui_utils/comfy.py:43-51 | The loop computes `QueueIds`. |
| Comfy.IndexOf | comfyui_utils/comfy.py:76-77 | `queue.index(x)`: the first position holding x; None exactly when x is not in the list. |
| Comfy.HistoryStop | comfyui_utils/comfy.py:54-59 | Returns the first history entry whose prompt list is too short or holds the prompt at index 2; None exactly when there is none. |
| Comfy.FindPromptInHistory | comfyui_utils/comfy.py:54-59 | At that first entry: IndexError if its list is short, otherwise its key. With no such entry, None. |
| Comfy.HistorySearchFirstMatch | comfyui_utils/comfy.py:54-59 | With well-formed entries, the search finds the first entry holding the prompt, and None exactly when no entry holds it. |
| Comfy.Lookup | comfyui_utils/comfy.py:84 | `history[key]` returns an entry stored under the key; None exactly when no entry has it. |
| Comfy.ConcatOfChars | comfyui_utils/comfy.py:97 | Joining single-character strings gives a string of that length, holding those characters in order. |
| Comfy.FixedText | comfyui_utils/comfy.py:91-97 | A list of single-character strings becomes a one-element list holding their join. Any other text is unchanged. |
| Comfy.JoinIfAllChars | comfyui_utils/comfy.py:93-97 | The for-else loop gives the joined text exactly when every element is a one-character string. |
| Comfy.ScanRaisesOnNumber | comfyui_utils/comfy.py:93-95 | As written, the text list `["a", 5]` raises TypeError, while the fixed check leaves it unchanged. |
| Comfy.ScanAgreesWhenNoRaise | comfyui_utils/comfy.py:93-97 | Where the code as written does not raise, it decides exactly as the fixed check. |
| Comfy.ShapeCachedOutputs | comfyui_utils/comfy.py:86-98 | One result per cached output, in order. Each result is the output with "node" set to its node id and its text fixed; no other key changes. |
| Comfy.QueuePositionOrCachedResult | comfyui_utils/comfy.py:70-99 | See the note after this table. |
| Comfy.U32At | comfyui_utils/comfy.py:156-157 | A big-endian `>I` read is below 2^32. |
| Comfy.U32RoundTrip | comfyui_utils/comfy.py:156-157 | Reading back the four big-endian bytes of n gives n. |
| Comfy.U32Bytes | comfyui_utils/comfy.py:156-157 | Any four bytes are the encoding of the number read from them. |
| Comfy.EventName | comfyui_utils/comfy.py:166-171 | Event numbers other than 1 and 2 are named "UNKNOWN " followed by the number's decimal digits. |
| Comfy.EventNameInjective | comfyui_utils/comfy.py:166-171 | Different event numbers get different names. |
| Comfy.DecodePreview | comfyui_utils/comfy.py:155-178 | See the note after this table. |
| Comfy.DecodeEncode | comfyui_utils/comfy.py:156-173 | Decoding a message built as the server's `send_image` builds it gives back its image type, event name and payload. |
| Comfy.EncodeDecode | comfyui_utils/comfy.py:156-173 | Every accepted message is such a build of the image type, some event number and its payload. |
| Comfy.NodeLines | comfyui_utils/comfy.py:248-249 | One line per error of a node, in order, each "Node id, details: message". |
| Comfy.ErrorLineAt | comfyui_utils/comfy.py:246-249 | The lines run node by node, then error by error: line `before(i) + k` is the line of error k of node i. |
| Comfy.ErrorLinesLength | comfyui_utils/comfy.py:246-249 | There is exactly one line per error. |
| Comfy.CollectErrorLines | comfyui_utils/comfy.py:246-249 | The nested loops compute `ErrorLines`. |
| Comfy.Submit | comfyui_utils/comfy.py:243-252 | See the note after this table. |
| Comfy.ErrorLinesNoNewline | comfyui_utils/comfy.py:249 | With newline-free parts, no error line holds a newline. |
| Comfy.RejectionLinesRecoverable | comfyui_utils/comfy.py:250 | The message starts with a newline, and splitting the rest at newlines gives back every error line in order. |

Rows whose contracts are too long for one cell:

- Workflow2Prompt.Workflow.Load: if `Node.create` rejects some record, the
  first such fault is the error. On success:
  - the link table equals `LinkDict`, with distinct ids;
  - the disabled flags are `DisabledTable`;
  - the node table is as `CreateNodes` states (`TableFrom`);
  - every link sits at the end of its `Resolve` walk, and that walk settled.

  Otherwise the error comes from the first link in table order whose walk
  does not settle, and the walks of all links before it settle. In every
  case the cache ends as `CacheAfterRecords` over the records `Node.create`
  ran on.
- Comfy.QueueIds: the running prompt's id (if any), then the pending ids, in
  order. AssertionError if more than one prompt is running. IndexError
  exactly when some entry has no index 1.
- Comfy.QueuePositionOrCachedResult:
  - errors of the queue parse are passed on;
  - a queued prompt gives its first position;
  - otherwise the history search decides: "not found" raises ValueError, and
    a short entry raises IndexError;
  - with a match, the result is the shaped outputs of that entry.
- Comfy.DecodePreview: decoding succeeds exactly for at least 8 bytes with
  type number 1 or 2. The type, the event name (of the second word) and the
  payload `data[8:]` come from the message.
- Comfy.Submit:
  - "error" present without "node_errors": ValueError with `error.message`;
  - with "node_errors": ValueError with a newline, then the error lines
    joined by newlines;
  - otherwise `prompt_id`, or KeyError when it is absent.

## Left out

- I/O: `aiohttp` requests, the websocket loop `_prompt_websocket`,
  `get_object_info`, `fetch`, `submit`'s request building and `uuid`. Server
  answers are parameters, and ComfyUI's object-info lookup is a function
  `fetch` of the class type.
- `async`/`await`, logging, `__str__`/`__repr__` of `Link`, and `dotdict`.
- Workflow file handling: the path check and `json.load` in
  `Workflow.__init__`/`load`. The file arrives parsed into link tuples and
  node records.
- `Link(*l)` with a tuple of the wrong length: the raw links are always
  six-field records.
- A missing `type` key: the model gives every node record a class-type
  string.
- `setattr` of record keys other than `id`, `mode`, `inputs`, `outputs` and
  `widgets_values`: the other attributes of a node are not modelled. JSON
  null and a missing key are treated alike where the code tests
  `is not None`.
- In-place rewriting of the original JSON objects: the model does not keep
  the aliasing between the file's dicts and the node's inputs and outputs.
  The same holds for `_get_queue_position_or_cached_result` writing into the
  history answer. The model builds new values instead.
- Null ids and modes, and Python's equality between `True` and `1`. Ids and
  modes are integers, never null. In the source, `"id": null` passes the key
  test and gives a node stored under None, and `"mode": null` gives an
  enabled node; the model reports `MissingId` and `MissingMode` for these.
  `Json.Value` equality does not equate booleans with numbers. This affects
  `mode in [2, 4]`, `prompt_id in queue` and the prompt comparison of the
  history search.
- A dict given as `widgets_values`, and indexing with a negative widget
  index: the model does neither.
- Nodes.Node.Create: does not model the schema lookup of
  `workflow2prompt.py:88-91` and `:101`,
  which as written raises for almost every node (see Findings). It models the
  node creation without it. `Nodes.ScaffoldAsWritten` states the code as
  written.
- Workflow2Prompt.Workflow.PruneSourceLinks: a bypass loop that never exits
  is reported as `BypassHangs` after `|links| + 1` iterations;
  `Bypass.ResolveRunningIffDiverges` proves those are exactly the loops that
  run forever.
- Missing keys in the input records of the workflow file: an input without
  `name` that carries a widget, and a `widget` object without `name`. Both
  raise KeyError in the source. A `RawInput` always has a name, and its widget
  is reduced to the widget's name.
- Missing keys in the server answers, which raise KeyError in the source:
  `queue_running`, `queue_pending`, `prompt`, `outputs`, `error.message`,
  `errors`, `details` and `message`. The answer datatypes always carry
  them. Only `prompt_id` is optional.
- Comfy.DecodePreview: `Image.open` on the payload is not modelled. When
  the decoder accepts the header, the model returns the payload; the source
  may still return None when PIL rejects the bytes.
- Comfy.ShapeCachedOutputs: uses the corrected text check of Findings row 2
  (`JoinIfAllChars`). As written, the loop raises TypeError on a text list
  with a non-string element such as `["a", 5]`; the model leaves that text
  unchanged. `Comfy.ScanAsWritten` states the code as written.
- Comfy.QueuePositionOrCachedResult: inherits that correction from
  `ShapeCachedOutputs`, so it returns the cached outputs where the source
  raises TypeError.
- With "node_errors" present but empty, the rejection message is a single
  newline, as written.
- A history answer is a sequence of (key, entry) pairs. Key uniqueness is
  not required, and `Lookup` returns the first entry with a key.

## Findings

| source | as written | input that shows it | evidently intended | confidence | as-written member | corrected member |
|---|---|---|---|---|---|---|
| comfyui_utils/workflow2prompt.py:88-91,101 | `obj_inputs` is a list, so `obj_inputs.update(v)` raises AttributeError for any object info with an input section, and `obj_inputs.pop()` raises IndexError on the still-empty list at the first input | a node with one input `{"name": "model", "link": 1}` and object info `{"input": {"required": {}}}`, or no object info | the schema lookup does not stop node creation; inputs are resolved to links and widgets | not executed | Nodes.ScaffoldAlwaysRaises | Nodes.Node.Create |
| comfyui_utils/comfy.py:93-94 | `len(c) != 1` is evaluated before the string check, so a text list holding a number, boolean or null raises TypeError while shaping a cached result | cached output `{"text": ["a", 5]}` | a non-string element ends the check and leaves the text unchanged | not executed | Comfy.ScanRaisesOnNumber | Comfy.JoinIfAllChars |
