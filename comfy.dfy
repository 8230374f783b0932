/**
 * The sequential helpers of the ComfyUI API client, taken out of the
 * asynchronous code around them: flattening the queue, finding a prompt in
 * the history, shaping cached results, decoding the header of a binary
 * preview message, and assembling the error message of a rejected prompt.
 * The JSON answers of the server are parameters.
 */
module Comfy {
  import opened Outcomes
  import opened Json
  import opened Strings

  /** The Python exceptions these helpers raise. */
  datatype PyError =
    | AssertionError
    | IndexError
    | TypeError
    | ValueError(message: string)
    | KeyError(key: string)

  // ---------------------------------------------------------------------
  // `_parse_queue`

  /** The answer of `/queue`: its "queue_running" and "queue_pending" lists. */
  datatype QueueJson = QueueJson(running: seq<seq<Value>>, pending: seq<seq<Value>>)

  /** A queue entry with a prompt id at index 1. */
  predicate HasId(entry: seq<Value>) {
    |entry| >= 2
  }

  /**
   * The prompt ids in the queue: the running one, if any, then the pending
   * ones in order. At most one prompt may be running, and every entry read
   * needs an element at index 1.
   */
  function QueueIds(q: QueueJson): (r: Result<seq<Value>, PyError>)
    ensures |q.running| > 1 ==> r == Err(AssertionError)
    ensures |q.running| <= 1 ==>
      (r.Ok? <==> (forall i :: 0 <= i < |q.running| ==> HasId(q.running[i])) &&
                  (forall k :: 0 <= k < |q.pending| ==> HasId(q.pending[k])))
    ensures r.Err? && |q.running| <= 1 ==> r.error == IndexError
    ensures r.Ok? ==> |r.value| == |q.running| + |q.pending|
    ensures r.Ok? && |q.running| == 1 ==> r.value[0] == q.running[0][1]
    ensures r.Ok? ==> forall k :: 0 <= k < |q.pending| ==> r.value[|q.running| + k] == q.pending[k][1]
  {
    if |q.running| > 1 then Err(AssertionError)
    else if (exists i :: 0 <= i < |q.running| && !HasId(q.running[i])) ||
            (exists k :: 0 <= k < |q.pending| && !HasId(q.pending[k])) then Err(IndexError)
    else
      var n := |q.running|;
      Ok(seq(n + |q.pending|, i requires 0 <= i < n + |q.pending| =>
        if i < n then q.running[0][1] else q.pending[i - n][1]))
  }

  /** `_parse_queue`. */
  method ParseQueue(q: QueueJson) returns (r: Result<seq<Value>, PyError>)
    ensures r == QueueIds(q)
  {
    if |q.running| > 1 {
      return Err(AssertionError);
    }
    var result: seq<Value> := [];
    if |q.running| == 1 {
      if |q.running[0]| < 2 {
        return Err(IndexError);
      }
      result := result + [q.running[0][1]];
    }
    var n := |result|;
    for k := 0 to |q.pending|
      invariant |result| == n + k
      invariant n == |q.running| && (n == 1 ==> result[0] == q.running[0][1])
      invariant forall i :: 0 <= i < |q.running| ==> HasId(q.running[i])
      invariant forall j :: 0 <= j < k ==> HasId(q.pending[j]) && result[n + j] == q.pending[j][1]
    {
      if |q.pending[k]| < 2 {
        return Err(IndexError);
      }
      result := result + [q.pending[k][1]];
    }
    assert !(exists k :: 0 <= k < |q.pending| && !HasId(q.pending[k]));
    assert !(exists i :: 0 <= i < |q.running| && !HasId(q.running[i]));
    var expected := QueueIds(q);
    assert expected.Ok?;
    assert |expected.value| == |result|;
    assert forall i :: 0 <= i < |result| ==> result[i] == expected.value[i];
    assert result == expected.value;
    return Ok(result);
  }

  /** `queue.index(x)`: the first position holding x. */
  function IndexOf(xs: seq<Value>, x: Value): (r: Option<nat>)
    ensures r.Some? ==> r.value < |xs| && xs[r.value] == x && x !in xs[..r.value]
    ensures r.None? <==> x !in xs
  {
    if xs == [] then None
    else if xs[0] == x then Some(0)
    else match IndexOf(xs[1..], x)
      case None => None
      case Some(k) =>
        assert xs[..k + 1] == [xs[0]] + xs[1..][..k];
        Some(k + 1)
  }

  // ---------------------------------------------------------------------
  // `_find_prompt_in_history`

  /** One value of the `/history` answer: its "prompt" list and its "outputs", node by node. */
  datatype HistoryEntry = HistoryEntry(prompt: seq<Value>, outputs: seq<(string, map<string, Value>)>)

  /** The `/history` answer, in dict order. */
  type History = seq<(string, HistoryEntry)>

  /** The search stops at entry i: its prompt list is too short, or its prompt is the one sought. */
  predicate StopsAt(history: History, i: nat, prompt: Value)
    requires i < |history|
  {
    |history[i].1.prompt| < 3 || history[i].1.prompt[2] == prompt
  }

  /** The first entry the search stops at. */
  function HistoryStop(history: History, prompt: Value, from: nat): (r: Option<nat>)
    requires from <= |history|
    ensures r.Some? ==> from <= r.value < |history| && StopsAt(history, r.value, prompt)
    ensures r.Some? ==> forall j :: from <= j < r.value ==> !StopsAt(history, j, prompt)
    ensures r.None? <==> forall j :: from <= j < |history| ==> !StopsAt(history, j, prompt)
    decreases |history| - from
  {
    if from == |history| then None
    else if StopsAt(history, from, prompt) then Some(from)
    else HistoryStop(history, prompt, from + 1)
  }

  /**
   * `_find_prompt_in_history`: the key of the first entry whose
   * `prompt[2]` is the prompt; an entry met before it with a shorter
   * prompt list raises IndexError.
   */
  method FindPromptInHistory(history: History, prompt: Value) returns (r: Result<Option<string>, PyError>)
    ensures HistoryStop(history, prompt, 0).None? ==> r == Ok(None)
    ensures HistoryStop(history, prompt, 0).Some? ==>
      var i := HistoryStop(history, prompt, 0).value;
      r == if |history[i].1.prompt| < 3 then Err(IndexError) else Ok(Some(history[i].0))
  {
    for i := 0 to |history|
      invariant forall j :: 0 <= j < i ==> !StopsAt(history, j, prompt)
    {
      var data := history[i].1;
      if |data.prompt| < 3 {
        assert StopsAt(history, i, prompt);
        assert HistoryStop(history, prompt, 0) == Some(i);
        return Err(IndexError);
      }
      if data.prompt[2] == prompt {
        assert StopsAt(history, i, prompt);
        assert HistoryStop(history, prompt, 0) == Some(i);
        return Ok(Some(history[i].0));
      }
    }
    return Ok(None);
  }

  /**
   * With well-formed entries, the search finds the first entry holding the
   * prompt and reports None exactly when no entry holds it.
   */
  lemma {:induction false} HistorySearchFirstMatch(history: History, prompt: Value)
    requires forall j :: 0 <= j < |history| ==> |history[j].1.prompt| >= 3
    ensures HistoryStop(history, prompt, 0).None? <==> forall j :: 0 <= j < |history| ==> history[j].1.prompt[2] != prompt
    ensures HistoryStop(history, prompt, 0).Some? ==>
      var i := HistoryStop(history, prompt, 0).value;
      history[i].1.prompt[2] == prompt && forall j :: 0 <= j < i ==> history[j].1.prompt[2] != prompt
  {
    if HistoryStop(history, prompt, 0).None? {
      forall j | 0 <= j < |history| ensures history[j].1.prompt[2] != prompt {
        assert !StopsAt(history, j, prompt);
      }
    } else {
      var i := HistoryStop(history, prompt, 0).value;
      forall j | 0 <= j < i ensures history[j].1.prompt[2] != prompt {
        assert !StopsAt(history, j, prompt);
      }
    }
  }

  /** `history[key]`: the entry stored under a key. */
  function Lookup(history: History, key: string): (r: Option<HistoryEntry>)
    ensures r.Some? ==> exists i :: 0 <= i < |history| && history[i] == (key, r.value)
    ensures r.None? <==> forall i :: 0 <= i < |history| ==> history[i].0 != key
  {
    if history == [] then None
    else if history[0].0 == key then Some(history[0].1)
    else
      var r := Lookup(history[1..], key);
      assert r.Some? ==> exists i :: 0 <= i < |history| && history[i] == (key, r.value) by {
        if r.Some? {
          var i :| 0 <= i < |history[1..]| && history[1..][i] == (key, r.value);
          assert history[i + 1] == (key, r.value);
        }
      }
      assert r.None? ==> forall i :: 1 <= i < |history| ==> history[i].0 != key by {
        if r.None? {
          assert forall i :: 1 <= i < |history| ==> history[i] == history[1..][i - 1];
        }
      }
      r
  }

  // ---------------------------------------------------------------------
  // Cached-result shaping in `_get_queue_position_or_cached_result`.

  /** Every element is a string of length one. */
  predicate AllSingleChars(items: seq<Value>) {
    forall j :: 0 <= j < |items| ==> items[j].Str? && |items[j].s| == 1
  }

  /** `''.join(items)` of a list of strings. */
  function Concat(items: seq<Value>): string
    requires forall j :: 0 <= j < |items| ==> items[j].Str?
    decreases |items|
  {
    if items == [] then ""
    else Concat(items[..|items| - 1]) + items[|items| - 1].s
  }

  /** Joining single characters gives the string of those characters, in order. */
  lemma {:induction false} ConcatOfChars(items: seq<Value>)
    requires AllSingleChars(items)
    ensures |Concat(items)| == |items|
    ensures forall j :: 0 <= j < |items| ==> Concat(items)[j] == items[j].s[0]
    decreases |items|
  {
    if items != [] {
      ConcatOfChars(items[..|items| - 1]);
    }
  }

  /**
   * The `text` fix: a list of single-character strings becomes a list
   * holding their concatenation (an empty list becomes `['']`); any other
   * value stays as it is.
   */
  function FixedText(text: Value): (r: Value)
    ensures text.Array? && AllSingleChars(text.items) ==> r == Array([Str(Concat(text.items))])
    ensures !(text.Array? && AllSingleChars(text.items)) ==> r == text
  {
    if text.Array? && AllSingleChars(text.items) then Array([Str(Concat(text.items))]) else text
  }

  /** The for-else loop over a text list: the joined text when every element is a single character. */
  method JoinIfAllChars(items: seq<Value>) returns (joined: Option<string>)
    ensures joined.Some? <==> AllSingleChars(items)
    ensures joined.Some? ==> AllSingleChars(items) && joined.value == Concat(items)
  {
    var acc := "";
    for j := 0 to |items|
      invariant AllSingleChars(items[..j])
      invariant acc == Concat(items[..j])
    {
      var c := items[j];
      if !(c.Str? && |c.s| == 1) {
        assert !AllSingleChars(items) by { assert !(items[j].Str? && |items[j].s| == 1); }
        return None;
      }
      assert items[..j + 1][..j] == items[..j];
      acc := acc + c.s;
    }
    assert items[..|items|] == items;
    return Some(acc);
  }

  /** How the scan over a text list ends. */
  datatype Scan = AllChars | Breaks | Raises

  /**
   * The single-character check of the text fix as written: `len(c)` is taken
   * before the type test, so an element without a length (a number, a
   * boolean, None) raises TypeError instead of ending the loop.
   */
  function ScanAsWritten(items: seq<Value>): Scan
    decreases |items|
  {
    if items == [] then AllChars
    else match items[0]
      case Null => Raises
      case Bool(_) => Raises
      case Num(_) => Raises
      case Str(s) => if |s| == 1 then ScanAsWritten(items[1..]) else Breaks
      case Array(_) => Breaks
      case Object(_) => Breaks
  }

  /** A text list holding a number makes the source raise while shaping a cached result. */
  lemma ScanRaisesOnNumber()
    ensures ScanAsWritten([Str("a"), Num(5.0)]) == Raises
    ensures FixedText(Array([Str("a"), Num(5.0)])) == Array([Str("a"), Num(5.0)])
  {
    assert ScanAsWritten([Str("a"), Num(5.0)]) == ScanAsWritten([Num(5.0)]);
    assert !AllSingleChars([Str("a"), Num(5.0)]) by { assert ![Str("a"), Num(5.0)][1].Str?; }
  }

  /** Where the source does not raise, it decides as the fix does. */
  lemma {:induction false} ScanAgreesWhenNoRaise(items: seq<Value>)
    requires ScanAsWritten(items) != Raises
    ensures ScanAsWritten(items) == AllChars <==> AllSingleChars(items)
    decreases |items|
  {
    if items != [] && items[0].Str? && |items[0].s| == 1 {
      ScanAgreesWhenNoRaise(items[1..]);
      assert forall j :: 1 <= j < |items| ==> items[j] == items[1..][j - 1];
    }
  }

  /** One cached output after shaping: tagged with its node id, its text fixed, the rest as it was. */
  predicate ShapedFrom(result: map<string, Value>, nodeId: string, raw: map<string, Value>) {
    result.Keys == raw.Keys + {"node"} &&
    result["node"] == Str(nodeId) &&
    (forall k :: k in raw && k != "node" && k != "text" ==> result[k] == raw[k]) &&
    ("text" in raw ==> result["text"] == FixedText(raw["text"]))
  }

  /** The loop over the cached outputs of a history entry: one result per output entry, in order. */
  method ShapeCachedOutputs(outputs: seq<(string, map<string, Value>)>) returns (results: seq<map<string, Value>>)
    ensures |results| == |outputs|
    ensures forall i :: 0 <= i < |outputs| ==> ShapedFrom(results[i], outputs[i].0, outputs[i].1)
  {
    results := [];
    for i := 0 to |outputs|
      invariant |results| == i
      invariant forall j :: 0 <= j < i ==> ShapedFrom(results[j], outputs[j].0, outputs[j].1)
    {
      var (nodeId, raw) := outputs[i];
      var result := raw["node" := Str(nodeId)];
      if "text" in raw && raw["text"].Array? {
        var joined := JoinIfAllChars(raw["text"].items);
        if joined.Some? {
          result := result["text" := Array([Str(joined.value)])];
        }
      }
      results := results + [result];
    }
  }

  /** What `_get_queue_position_or_cached_result` returns. */
  datatype QueueAnswer = Position(index: nat) | Cached(results: seq<map<string, Value>>)

  const NotInHistory := "Response seems cached, but not found in history!"

  /**
   * `_get_queue_position_or_cached_result`, with the `/queue` and `/history`
   * answers as parameters: the position of the prompt if it is queued,
   * otherwise the shaped outputs of the history entry that holds it.
   */
  method QueuePositionOrCachedResult(q: QueueJson, promptId: Value, history: History, prompt: Value)
    returns (r: Result<QueueAnswer, PyError>)
    ensures QueueIds(q).Err? ==> r == Err(QueueIds(q).error)
    ensures QueueIds(q).Ok? && promptId in QueueIds(q).value ==>
      r == Ok(Position(IndexOf(QueueIds(q).value, promptId).value))
    ensures QueueIds(q).Ok? && promptId !in QueueIds(q).value ==>
      match HistoryStop(history, prompt, 0)
      case None => r == Err(ValueError(NotInHistory))
      case Some(i) =>
        if |history[i].1.prompt| < 3 then r == Err(IndexError)
        else
          var outputs := Lookup(history, history[i].0).value.outputs;
          r.Ok? && r.value.Cached? && |r.value.results| == |outputs| &&
          forall j :: 0 <= j < |outputs| ==> ShapedFrom(r.value.results[j], outputs[j].0, outputs[j].1)
  {
    var parsed := ParseQueue(q);
    if parsed.Err? {
      return Err(parsed.error);
    }
    var queue := parsed.value;
    var at := IndexOf(queue, promptId);
    if at.Some? {
      return Ok(Position(at.value));
    }
    var found := FindPromptInHistory(history, prompt);
    if found.Err? {
      return Err(found.error);
    }
    if found.value.None? {
      return Err(ValueError(NotInHistory));
    }
    var entry := Lookup(history, found.value.value);
    var results := ShapeCachedOutputs(entry.value.outputs);
    return Ok(Cached(results));
  }

  // ---------------------------------------------------------------------
  // The header of a binary preview message (`receive_image`).

  newtype byte = x: int | 0 <= x < 256

  const TwoTo32: nat := 0x1_0000_0000

  /** `struct.unpack_from('>I', data, off)`: the big-endian unsigned 32-bit integer at off. */
  function U32At(data: seq<byte>, off: nat): (n: nat)
    requires off + 4 <= |data|
    ensures n < TwoTo32
  {
    (((data[off] as nat) * 0x100 + data[off + 1] as nat) * 0x100 + data[off + 2] as nat) * 0x100 + data[off + 3] as nat
  }

  /** `struct.pack('>I', n)`: the bytes of n, most significant first. */
  function EncodeU32(n: nat): (b: seq<byte>)
    requires n < TwoTo32
    ensures |b| == 4
  {
    var q1 := n / 0x100;
    var q2 := q1 / 0x100;
    var q3 := q2 / 0x100;
    [q3 as byte, (q2 % 0x100) as byte, (q1 % 0x100) as byte, (n % 0x100) as byte]
  }

  lemma {:induction false} U32RoundTrip(n: nat, rest: seq<byte>)
    requires n < TwoTo32
    ensures U32At(EncodeU32(n) + rest, 0) == n
  {
    var b := EncodeU32(n) + rest;
    var q1 := n / 0x100;
    var q2 := q1 / 0x100;
    var q3 := q2 / 0x100;
    assert b[0] as nat == q3 && b[1] as nat == q2 % 0x100;
    assert b[2] as nat == q1 % 0x100 && b[3] as nat == n % 0x100;
    assert q2 == q3 * 0x100 + q2 % 0x100;
    assert q1 == q2 * 0x100 + q1 % 0x100;
    assert n == q1 * 0x100 + n % 0x100;
  }

  lemma {:induction false} U32Bytes(data: seq<byte>, off: nat)
    requires off + 4 <= |data|
    ensures EncodeU32(U32At(data, off)) == data[off..off + 4]
  {
    var a, b, c, d := data[off] as nat, data[off + 1] as nat, data[off + 2] as nat, data[off + 3] as nat;
    var n := U32At(data, off);
    var q1 := n / 0x100;
    var q2 := q1 / 0x100;
    assert n == ((a * 0x100 + b) * 0x100 + c) * 0x100 + d;
    assert n % 0x100 == d && q1 == (a * 0x100 + b) * 0x100 + c;
    assert q1 % 0x100 == c && q2 == a * 0x100 + b;
    assert q2 % 0x100 == b && q2 / 0x100 == a;
  }

  datatype ImageType = Jpeg | Png

  /** The image type of a type number: 1 is JPEG, 2 is PNG, any other is unsupported. */
  function ImageTypeOf(n: nat): Option<ImageType> {
    if n == 1 then Some(Jpeg) else if n == 2 then Some(Png) else None
  }

  function TypeNumber(t: ImageType): nat {
    match t
    case Jpeg => 1
    case Png => 2
  }

  /** The event name of an event number. */
  function EventName(n: nat): (s: string)
    ensures n != 1 && n != 2 ==> |s| > 8 && s[..8] == "UNKNOWN " && s[8..] == Decimal(n)
  {
    if n == 1 then "PREVIEW_IMAGE"
    else if n == 2 then "UNENCODED_PREVIEW_IMAGE"
    else "UNKNOWN " + Decimal(n)
  }

  /** Different event numbers get different names. */
  lemma {:induction false} EventNameInjective(a: nat, b: nat)
    requires EventName(a) == EventName(b)
    ensures a == b
  {
    assert "PREVIEW_IMAGE"[0] != "UNKNOWN "[0];
    assert "UNENCODED_PREVIEW_IMAGE"[2] != "UNKNOWN "[2];
    if a != 1 && a != 2 && b != 1 && b != 2 {
      DecimalRoundTrip(a);
      DecimalRoundTrip(b);
    }
  }

  /** A decoded preview: the image type, the event name and the image bytes. */
  datatype Preview = Preview(imageType: ImageType, event: string, payload: seq<byte>)

  /**
   * The header decoding of `receive_image`: None where the source returns
   * None (fewer than 8 bytes, which makes `unpack_from` raise; an
   * unsupported type number).
   */
  function DecodePreview(data: seq<byte>): (r: Option<Preview>)
    ensures r.Some? <==> |data| >= 8 && ImageTypeOf(U32At(data, 0)).Some?
    ensures r.Some? ==> TypeNumber(r.value.imageType) == U32At(data, 0)
    ensures r.Some? ==> r.value.event == EventName(U32At(data, 4)) && r.value.payload == data[8..]
  {
    if |data| < 8 then None
    else match ImageTypeOf(U32At(data, 0))
      case None => None
      case Some(t) => Some(Preview(t, EventName(U32At(data, 4)), data[8..]))
  }

  /** The message ComfyUI's `send_image` builds: type number, event number, image bytes. */
  function EncodePreview(t: ImageType, event: nat, payload: seq<byte>): seq<byte>
    requires event < TwoTo32
  {
    EncodeU32(TypeNumber(t)) + EncodeU32(event) + payload
  }

  /** Decoding a message built by the server gives back its parts. */
  lemma {:induction false} DecodeEncode(t: ImageType, event: nat, payload: seq<byte>)
    requires event < TwoTo32
    ensures DecodePreview(EncodePreview(t, event, payload)) == Some(Preview(t, EventName(event), payload))
  {
    var m := EncodePreview(t, event, payload);
    U32RoundTrip(TypeNumber(t), EncodeU32(event) + payload);
    assert m == EncodeU32(TypeNumber(t)) + (EncodeU32(event) + payload);
    assert m[4..] == EncodeU32(event) + payload;
    U32RoundTrip(event, payload);
    assert U32At(m, 4) == U32At(m[4..], 0);
    assert m[8..] == payload;
  }

  /** Every accepted message is one the server could have built: its header is determined. */
  lemma {:induction false} EncodeDecode(data: seq<byte>)
    requires DecodePreview(data).Some?
    ensures var p := DecodePreview(data).value;
      exists event: nat :: event < TwoTo32 && EventName(event) == p.event &&
        EncodePreview(p.imageType, event, p.payload) == data
  {
    var p := DecodePreview(data).value;
    var event := U32At(data, 4);
    U32Bytes(data, 0);
    U32Bytes(data, 4);
    assert data == data[0..4] + data[4..8] + data[8..];
    assert EncodePreview(p.imageType, event, p.payload) == data;
  }

  // ---------------------------------------------------------------------
  // The error message of a rejected prompt (`submit`).

  /** An element of a node's "errors" list. */
  datatype NodeError = NodeError(details: string, message: string)

  /**
   * The JSON answer of `POST /prompt`: `error.message` when "error" is
   * present, "node_errors" node by node in dict order, and "prompt_id".
   */
  datatype SubmitResponse = SubmitResponse(
    error: Option<string>,
    nodeErrors: Option<seq<(string, seq<NodeError>)>>,
    promptId: Option<string>)

  function ErrorLine(nodeId: string, e: NodeError): string {
    "Node " + nodeId + ", " + e.details + ": " + e.message
  }

  /** The lines of one node's errors. */
  function NodeLines(nodeId: string, errors: seq<NodeError>): (lines: seq<string>)
    ensures |lines| == |errors|
    ensures forall k :: 0 <= k < |errors| ==> lines[k] == ErrorLine(nodeId, errors[k])
  {
    seq(|errors|, k requires 0 <= k < |errors| => ErrorLine(nodeId, errors[k]))
  }

  /** All error lines, node by node. */
  function ErrorLines(nodeErrors: seq<(string, seq<NodeError>)>): seq<string>
    decreases |nodeErrors|
  {
    if nodeErrors == [] then []
    else ErrorLines(nodeErrors[..|nodeErrors| - 1]) +
         NodeLines(nodeErrors[|nodeErrors| - 1].0, nodeErrors[|nodeErrors| - 1].1)
  }

  /** The number of errors of the nodes before node i. */
  function ErrorsBefore(nodeErrors: seq<(string, seq<NodeError>)>, i: nat): nat
    requires i <= |nodeErrors|
    decreases i
  {
    if i == 0 then 0 else ErrorsBefore(nodeErrors, i - 1) + |nodeErrors[i - 1].1|
  }

  /**
   * Line ErrorsBefore(i) + k is the line of the k-th error of node i: the
   * lines run node by node and, within a node, error by error.
   */
  lemma {:induction false} ErrorLineAt(nodeErrors: seq<(string, seq<NodeError>)>, i: nat, k: nat)
    requires i < |nodeErrors| && k < |nodeErrors[i].1|
    ensures |ErrorLines(nodeErrors)| == ErrorsBefore(nodeErrors, |nodeErrors|)
    ensures ErrorsBefore(nodeErrors, i) + k < |ErrorLines(nodeErrors)|
    ensures ErrorLines(nodeErrors)[ErrorsBefore(nodeErrors, i) + k] == ErrorLine(nodeErrors[i].0, nodeErrors[i].1[k])
    decreases |nodeErrors|
  {
    var n := |nodeErrors| - 1;
    var init := nodeErrors[..n];
    ErrorsBeforePrefix(nodeErrors, n);
    ErrorLinesLength(init);
    if i < n {
      ErrorLineAt(init, i, k);
      assert init[..i] == nodeErrors[..i];
      ErrorsBeforeAgree(init, nodeErrors, i);
      assert init[i] == nodeErrors[i];
    }
  }

  lemma {:induction false} ErrorLinesLength(nodeErrors: seq<(string, seq<NodeError>)>)
    ensures |ErrorLines(nodeErrors)| == ErrorsBefore(nodeErrors, |nodeErrors|)
    decreases |nodeErrors|
  {
    if nodeErrors != [] {
      var n := |nodeErrors| - 1;
      ErrorLinesLength(nodeErrors[..n]);
      ErrorsBeforePrefix(nodeErrors, n);
    }
  }

  /** ErrorsBefore only looks at the nodes before i. */
  lemma {:induction false} ErrorsBeforePrefix(nodeErrors: seq<(string, seq<NodeError>)>, i: nat)
    requires i <= |nodeErrors|
    ensures ErrorsBefore(nodeErrors[..i], i) == ErrorsBefore(nodeErrors, i)
    decreases i
  {
    if i > 0 {
      ErrorsBeforePrefix(nodeErrors, i - 1);
      ErrorsBeforeAgree(nodeErrors[..i], nodeErrors, i - 1);
    }
  }

  lemma {:induction false} ErrorsBeforeAgree(a: seq<(string, seq<NodeError>)>, b: seq<(string, seq<NodeError>)>, i: nat)
    requires i <= |a| && i <= |b| && a[..i] == b[..i]
    ensures ErrorsBefore(a, i) == ErrorsBefore(b, i)
    decreases i
  {
    if i > 0 {
      assert a[..i - 1] == b[..i - 1] by { assert a[..i - 1] == a[..i][..i - 1]; assert b[..i - 1] == b[..i][..i - 1]; }
      assert a[i - 1] == a[..i][i - 1] == b[..i][i - 1] == b[i - 1];
      ErrorsBeforeAgree(a, b, i - 1);
    }
  }

  /** The nested loops of `submit` over `node_errors` and each node's `errors`. */
  method CollectErrorLines(nodeErrors: seq<(string, seq<NodeError>)>) returns (lines: seq<string>)
    ensures lines == ErrorLines(nodeErrors)
  {
    lines := [];
    for i := 0 to |nodeErrors|
      invariant lines == ErrorLines(nodeErrors[..i])
    {
      var (nodeId, errors) := nodeErrors[i];
      ghost var before := lines;
      for k := 0 to |errors|
        invariant lines == before + NodeLines(nodeId, errors[..k])
      {
        assert NodeLines(nodeId, errors[..k + 1]) == NodeLines(nodeId, errors[..k]) + [ErrorLine(nodeId, errors[k])];
        lines := lines + [ErrorLine(nodeId, errors[k])];
      }
      assert errors[..|errors|] == errors;
      assert nodeErrors[..i + 1][..i] == nodeErrors[..i];
    }
    assert nodeErrors[..|nodeErrors|] == nodeErrors;
  }

  /** The message of the ValueError a rejected prompt raises. */
  function RejectionMessage(errorMessage: string, nodeErrors: Option<seq<(string, seq<NodeError>)>>): string {
    match nodeErrors
    case None => errorMessage
    case Some(ne) => "\n" + Join("\n", ErrorLines(ne))
  }

  /**
   * The handling of the answer of `POST /prompt`: a ValueError when it
   * holds "error", otherwise its "prompt_id" (KeyError when absent).
   */
  method Submit(response: SubmitResponse) returns (r: Result<string, PyError>)
    ensures response.error.Some? ==> r == Err(ValueError(RejectionMessage(response.error.value, response.nodeErrors)))
    ensures response.error.None? && response.promptId.Some? ==> r == Ok(response.promptId.value)
    ensures response.error.None? && response.promptId.None? ==> r == Err(KeyError("prompt_id"))
  {
    if response.error.Some? {
      if response.nodeErrors.None? {
        return Err(ValueError(response.error.value));
      }
      var lines := CollectErrorLines(response.nodeErrors.value);
      return Err(ValueError("\n" + Join("\n", lines)));
    }
    if response.promptId.None? {
      return Err(KeyError("prompt_id"));
    }
    return Ok(response.promptId.value);
  }

  /** No node id, detail or message holds a newline. */
  predicate NoNewlines(nodeErrors: seq<(string, seq<NodeError>)>) {
    forall i :: 0 <= i < |nodeErrors| ==>
      '\n' !in nodeErrors[i].0 &&
      forall k :: 0 <= k < |nodeErrors[i].1| ==>
        '\n' !in nodeErrors[i].1[k].details && '\n' !in nodeErrors[i].1[k].message
  }

  lemma {:induction false} ErrorLinesNoNewline(nodeErrors: seq<(string, seq<NodeError>)>)
    requires NoNewlines(nodeErrors)
    ensures forall j :: 0 <= j < |ErrorLines(nodeErrors)| ==> '\n' !in ErrorLines(nodeErrors)[j]
    decreases |nodeErrors|
  {
    if nodeErrors != [] {
      var n := |nodeErrors| - 1;
      ErrorLinesNoNewline(nodeErrors[..n]);
      var (id, errs) := nodeErrors[n];
      forall k | 0 <= k < |errs| ensures '\n' !in ErrorLine(id, errs[k]) {
        var line := ErrorLine(id, errs[k]);
        assert line == "Node " + id + ", " + errs[k].details + ": " + errs[k].message;
      }
    }
  }

  /**
   * When no part holds a newline, the lines can be read back from the
   * message: dropping its leading newline and splitting at newlines gives
   * every error line, in order.
   */
  lemma {:induction false} RejectionLinesRecoverable(errorMessage: string, nodeErrors: seq<(string, seq<NodeError>)>)
    requires NoNewlines(nodeErrors) && ErrorLines(nodeErrors) != []
    ensures var m := RejectionMessage(errorMessage, Some(nodeErrors));
      |m| >= 1 && m[0] == '\n' && SplitLines(m[1..]) == ErrorLines(nodeErrors)
  {
    ErrorLinesNoNewline(nodeErrors);
    var m := RejectionMessage(errorMessage, Some(nodeErrors));
    assert m[1..] == Join("\n", ErrorLines(nodeErrors));
    SplitJoin(ErrorLines(nodeErrors));
  }
}
