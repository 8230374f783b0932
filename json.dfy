/** Parsed JSON values as the Python code sees them after `json.load`. */
module Json {

  /**
   * A JSON value. Numbers are one kind, as in JSON itself. Objects are
   * compared as Python compares dicts, that is without regard to key order,
   * so they are maps; where the code iterates over a dict in insertion
   * order the model uses an explicit sequence of pairs instead.
   */
  datatype Value =
    | Null
    | Bool(b: bool)
    | Num(n: real)
    | Str(s: string)
    | Array(items: seq<Value>)
    | Object(fields: map<string, Value>)
}
