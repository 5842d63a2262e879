/**
 * The JSON values the parsers handle, the exceptions the Python code can
 * raise, and the mutable reply dictionary that model backends return.
 * Decoding (`json.loads`, `raw_decode`) and encoding (`json.dumps`) are
 * library internals: the model receives them as uninterpreted functions.
 */
module JsonModel {
  import opened Wrappers

  /** A decoded JSON value; numbers are exact reals. */
  datatype Json =
    | Null
    | Bool(b: bool)
    | Num(n: real)
    | Str(s: string)
    | Arr(items: seq<Json>)
    | Obj(fields: map<string, Json>)

  /** `json.loads`: a partial decoder. */
  type Decoder = string -> Option<Json>

  /** `json.dumps`. */
  type Encoder = Json -> string

  /** The exceptions that matter for control flow. */
  datatype Failure =
    | DecodeError          // json.JSONDecodeError
    | ValueError(reason: string)
    | Malformed            // KeyError, IndexError or TypeError on a dictionary path
    | ModelError           // the model call itself raised
    | NotImplemented       // NotImplementedError

  /** Python truthiness of a JSON value. */
  predicate Truthy(j: Json) {
    match j
    case Null => false
    case Bool(b) => b
    case Num(n) => n != 0.0
    case Str(s) => s != ""
    case Arr(xs) => xs != []
    case Obj(m) => m != map[]
  }

  /** `d.get(key)`: the value, or None. */
  function Get(d: map<string, Json>, key: string): (r: Json)
    ensures key !in d ==> r == Null
    ensures key in d ==> r == d[key]
  {
    if key in d then d[key] else Null
  }

  /** `x[key]` where `x` must be a dict that holds `key`. */
  function Field(x: Json, key: string): (r: Option<Json>)
    ensures r.Some? <==> x.Obj? && key in x.fields
    ensures r.Some? ==> r.value == x.fields[key]
  {
    if x.Obj? && key in x.fields then Some(x.fields[key]) else None
  }

  /**
   * `choice["message"]["content"]` for a content string: None stands for the
   * KeyError or TypeError Python raises on any other shape.
   */
  function MessageContent(choice: Json): (r: Option<string>)
    ensures r.Some? <==>
      choice.Obj? && "message" in choice.fields && choice.fields["message"].Obj?
      && "content" in choice.fields["message"].fields
      && choice.fields["message"].fields["content"].Str?
    ensures r.Some? ==> r.value == choice.fields["message"].fields["content"].s
  {
    match Field(choice, "message")
    case None => None
    case Some(msg) =>
      match Field(msg, "content")
      case Some(Str(t)) => Some(t)
      case _ => None
  }

  /** The dictionary a model backend returns; parsers rewrite its "choices" in place. */
  class Reply {
    var body: map<string, Json>

    constructor (body: map<string, Json>)
      ensures this.body == body
    {
      this.body := body;
    }
  }
}
