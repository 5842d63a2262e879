/**
 * `ParserService.parse_tty_message` of app/parser/parser.py: recover the
 * JSON value from the first choice's content, either after a
 * "JSON Output:" marker (with `_fix_json` as a second chance) or by direct
 * decoding, and store it as the reply's "choices".
 */
module MarkerParser {
  import opened Wrappers
  import opened Text
  import opened JsonModel
  import opened Patterns
  import opened JsonRepair

  const Marker: string := "JSON Output:"

  /**
   * The pattern `(?s)JSON Output:\s*({.*})` fits at `i` with the object
   * starting at `q`: only whitespace between marker and `{`, and some `}`
   * after it.
   */
  ghost predicate MarkerFits(s: string, i: nat, q: nat) {
    && HasAt(s, i, Marker) && i + |Marker| <= q < |s|
    && All(s, i + |Marker|, q, IsSpace) && s[q] == '{'
    && exists j | q < j < |s| :: s[j] == '}'
  }

  /**
   * The pattern at `i`: the whitespace run is greedy and cannot give back a
   * `{`, and the greedy `.*` runs to the last `}` of the whole text.
   */
  function MarkerAt(s: string, i: nat): (r: Option<string>)
    ensures r.Some? ==> i + |Marker| <= |s|
    ensures r.Some? ==>
      var q := i + |Marker| + Run(s, i + |Marker|, IsSpace);
      && MarkerFits(s, i, q)
      && r.value == s[q..RFind(s, '}') + 1]
  {
    if !HasAt(s, i, Marker) then None
    else
      var q := i + |Marker| + Run(s, i + |Marker|, IsSpace);
      if q < |s| && s[q] == '{' && RFind(s, '}') > q then Some(s[q..RFind(s, '}') + 1])
      else None
  }

  /** Whenever the pattern fits at `i`, the scanner finds it. */
  lemma MarkerComplete(s: string, i: nat, q: nat)
    requires MarkerFits(s, i, q)
    ensures MarkerAt(s, i).Some?
  {
    RunLenIs(s, i + |Marker|, IsSpace, |s| - (i + |Marker|), q - (i + |Marker|));
    var j :| q < j < |s| && s[j] == '}';
    assert RFind(s, '}') >= j;
  }

  /** The span the marker branch decodes: it starts with `{` and ends with the text's last `}`. */
  lemma MarkerSpanShape(s: string)
    requires Leftmost(s, MarkerAt, 0).Some?
    ensures var span := Leftmost(s, MarkerAt, 0).value.1;
      && |span| >= 2 && span[0] == '{' && span[|span| - 1] == '}'
      && |span| <= RFind(s, '}') + 1
      && span == s[RFind(s, '}') + 1 - |span| .. RFind(s, '}') + 1]
  {
  }

  /** A decoded value, or the marker branch's ValueError. */
  function DecodeMarked(span: string, decode: Decoder): (r: Result<Json, Failure>)
    ensures decode(span).Some? ==> r == Ok(decode(span).value)
    ensures decode(span).None? && decode(FixJson(span)).Some? ==> r == Ok(decode(FixJson(span)).value)
    ensures r.Err? <==> decode(span).None? && decode(FixJson(span)).None?
  {
    match decode(span)
    case Some(j) => Ok(j)
    case None =>
      match decode(FixJson(span))
      case Some(j) => Ok(j)
      case None => Err(ValueError("Failed to parse even after fixing"))
  }

  /**
   * The branch without a marker: a string value is decoded once more, and
   * any decode failure falls back to reading the leading value of the
   * content.
   */
  function DecodeDirect(content: string, decode: Decoder, rawDecode: Decoder): (r: Result<Json, Failure>)
    ensures decode(content).Some? && !decode(content).value.Str? ==> r == Ok(decode(content).value)
    ensures decode(content).Some? && decode(content).value.Str? && decode(decode(content).value.s).Some? ==>
      r == Ok(decode(decode(content).value.s).value)
    ensures decode(content).None? || (decode(content).value.Str? && decode(decode(content).value.s).None?) ==>
      r == if rawDecode(content).Some? then Ok(rawDecode(content).value) else Err(DecodeError)
    ensures r.Err? ==> r.error == DecodeError && rawDecode(content).None?
  {
    var fallback := if rawDecode(content).Some? then Ok(rawDecode(content).value) else Err(DecodeError);
    match decode(content)
    case None => fallback
    case Some(Str(t)) =>
      (match decode(t)
       case Some(j) => Ok(j)
       case None => fallback)
    case Some(j) => Ok(j)
  }

  /** The value that replaces "choices", or the exception raised. */
  function ContentValue(content: string, decode: Decoder, rawDecode: Decoder): (r: Result<Json, Failure>)
    ensures !Contains(content, Marker) ==> r == DecodeDirect(content, decode, rawDecode)
    ensures Contains(content, Marker) && Leftmost(content, MarkerAt, 0).None? ==>
      r == Err(ValueError("JSON Output section found but no valid JSON extracted."))
    ensures Contains(content, Marker) && Leftmost(content, MarkerAt, 0).Some? ==>
      r == DecodeMarked(Leftmost(content, MarkerAt, 0).value.1, decode)
  {
    if Contains(content, Marker) then
      match Leftmost(content, MarkerAt, 0)
      case Some((_, span)) => DecodeMarked(span, decode)
      case None => Err(ValueError("JSON Output section found but no valid JSON extracted."))
    else DecodeDirect(content, decode, rawDecode)
  }

  /** `resp_dict["choices"][0]["message"]["content"]`: None for the KeyError, IndexError or TypeError. */
  function FirstContent(body: map<string, Json>): (r: Option<string>)
    ensures r.Some? ==> "choices" in body && body["choices"].Arr? && |body["choices"].items| > 0
    ensures r.Some? ==> r == MessageContent(body["choices"].items[0])
  {
    if "choices" in body && body["choices"].Arr? && |body["choices"].items| > 0
    then MessageContent(body["choices"].items[0])
    else None
  }

  /** What the call does to the reply: the recovered value, or the exception. */
  function ParseSpec(body: map<string, Json>, decode: Decoder, rawDecode: Decoder): (r: Result<Json, Failure>)
    ensures FirstContent(body).None? ==> r == Err(Malformed)
    ensures FirstContent(body).Some? ==> r == ContentValue(FirstContent(body).value, decode, rawDecode)
  {
    match FirstContent(body)
    case None => Err(Malformed)
    case Some(content) => ContentValue(content, decode, rawDecode)
  }

  /**
   * The call: on success the reply's "choices" is replaced by the recovered
   * value and every other key is kept; on an exception the reply is left
   * as it was.
   */
  method ParseTtyMessage(reply: Reply, decode: Decoder, rawDecode: Decoder) returns (r: Result<map<string, Json>, Failure>)
    modifies reply
    ensures var spec := ParseSpec(old(reply.body), decode, rawDecode);
      && (spec.Ok? ==> r.Ok? && reply.body == old(reply.body)["choices" := spec.value] && r.value == reply.body)
      && (spec.Err? ==> r == Err(spec.error) && reply.body == old(reply.body))
  {
    var outcome := ParseSpec(reply.body, decode, rawDecode);
    if outcome.Err? {
      return Err(outcome.error);
    }
    reply.body := reply.body["choices" := outcome.value];
    r := Ok(reply.body);
  }

  // ---------------------------------------------------------------- properties

  /**
   * With a marker, the repair runs only after the span fails to decode,
   * and a second failure raises ValueError; without a span, ValueError too.
   */
  lemma MarkerBranch(content: string, decode: Decoder, rawDecode: Decoder)
    requires Contains(content, Marker)
    ensures var r := ContentValue(content, decode, rawDecode);
      r.Err? ==> r.error.ValueError?
    ensures (exists i: nat, q: nat :: MarkerFits(content, i, q)) <==> Leftmost(content, MarkerAt, 0).Some?
  {
    if i: nat, q: nat :| MarkerFits(content, i, q) {
      MarkerComplete(content, i, q);
      assert i < |content|;
    }
    var found := Leftmost(content, MarkerAt, 0);
    if found.Some? {
      var q := found.value.0 + |Marker| + Run(content, found.value.0 + |Marker|, IsSpace);
      assert MarkerFits(content, found.value.0, q);
    }
  }
}
