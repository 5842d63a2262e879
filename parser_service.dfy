/**
 * The OpenAI-backed parse service (app/services/parser_service.py): the
 * first-`{`/last-`}` slice of a model reply, the confidence stamp, the
 * regex-plus-secondary-model fallback, the never-firing ANTLR branch, the
 * exception routing of `parse_tty_message` and the batch loop. Both model
 * calls are oracles that may fail; `json.loads` is the abstract decoder.
 */
module ParserService {
  import opened Wrappers
  import opened Text
  import opened JsonModel
  import opened Patterns
  import opened MessageValidator

  /** `response.choices[0]`: the reply text and why generation stopped. */
  datatype Completion = Completion(content: string, finishReason: string)

  /**
   * The injected collaborators: the primary model call (message, few-shot
   * flag), the secondary fallback call, the decoder, and the two settings
   * that guard the ANTLR branch.
   */
  datatype Env = Env(
    primary: (string, bool) -> Option<Completion>,
    secondary: string -> Option<Completion>,
    decode: Decoder,
    threshold: real,
    antlrFallback: bool)

  /** What a parse returns: the parsed dictionary and the parsing method. */
  datatype Outcome = Outcome(record: map<string, Json>, parsingMethod: string)

  /** `message_id or 'unknown'`: an absent or empty id reads as `unknown`. */
  function IdText(id: Option<string>): (t: string)
    ensures t == "unknown" <==> id.None? || id.value == "" || id.value == "unknown"
    ensures id.Some? && id.value != "" ==> t == id.value
  {
    if id.Some? && id.value != "" then id.value else "unknown"
  }

  // ------------------------------------------------------------ _process_llm_response

  /** The text from the first `{` to the last `}` inclusive, or the ValueError. */
  function JsonSpan(content: string): (r: Result<string, Failure>)
    ensures r.Err? ==> r.error == ValueError("No JSON found in LLM response")
    ensures r.Ok? ==> |r.value| >= 2 && r.value[0] == '{' && r.value[|r.value| - 1] == '}'
  {
    var start := Find(content, '{');
    var end := RFind(content, '}') + 1;
    if start >= 0 && end > start then Ok(content[start..end])
    else Err(ValueError("No JSON found in LLM response"))
  }

  /** Some `{` stands before some `}`. */
  ghost predicate HasBraceSpan(content: string) {
    exists i, j | 0 <= i < j < |content| :: content[i] == '{' && content[j] == '}'
  }

  /** A span is found exactly when some `{` precedes some `}`. */
  lemma {:induction false} JsonSpanFound(content: string)
    ensures JsonSpan(content).Ok? <==> HasBraceSpan(content)
  {
    if HasBraceSpan(content) {
      var i, j :| 0 <= i < j < |content| && content[i] == '{' && content[j] == '}';
      JsonSpanCovers(content, i, j);
    }
    if JsonSpan(content).Ok? {
      var i := Find(content, '{');
      var j := RFind(content, '}');
      assert 0 <= i < j < |content| && content[i] == '{' && content[j] == '}';
    }
  }

  /** Every `{`…`}` pair of the content lies inside the span. */
  lemma {:induction false} JsonSpanCovers(content: string, i: nat, j: nat)
    requires i < j < |content| && content[i] == '{' && content[j] == '}'
    ensures JsonSpan(content).Ok? && |JsonSpan(content).value| >= j - i + 1
  {
    assert '{' in content && '}' in content;
    var start := Find(content, '{');
    var last := RFind(content, '}');
    assert start <= i && j <= last;
  }

  /** The span is a slice that no `{` precedes and no `}` follows. */
  lemma {:induction false} JsonSpanBounds(content: string)
    requires JsonSpan(content).Ok?
    ensures var v, p := JsonSpan(content).value, Find(content, '{');
      && 0 <= p && p + |v| <= |content| && content[p..p + |v|] == v
      && (forall k | 0 <= k < p :: content[k] != '{')
      && (forall k | p + |v| <= k < |content| :: content[k] != '}')
  {
  }

  /** The confidence stamp: 1.0 when generation stopped normally, else 0.7. */
  function Confidence(finishReason: string): (c: real)
    ensures c == 1.0 <==> finishReason == "stop"
    ensures c == 0.7 <==> finishReason != "stop"
  {
    if finishReason == "stop" then 1.0 else 0.7
  }

  /** The decoded reply after `raw_message` (only if absent) and `confidence_score` are set. */
  function Stamp(d: map<string, Json>, message: string, finishReason: string): (r: map<string, Json>)
    ensures r.Keys == d.Keys + {"raw_message", "confidence_score"}
    ensures r["raw_message"] == if "raw_message" in d then d["raw_message"] else Str(message)
    ensures r["confidence_score"] == Num(Confidence(finishReason))
    ensures forall k | k in d && k != "confidence_score" :: r[k] == d[k]
  {
    var withRaw := if "raw_message" in d then d else d["raw_message" := Str(message)];
    withRaw["confidence_score" := Num(Confidence(finishReason))]
  }

  /**
   * `_process_llm_response` as a value: no span raises ValueError, a decode
   * failure raises JSONDecodeError, and a decoded non-object raises a
   * TypeError on the first item assignment.
   */
  function ProcessedReply(c: Completion, message: string, decode: Decoder): (r: Result<map<string, Json>, Failure>)
    ensures r.Err? ==> r.error in {ValueError("No JSON found in LLM response"), DecodeError, Malformed}
    ensures r.Ok? ==> JsonSpan(c.content).Ok? && decode(JsonSpan(c.content).value).Some?
                      && decode(JsonSpan(c.content).value).value.Obj?
    ensures r.Ok? ==> r.value == Stamp(decode(JsonSpan(c.content).value).value.fields, message, c.finishReason)
    ensures r == Err(DecodeError) <==> JsonSpan(c.content).Ok? && decode(JsonSpan(c.content).value).None?
    ensures JsonSpan(c.content).Err? ==> r == Err(ValueError("No JSON found in LLM response"))
    ensures r == Err(Malformed) <==>
      JsonSpan(c.content).Ok? && decode(JsonSpan(c.content).value).Some?
      && !decode(JsonSpan(c.content).value).value.Obj?
  {
    match JsonSpan(c.content)
    case Err(e) => Err(e)
    case Ok(span) =>
      match decode(span)
      case None => Err(DecodeError)
      case Some(Obj(d)) => Ok(Stamp(d, message, c.finishReason))
      case Some(_) => Err(Malformed)
  }

  /** `_process_llm_response`: slices, decodes and stamps the reply dictionary in place. */
  method ProcessLlmResponse(c: Completion, message: string, decode: Decoder)
    returns (r: Result<map<string, Json>, Failure>)
    ensures r == ProcessedReply(c, message, decode)
  {
    var start := Find(c.content, '{');
    var end := RFind(c.content, '}') + 1;
    if start >= 0 && end > start {
      var parsed := decode(c.content[start..end]);
      if parsed.None? {
        return Err(DecodeError);
      }
      if !parsed.value.Obj? {
        return Err(Malformed);
      }
      var d := parsed.value.fields;
      if "raw_message" !in d {
        d := d["raw_message" := Str(message)];
      }
      d := d["confidence_score" := Num(Confidence(c.finishReason))];
      return Ok(d);
    } else {
      return Err(ValueError("No JSON found in LLM response"));
    }
  }

  // ------------------------------------------------------------ parse_with_antlr

  /** `parse_with_antlr`: a placeholder that always raises NotImplementedError. */
  function ParseWithAntlr(message: string): (r: Result<map<string, Json>, Failure>)
    ensures r == Err(NotImplemented)
  {
    Err(NotImplemented)
  }

  // ------------------------------------------------------------ _fallback_parsing

  /** The secondary call is made when the regex type or flight is missing or falsy. */
  predicate NeedsSecondary(basic: map<string, Json>)
    ensures "message_type" !in basic || "flight_identifier" !in basic ==> NeedsSecondary(basic)
  {
    !Truthy(Get(basic, "message_type")) || !Truthy(Get(basic, "flight_identifier"))
  }

  /**
   * The secondary model's dictionary, or None for every case the source's
   * `except Exception` swallows or skips: the call failed, no span, a decode
   * error, or a decoded non-object (`.items()` raises).
   */
  function SecondaryFields(message: string, secondary: string -> Option<Completion>, decode: Decoder)
    : (r: Option<map<string, Json>>)
    ensures r.Some? ==>
      && secondary(message).Some?
      && JsonSpan(secondary(message).value.content).Ok?
      && decode(JsonSpan(secondary(message).value.content).value) == Some(Obj(r.value))
    ensures secondary(message).Some? && JsonSpan(secondary(message).value.content).Ok?
            && decode(JsonSpan(secondary(message).value.content).value).Some?
            && decode(JsonSpan(secondary(message).value.content).value).value.Obj? ==>
      r == Some(decode(JsonSpan(secondary(message).value.content).value).value.fields)
  {
    match secondary(message)
    case None => None
    case Some(c) =>
      match JsonSpan(c.content)
      case Err(_) => None
      case Ok(span) =>
        match decode(span)
        case Some(Obj(d)) => Some(d)
        case _ => None
  }

  /** The merge of a secondary dictionary over the regex fields: non-null values win. */
  function Overlay(base: map<string, Json>, fb: map<string, Json>): (r: map<string, Json>)
    ensures base.Keys <= r.Keys <= base.Keys + fb.Keys
  {
    map k | k in base.Keys + fb.Keys && (k in base || fb[k] != Null) ::
      if k in fb && fb[k] != Null then fb[k] else base[k]
  }

  /**
   * The merge: every non-null secondary value overrides, a null one leaves
   * the regex field (or its absence) as it was, and no other key appears.
   */
  lemma {:induction false} OverlayMeaning(base: map<string, Json>, fb: map<string, Json>)
    ensures forall k | k in fb && fb[k] != Null :: k in Overlay(base, fb) && Overlay(base, fb)[k] == fb[k]
    ensures forall k | k in base && (k !in fb || fb[k] == Null) :: k in Overlay(base, fb) && Overlay(base, fb)[k] == base[k]
    ensures forall k | k in Overlay(base, fb) :: k in base || (k in fb && fb[k] != Null)
  {
  }

  /** The merge loop `for key, value in fallback_json.items(): if value is not None: ...`. */
  method MergeSecondary(base: map<string, Json>, fb: map<string, Json>) returns (merged: map<string, Json>)
    ensures merged == Overlay(base, fb)
  {
    merged := base;
    var todo := fb.Keys;
    while todo != {}
      invariant todo <= fb.Keys
      invariant forall k | k in merged :: k in base || (k in fb && k !in todo && fb[k] != Null)
      invariant forall k | k in base :: k in merged
      invariant forall k | k in fb && k !in todo && fb[k] != Null :: k in merged && merged[k] == fb[k]
      invariant forall k | k in merged && (k !in fb || k in todo || fb[k] == Null) :: merged[k] == base[k]
      decreases |todo|
    {
      var k :| k in todo;
      if fb[k] != Null {
        merged := merged[k := fb[k]];
      }
      todo := todo - {k};
    }
    OverlayUnique(base, fb, merged);
  }

  /** A map that agrees with the merge key by key is the merge. */
  lemma {:induction false} OverlayUnique(base: map<string, Json>, fb: map<string, Json>, merged: map<string, Json>)
    requires forall k | k in merged :: k in base || (k in fb && fb[k] != Null)
    requires forall k | k in base :: k in merged
    requires forall k | k in fb && fb[k] != Null :: k in merged && merged[k] == fb[k]
    requires forall k | k in merged && (k !in fb || fb[k] == Null) :: merged[k] == base[k]
    ensures merged == Overlay(base, fb)
  {
    assert merged.Keys == Overlay(base, fb).Keys;
  }

  /** The placeholder flight identifier for a message with none. */
  const DefaultFlight: Json :=
    Obj(map["designator" := Str("XXX"), "flight_number" := Str("0000"), "scheduled_date" := Null])

  /** The keys a record needs. */
  const Required: set<string> :=
    {"message_type", "flight_identifier", "aircraft_registration", "airport_of_movement",
     "message_specific_data"}

  /** The placeholder each required key gets when absent. */
  function Default(key: string): Json {
    if key == "message_type" then Str("MVT")
    else if key == "flight_identifier" then DefaultFlight
    else if key == "aircraft_registration" then Str("UNKNOWN")
    else if key == "airport_of_movement" then Str("XXX")
    else Obj(map[])
  }

  /** `if key not in d: d[key] = value`. */
  function Fill(d: map<string, Json>, key: string, value: Json): map<string, Json> {
    if key in d then d else d[key := value]
  }

  /** The five default fills, in the source's order. */
  function WithDefaults(d: map<string, Json>): (r: map<string, Json>)
    ensures Required <= r.Keys
  {
    var d1 := Fill(d, "message_type", Str("MVT"));
    var d2 := Fill(d1, "flight_identifier", DefaultFlight);
    var d3 := Fill(d2, "aircraft_registration", Str("UNKNOWN"));
    var d4 := Fill(d3, "airport_of_movement", Str("XXX"));
    Fill(d4, "message_specific_data", Obj(map[]))
  }

  /** The fills add exactly the required keys. */
  lemma {:induction false} WithDefaultsKeys(d: map<string, Json>)
    ensures WithDefaults(d).Keys == d.Keys + Required
  {
  }

  /** Keys already present keep their values. */
  lemma {:induction false} WithDefaultsKeeps(d: map<string, Json>)
    ensures forall k | k in d :: k in WithDefaults(d) && WithDefaults(d)[k] == d[k]
  {
  }

  /** Each absent required key gets its placeholder. */
  lemma {:induction false} WithDefaultsFills(d: map<string, Json>, k: string)
    requires k in Required && k !in d
    ensures WithDefaults(d)[k] == Default(k)
  {
  }

  /** The five `if key not in basic_fields` fills. */
  method FillDefaults(d: map<string, Json>) returns (filled: map<string, Json>)
    ensures filled == WithDefaults(d)
  {
    filled := d;
    ghost var before := filled;
    if "message_type" !in filled {
      filled := filled["message_type" := Str("MVT")];
    }
    assert filled == Fill(before, "message_type", Str("MVT"));
    before := filled;
    if "flight_identifier" !in filled {
      filled := filled["flight_identifier" := DefaultFlight];
    }
    assert filled == Fill(before, "flight_identifier", DefaultFlight);
    before := filled;
    if "aircraft_registration" !in filled {
      filled := filled["aircraft_registration" := Str("UNKNOWN")];
    }
    assert filled == Fill(before, "aircraft_registration", Str("UNKNOWN"));
    before := filled;
    if "airport_of_movement" !in filled {
      filled := filled["airport_of_movement" := Str("XXX")];
    }
    assert filled == Fill(before, "airport_of_movement", Str("XXX"));
    before := filled;
    if "message_specific_data" !in filled {
      filled := filled["message_specific_data" := Obj(map[])];
    }
  }

  /** The flight identifier is a dictionary holding a designator and a flight number. */
  predicate FlightShape(j: Json) {
    j.Obj? && "designator" in j.fields && "flight_number" in j.fields
  }

  /** The flight identifier rebuilt from its three fields (`scheduled_date` by `.get`). */
  function FlightRecord(j: Json): Json
    requires FlightShape(j)
  {
    Obj(map["designator" := j.fields["designator"], "flight_number" := j.fields["flight_number"],
            "scheduled_date" := Get(j.fields, "scheduled_date")])
  }

  /** The low-confidence record the fallback builds from the filled fields. */
  function FallbackRecord(filled: map<string, Json>, message: string): (r: map<string, Json>)
    requires Required <= filled.Keys && FlightShape(filled["flight_identifier"])
    ensures r.Keys == Required + {"supplementary_info", "raw_message", "confidence_score"}
    ensures forall k | k in Required && k != "flight_identifier" :: r[k] == filled[k]
    ensures r["flight_identifier"] == FlightRecord(filled["flight_identifier"])
    ensures r["supplementary_info"] == Null && r["raw_message"] == Str(message) && r["confidence_score"] == Num(0.5)
  {
    map["message_type" := filled["message_type"],
        "flight_identifier" := FlightRecord(filled["flight_identifier"]),
        "aircraft_registration" := filled["aircraft_registration"],
        "airport_of_movement" := filled["airport_of_movement"],
        "message_specific_data" := filled["message_specific_data"],
        "supplementary_info" := Null,
        "raw_message" := Str(message),
        "confidence_score" := Num(0.5)]
  }

  /** The regex fields, merged with the secondary reply when that is needed and obtainable. */
  function Merged(basic: map<string, Json>, message: string, secondary: string -> Option<Completion>,
                  decode: Decoder): (r: map<string, Json>)
    ensures !NeedsSecondary(basic) ==> r == basic
    ensures basic.Keys <= r.Keys
  {
    if NeedsSecondary(basic) && SecondaryFields(message, secondary, decode).Some? then
      Overlay(basic, SecondaryFields(message, secondary, decode).value)
    else basic
  }

  /** The fallback from given regex fields; a malformed flight identifier becomes a ValueError. */
  function FallbackFrom(basic: map<string, Json>, message: string, id: Option<string>,
                        secondary: string -> Option<Completion>, decode: Decoder): (r: Result<Outcome, Failure>)
    ensures r.Err? ==> r.error == ValueError("Failed to parse TTY message after multiple attempts: " + IdText(id))
    ensures r.Ok? ==> r.value.parsingMethod == "fallback"
    ensures r.Ok? ==>
      && r.value.record.Keys == Required + {"supplementary_info", "raw_message", "confidence_score"}
      && r.value.record["confidence_score"] == Num(0.5)
      && r.value.record["supplementary_info"] == Null
      && r.value.record["raw_message"] == Str(message)
  {
    var filled := WithDefaults(Merged(basic, message, secondary, decode));
    if FlightShape(filled["flight_identifier"]) then
      Ok(Outcome(FallbackRecord(filled, message), "fallback"))
    else
      Err(ValueError("Failed to parse TTY message after multiple attempts: " + IdText(id)))
  }

  /** `_fallback_parsing` as a value: the fallback from the regex scraper's fields. */
  function FallbackOutcome(message: string, id: Option<string>, secondary: string -> Option<Completion>,
                           decode: Decoder): (r: Result<Outcome, Failure>)
    ensures r.Err? ==> r.error == ValueError("Failed to parse TTY message after multiple attempts: " + IdText(id))
    ensures r.Ok? ==> r.value.parsingMethod == "fallback"
  {
    FallbackFrom(ExtractBasicFields(message), message, id, secondary, decode)
  }

  /** `_fallback_parsing`: regex fields, optional secondary merge, default fills, record. */
  method FallbackParsing(message: string, id: Option<string>, secondary: string -> Option<Completion>,
                         decode: Decoder) returns (r: Result<Outcome, Failure>)
    ensures r == FallbackOutcome(message, id, secondary, decode)
  {
    ghost var basic := ExtractBasicFields(message);
    var fields := ExtractBasicFields(message);
    if NeedsSecondary(fields) {
      var reply := SecondaryFields(message, secondary, decode);
      if reply.Some? {
        fields := MergeSecondary(fields, reply.value);
      }
    }
    assert fields == Merged(basic, message, secondary, decode);
    fields := FillDefaults(fields);
    if !FlightShape(fields["flight_identifier"]) {
      return Err(ValueError("Failed to parse TTY message after multiple attempts: " + IdText(id)));
    }
    return Ok(Outcome(FallbackRecord(fields, message), "fallback"));
  }

  /**
   * The secondary model is consulted only when the type or flight is
   * missing or falsy: otherwise the fallback does not depend on it.
   */
  lemma {:induction false} SecondaryOnlyWhenNeeded(basic: map<string, Json>, message: string, id: Option<string>,
                                                   s1: string -> Option<Completion>, s2: string -> Option<Completion>,
                                                   decode: Decoder)
    requires !NeedsSecondary(basic)
    ensures FallbackFrom(basic, message, id, s1, decode) == FallbackFrom(basic, message, id, s2, decode)
  {
    assert Merged(basic, message, s1, decode) == basic;
    assert Merged(basic, message, s2, decode) == basic;
  }

  /** The record keeps every required field the merged dictionary already had. */
  lemma {:induction false} FallbackKeepsPresent(basic: map<string, Json>, message: string, id: Option<string>,
                                                secondary: string -> Option<Completion>, decode: Decoder, key: string)
    requires FallbackFrom(basic, message, id, secondary, decode).Ok?
    requires key in Required && key != "flight_identifier"
    requires key in Merged(basic, message, secondary, decode)
    ensures FallbackFrom(basic, message, id, secondary, decode).value.record[key]
         == Merged(basic, message, secondary, decode)[key]
  {
    var merged := Merged(basic, message, secondary, decode);
    var filled := WithDefaults(merged);
    WithDefaultsKeeps(merged);
    assert FallbackFrom(basic, message, id, secondary, decode).value.record == FallbackRecord(filled, message);
  }

  /**
   * Absent fields get their placeholders, and a merged dictionary without a
   * flight identifier always yields a record.
   */
  lemma {:induction false} FallbackPlaceholders(basic: map<string, Json>, message: string, id: Option<string>,
                                                secondary: string -> Option<Completion>, decode: Decoder, key: string)
    requires key in Required && key !in Merged(basic, message, secondary, decode)
    requires "flight_identifier" !in Merged(basic, message, secondary, decode)
    ensures FallbackFrom(basic, message, id, secondary, decode).Ok?
    ensures FallbackFrom(basic, message, id, secondary, decode).value.record[key] == Default(key)
  {
    var merged := Merged(basic, message, secondary, decode);
    var filled := WithDefaults(merged);
    WithDefaultsFills(merged, key);
    WithDefaultsFills(merged, "flight_identifier");
    assert FlightRecord(DefaultFlight) == DefaultFlight;
    assert FallbackFrom(basic, message, id, secondary, decode).value.record == FallbackRecord(filled, message);
  }

  /**
   * The fallback fails exactly when the merged dictionary holds a flight
   * identifier that is not a dictionary with a designator and a flight
   * number (the subscripts raise, and the handler turns that into the
   * ValueError); otherwise the record's flight is rebuilt from the merged one.
   */
  lemma {:induction false} FallbackFlight(basic: map<string, Json>, message: string, id: Option<string>,
                                          secondary: string -> Option<Completion>, decode: Decoder)
    ensures var merged := Merged(basic, message, secondary, decode);
      FallbackFrom(basic, message, id, secondary, decode).Err? <==>
        "flight_identifier" in merged && !FlightShape(merged["flight_identifier"])
    ensures var merged := Merged(basic, message, secondary, decode);
      "flight_identifier" in merged && FlightShape(merged["flight_identifier"]) ==>
        && FallbackFrom(basic, message, id, secondary, decode).Ok?
        && FallbackFrom(basic, message, id, secondary, decode).value.record["flight_identifier"]
           == FlightRecord(merged["flight_identifier"])
  {
    var merged := Merged(basic, message, secondary, decode);
    var filled := WithDefaults(merged);
    WithDefaultsKeeps(merged);
    if "flight_identifier" !in merged {
      WithDefaultsFills(merged, "flight_identifier");
      assert FlightShape(DefaultFlight);
    }
  }

  /**
   * Regex fields with a truthy type and a well-formed flight go through
   * unchanged: the fallback succeeds with that type and flight.
   */
  lemma {:induction false} FallbackKeepsRegex(basic: map<string, Json>, message: string, id: Option<string>,
                                              secondary: string -> Option<Completion>, decode: Decoder)
    requires !NeedsSecondary(basic) && "message_type" in basic && "flight_identifier" in basic
    requires FlightShape(basic["flight_identifier"])
    ensures FallbackFrom(basic, message, id, secondary, decode).Ok?
    ensures FallbackFrom(basic, message, id, secondary, decode).value.record["message_type"] == basic["message_type"]
    ensures FallbackFrom(basic, message, id, secondary, decode).value.record["flight_identifier"]
         == FlightRecord(basic["flight_identifier"])
  {
    assert Merged(basic, message, secondary, decode) == basic;
    WithDefaultsKeeps(basic);
    var filled := WithDefaults(basic);
    assert FallbackFrom(basic, message, id, secondary, decode).value.record == FallbackRecord(filled, message);
  }

  /**
   * With a message type and a flight found by the regexes, the fallback
   * always succeeds and keeps the regex type and flight.
   */
  lemma {:induction false} FallbackFromRegex(message: string, id: Option<string>,
                                             secondary: string -> Option<Completion>, decode: Decoder)
    requires DetectMessageType(message).Some? && Leftmost(message, FlightAt, 0).Some?
    ensures FallbackOutcome(message, id, secondary, decode).Ok?
    ensures FallbackOutcome(message, id, secondary, decode).value.record["message_type"]
         == Str(Code(DetectMessageType(message).value))
    ensures FallbackOutcome(message, id, secondary, decode).value.record["flight_identifier"]
         == ExtractBasicFields(message)["flight_identifier"]
  {
    var basic := ExtractBasicFields(message);
    var dn := Leftmost(message, FlightAt, 0).value.1;
    var fi := basic["flight_identifier"];
    assert fi == RegexFlight(dn.0, dn.1, ScheduledDate(message, dn.0, dn.1));
    RegexFlightShape(dn.0, dn.1, ScheduledDate(message, dn.0, dn.1));
    assert Truthy(basic["message_type"]) by {
      CodeNonEmpty(DetectMessageType(message).value);
    }
    FallbackKeepsRegex(basic, message, id, secondary, decode);
  }

  /** The flight identifier the regex scraper builds. */
  function RegexFlight(designator: string, number: string, date: Json): Json {
    Obj(map["designator" := Str(designator), "flight_number" := Str(number), "scheduled_date" := date])
  }

  lemma RegexFlightShape(designator: string, number: string, date: Json)
    ensures FlightShape(RegexFlight(designator, number, date)) && Truthy(RegexFlight(designator, number, date))
    ensures FlightRecord(RegexFlight(designator, number, date)) == RegexFlight(designator, number, date)
  {
    var fi := RegexFlight(designator, number, date);
    assert "designator" in fi.fields;
    assert fi.fields.Keys == {"designator", "flight_number", "scheduled_date"};
  }

  lemma CodeNonEmpty(t: MsgType)
    ensures Code(t) != ""
  {
  }

  // ------------------------------------------------------------ parse_tty_message

  /** The dictionary lookups of the record construction succeed (no KeyError or TypeError). */
  predicate HasRecordFields(parsed: map<string, Json>) {
    Required <= parsed.Keys && FlightShape(parsed["flight_identifier"])
  }

  /** `parsed_result.get("confidence_score", 1.0)` as a number. */
  function ScoreOf(parsed: map<string, Json>): real {
    if "confidence_score" in parsed && parsed["confidence_score"].Num? then parsed["confidence_score"].n
    else 1.0
  }

  /**
   * The outcome of a decoded primary reply: the record lookups, then the
   * ANTLR branch when the score is below the threshold and ANTLR is on.
   */
  function PrimaryOutcome(parsed: map<string, Json>, message: string, fewShot: bool,
                          threshold: real, antlrFallback: bool): (r: Result<Outcome, Failure>)
    ensures r.Err? <==> !HasRecordFields(parsed)
    ensures r.Err? ==> r.error == Malformed
    ensures r.Ok? ==> r.value == Outcome(parsed, if fewShot then "llm-few-shot" else "llm")
  {
    if !HasRecordFields(parsed) then Err(Malformed)
    else
      var base := if fewShot then "llm-few-shot" else "llm";
      var via :=
        if ScoreOf(parsed) < threshold && antlrFallback && ParseWithAntlr(message).Ok? then "antlr"
        else base;
      Ok(Outcome(parsed, via))
  }

  /**
   * `parse_tty_message`: the format gate, the primary call, the reply
   * processing and the record step; a JSON decode error goes to the
   * fallback, every other failure propagates.
   */
  function ParseTtyMessage(message: string, id: Option<string>, fewShot: bool, env: Env): (r: Result<Outcome, Failure>)
    ensures !ValidateTtyMessage(message) ==> r == Err(ValueError("Invalid TTY message format: " + IdText(id)))
    ensures ValidateTtyMessage(message) && env.primary(message, fewShot).None? ==> r == Err(ModelError)
    ensures r != Err(DecodeError)
    ensures r.Ok? ==> r.value.parsingMethod in {"llm", "llm-few-shot", "fallback"}
  {
    if !ValidateTtyMessage(message) then Err(ValueError("Invalid TTY message format: " + IdText(id)))
    else match env.primary(message, fewShot)
      case None => Err(ModelError)
      case Some(c) =>
        match ProcessedReply(c, message, env.decode)
        case Err(DecodeError) => FallbackOutcome(message, id, env.secondary, env.decode)
        case Err(e) => Err(e)
        case Ok(parsed) => PrimaryOutcome(parsed, message, fewShot, env.threshold, env.antlrFallback)
  }

  /**
   * The ANTLR branch never fires: the outcome of a decoded reply does not
   * depend on the confidence threshold or the ANTLR switch.
   */
  lemma {:induction false} AntlrInert(parsed: map<string, Json>, message: string, fewShot: bool,
                                      t1: real, a1: bool, t2: real, a2: bool)
    ensures PrimaryOutcome(parsed, message, fewShot, t1, a1) == PrimaryOutcome(parsed, message, fewShot, t2, a2)
  {
  }

  /** A reply the primary model returns is stamped and returned with the model's method name. */
  lemma {:induction false} PrimaryStamped(message: string, id: Option<string>, fewShot: bool, env: Env)
    requires ParseTtyMessage(message, id, fewShot, env).Ok?
    requires ParseTtyMessage(message, id, fewShot, env).value.parsingMethod != "fallback"
    ensures var rec := ParseTtyMessage(message, id, fewShot, env).value.record;
      && "raw_message" in rec && "confidence_score" in rec
      && (rec["confidence_score"] == Num(1.0) || rec["confidence_score"] == Num(0.7))
      && HasRecordFields(rec)
      && ParseTtyMessage(message, id, fewShot, env).value.parsingMethod == (if fewShot then "llm-few-shot" else "llm")
  {
    var c := env.primary(message, fewShot).value;
    var parsed := ProcessedReply(c, message, env.decode);
    assert parsed.Ok?;
  }

  /**
   * Exception routing: a decode error of the primary reply yields exactly
   * the fallback's outcome; any other failure of the reply is re-raised;
   * a processed reply goes on to the record step, whose outcome is returned.
   */
  lemma {:induction false} DecodeErrorRouted(message: string, id: Option<string>, fewShot: bool, env: Env)
    requires ValidateTtyMessage(message) && env.primary(message, fewShot).Some?
    ensures var p := ProcessedReply(env.primary(message, fewShot).value, message, env.decode);
      && (p == Err(DecodeError) ==>
            ParseTtyMessage(message, id, fewShot, env) == FallbackOutcome(message, id, env.secondary, env.decode))
      && (p.Err? && p.error != DecodeError ==> ParseTtyMessage(message, id, fewShot, env) == Err(p.error))
      && (p.Ok? ==>
            ParseTtyMessage(message, id, fewShot, env) == PrimaryOutcome(p.value, message, fewShot, env.threshold, env.antlrFallback))
  {
  }

  /** The reply `{}` is a span by itself. */
  lemma EmptyObjectSpan()
    ensures JsonSpan("{}") == Ok("{}")
  {
    assert Find("{}", '{') == 0;
    assert RFind("{}", '}') == 1;
    assert "{}"[0..2] == "{}";
  }

  /** Decoded, the reply `{}` only gains the two stamped keys and lacks every record field. */
  lemma EmptyObjectStamped(message: string, finishReason: string, decode: Decoder)
    requires decode("{}") == Some(Obj(map[]))
    ensures ProcessedReply(Completion("{}", finishReason), message, decode) == Ok(Stamp(map[], message, finishReason))
    ensures !HasRecordFields(Stamp(map[], message, finishReason))
  {
    EmptyObjectSpan();
    assert "message_type" !in Stamp(map[], message, finishReason);
  }

  /**
   * A reply of `{}` decodes, but its record lookup raises a KeyError, and
   * that is re-raised: it does not reach the fallback.
   */
  lemma {:induction false} EmptyObjectReraised(message: string, id: Option<string>, fewShot: bool, env: Env,
                                               finishReason: string)
    requires ValidateTtyMessage(message)
    requires env.primary(message, fewShot) == Some(Completion("{}", finishReason))
    requires env.decode("{}") == Some(Obj(map[]))
    ensures ParseTtyMessage(message, id, fewShot, env) == Err(Malformed)
  {
    EmptyObjectStamped(message, finishReason, env.decode);
  }

  // ------------------------------------------------------------ batch_parse_tty_messages

  /** One batch entry: the outcome and the id it was submitted under. */
  datatype BatchItem = BatchItem(outcome: Outcome, id: Option<string>)

  /** A per-message parse, as the batch sees it. */
  type Parser = (string, Option<string>) -> Result<Outcome, Failure>

  /** The batch's parser: `parse_tty_message` with its defaults (few-shot). */
  function BatchParser(env: Env): Parser {
    (m, id) => ParseTtyMessage(m, id, true, env)
  }

  /** The entry for one submitted message, when its parse succeeds. */
  function Entry(m: (string, Option<string>), parse: Parser): Option<BatchItem> {
    match parse(m.0, m.1)
    case Ok(o) => Some(BatchItem(o, m.1))
    case Err(_) => None
  }

  /** The batch result: the successful entries, in input order. */
  function BatchOutcome(messages: seq<(string, Option<string>)>, parse: Parser): (r: seq<BatchItem>)
    ensures |r| <= |messages|
  {
    if messages == [] then []
    else
      var n := |messages| - 1;
      BatchOutcome(messages[..n], parse) + (if Entry(messages[n], parse).Some? then [Entry(messages[n], parse).value] else [])
  }

  /**
   * `batch_parse_tty_messages`, over the per-message parse it is given
   * (`BatchParser(env)` in the service): failures are skipped, successes
   * appended in order.
   */
  method BatchParse(messages: seq<(string, Option<string>)>, parse: Parser) returns (results: seq<BatchItem>)
    ensures results == BatchOutcome(messages, parse)
  {
    results := [];
    var i := 0;
    while i < |messages|
      invariant 0 <= i <= |messages|
      invariant results == BatchOutcome(messages[..i], parse)
    {
      var r := parse(messages[i].0, messages[i].1);
      if r.Ok? {
        results := results + [BatchItem(r.value, messages[i].1)];
      }
      assert messages[..i + 1][..i] == messages[..i];
      i := i + 1;
    }
    assert messages[..i] == messages;
  }

  /** The indices of the messages whose parse succeeds, in increasing order. */
  ghost function Kept(messages: seq<(string, Option<string>)>, parse: Parser): (ks: seq<nat>)
    ensures forall j | 0 <= j < |ks| :: ks[j] < |messages|
  {
    if messages == [] then []
    else
      var n := |messages| - 1;
      Kept(messages[..n], parse) + (if Entry(messages[n], parse).Some? then [n] else [])
  }

  /**
   * The batch keeps input order and skips exactly the failures: its j-th
   * entry is the entry of the Kept[j]-th message, the kept indices strictly
   * increase, and an index is kept exactly when that message parses.
   */
  lemma {:induction false} BatchKeepsOrder(messages: seq<(string, Option<string>)>, parse: Parser)
    ensures var r, ks := BatchOutcome(messages, parse), Kept(messages, parse);
      && |ks| == |r|
      && (forall j | 0 <= j < |r| :: Entry(messages[ks[j]], parse) == Some(r[j]))
      && (forall a, b | 0 <= a < b < |ks| :: ks[a] < ks[b])
      && (forall k | 0 <= k < |messages| :: k in ks <==> Entry(messages[k], parse).Some?)
  {
    if messages != [] {
      var n := |messages| - 1;
      var front := messages[..n];
      BatchKeepsOrder(front, parse);
      assert forall k | 0 <= k < n :: front[k] == messages[k];
    }
  }
}
