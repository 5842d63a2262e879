/**
 * `ParserService.parse_tty_message` of app/service/parser.py: every choice
 * of a backend reply gains a "parsed_json" entry, decoded from a
 * ```` ```json ```` fenced block when there is one and from the whole
 * content otherwise; a decode failure keeps the raw content instead.
 */
module FencedParser {
  import opened Wrappers
  import opened Text
  import opened JsonModel
  import Patterns

  const OpenFence: string := "```json"
  const Fence: string := "```"

  /** From `j` on: optional whitespace, then a closing fence. */
  predicate FenceAfter(s: string, j: nat)
    decreases |s| - j
  {
    j < |s| && if IsSpace(s[j]) then FenceAfter(s, j + 1) else HasAt(s, j, Fence)
  }

  /** A `}` at `e` followed by optional whitespace and a closing fence. */
  predicate CloseAt(s: string, e: nat) {
    e < |s| && s[e] == '}' && FenceAfter(s, e + 1)
  }

  /** The same, with the whitespace run `s[e+1..w]` chosen freely. */
  ghost predicate CloseFits(s: string, e: nat, w: nat) {
    e < w <= |s| && s[e] == '}' && All(s, e + 1, w, IsSpace) && HasAt(s, w, Fence)
  }

  /** Whitespace up to `w` and a fence at `w`: a backtick is not whitespace, so the scan stops exactly there. */
  lemma {:induction false} FenceAfterComplete(s: string, j: nat, w: nat)
    requires j <= w <= |s| && All(s, j, w, IsSpace) && HasAt(s, w, Fence)
    ensures FenceAfter(s, j)
    decreases w - j
  {
    if j < w {
      FenceAfterComplete(s, j + 1, w);
    } else {
      assert s[w] == Fence[0];
    }
  }

  /** A `}` that the declarative pattern closes is one the scanner finds. */
  lemma CloseComplete(s: string, e: nat, w: nat)
    requires CloseFits(s, e, w)
    ensures CloseAt(s, e)
  {
    FenceAfterComplete(s, e + 1, w);
  }

  /** Where the object must start: after the opening fence at `i` and the whitespace that follows it. */
  function Brace(s: string, i: nat): (q: nat)
    requires HasAt(s, i, OpenFence)
    ensures i + |OpenFence| <= q <= |s| && All(s, i + |OpenFence|, q, IsSpace)
    ensures q < |s| ==> !IsSpace(s[q])
  {
    i + |OpenFence| + Run(s, i + |OpenFence|, IsSpace)
  }

  /** Any whitespace run after the fence that stops at a non-space is the one `Brace` takes. */
  lemma BraceIs(s: string, i: nat, q: nat)
    requires HasAt(s, i, OpenFence) && i + |OpenFence| <= q < |s|
    requires All(s, i + |OpenFence|, q, IsSpace) && !IsSpace(s[q])
    ensures Brace(s, i) == q
  {
    Patterns.RunLenIs(s, i + |OpenFence|, IsSpace, |s| - (i + |OpenFence|), q - (i + |OpenFence|));
  }

  /** The last position in `(q, j)` where a closing `}` fits, or -1: the greedy `.*`. */
  function LastClose(s: string, q: nat, j: nat): (r: int)
    requires q < j <= |s|
    ensures r == -1 || q < r < j
    ensures r != -1 ==> CloseAt(s, r)
    decreases j
  {
    if j == q + 1 then -1
    else if CloseAt(s, j - 1) then j - 1
    else LastClose(s, q, j - 1)
  }

  /** No closing `}` in `(q, j)` lies beyond the one `LastClose` picks. */
  lemma {:induction false} LastCloseMax(s: string, q: nat, j: nat, e: nat)
    requires q < e < j <= |s| && CloseAt(s, e)
    ensures LastClose(s, q, j) >= e
    decreases j
  {
    if e < j - 1 && !CloseAt(s, j - 1) {
      LastCloseMax(s, q, j - 1, e);
    }
  }

  /**
   * The pattern `(?s)```json\s*(\{.*\})\s*```` at `i`: the opening brace
   * right after the fence and its whitespace, and the group running to the
   * last `}` that a closing fence can follow.
   */
  function FenceAt(s: string, i: nat): (r: Option<string>)
    ensures r.Some? ==> HasAt(s, i, OpenFence)
    ensures r.Some? ==> |r.value| >= 2 && r.value[0] == '{' && r.value[|r.value| - 1] == '}'
  {
    if !HasAt(s, i, OpenFence) then None
    else
      var q := Brace(s, i);
      if q < |s| && s[q] == '{' && LastClose(s, q, |s|) != -1 then Some(s[q..LastClose(s, q, |s|) + 1])
      else None
  }

  /**
   * Whenever an opening fence, whitespace, a `{`, anything, a `}`,
   * whitespace and a closing fence occur from `i` on, the scanner matches
   * at `i`, and its group reaches at least that `}`.
   */
  lemma FenceComplete(s: string, i: nat, q: nat, e: nat, w: nat)
    requires HasAt(s, i, OpenFence) && i + |OpenFence| <= q < |s| && All(s, i + |OpenFence|, q, IsSpace)
    requires s[q] == '{' && q < e && CloseFits(s, e, w)
    ensures FenceAt(s, i).Some?
    ensures q + |FenceAt(s, i).value| > e
  {
    BraceIs(s, i, q);
    CloseComplete(s, e, w);
    LastCloseMax(s, q, |s|, e);
    var c := LastClose(s, q, |s|);
    assert c >= e && c < |s|;
    assert |FenceAt(s, i).value| == c + 1 - q;
  }

  /**
   * A match's group is the text from the brace after the opening fence and
   * its whitespace up to a `}` that a closing fence follows.
   */
  lemma GroupFacts(s: string, i: nat)
    requires FenceAt(s, i).Some?
    ensures var q := Brace(s, i);
      var g := FenceAt(s, i).value;
      && q + |g| <= |s| && g == s[q..q + |g|] && CloseAt(s, q + |g| - 1)
  {
  }

  /** `re.search` for the fence: the leftmost position from `from` on where `FenceAt` matches, or -1. */
  function FirstFence(s: string, from: nat): (r: int)
    requires from <= |s|
    ensures r == -1 || from <= r < |s|
    ensures r != -1 ==> FenceAt(s, r).Some?
    decreases |s| - from
  {
    if from == |s| then -1
    else if FenceAt(s, from).Some? then from
    else FirstFence(s, from + 1)
  }

  /** Nothing matches before the position `FirstFence` reports, nor anywhere when it reports -1. */
  lemma {:induction false} FirstFenceLeftmost(s: string, from: nat, k: nat)
    requires from <= k < |s|
    requires FirstFence(s, from) == -1 || k < FirstFence(s, from)
    ensures FenceAt(s, k).None?
    decreases |s| - from
  {
    if k > from {
      FirstFenceLeftmost(s, from + 1, k);
    }
  }

  /** The text handed to the decoder: the fenced group, or the whole content. */
  function JsonText(raw: string): (r: string)
    ensures FirstFence(raw, 0) != -1 ==> r == FenceAt(raw, FirstFence(raw, 0)).value
    ensures FirstFence(raw, 0) == -1 ==> r == raw
  {
    if FirstFence(raw, 0) == -1 then raw
    else FenceAt(raw, FirstFence(raw, 0)).value
  }

  /** The value stored under "parsed_json": the decoded text, or `{"raw_content": raw}`. */
  function ParsedJson(raw: string, decode: Decoder): (r: Json)
    ensures decode(JsonText(raw)).Some? ==> r == decode(JsonText(raw)).value
    ensures decode(JsonText(raw)).None? ==> r.Obj? && r.fields == map["raw_content" := Str(raw)]
  {
    match decode(JsonText(raw))
    case Some(j) => j
    case None => Obj(map["raw_content" := Str(raw)])
  }

  /** One choice with "parsed_json" added; None for the KeyError or TypeError on its content. */
  function Enrich(choice: Json, decode: Decoder): (r: Option<Json>)
    ensures r.Some? <==> MessageContent(choice).Some?
    ensures r.Some? ==> r.value.Obj? && choice.Obj?
  {
    match MessageContent(choice)
    case None => None
    case Some(raw) => Some(Obj(choice.fields["parsed_json" := ParsedJson(raw, decode)]))
  }

  /** An enriched choice keeps every other key and value and adds the parsed content. */
  lemma EnrichKeeps(choice: Json, decode: Decoder)
    requires MessageContent(choice).Some?
    ensures var e := Enrich(choice, decode).value;
      && e.fields.Keys == choice.fields.Keys + {"parsed_json"}
      && (forall k | k in choice.fields && k != "parsed_json" :: e.fields[k] == choice.fields[k])
      && e.fields["parsed_json"] == ParsedJson(MessageContent(choice).value, decode)
  {
  }

  /** Every choice enriched in order, or None as soon as one of them raises. */
  function EnrichAll(choices: seq<Json>, decode: Decoder): (r: Option<seq<Json>>)
    ensures r.Some? <==> forall k | 0 <= k < |choices| :: Enrich(choices[k], decode).Some?
    ensures r.Some? ==> |r.value| == |choices|
    ensures r.Some? ==> forall k | 0 <= k < |choices| :: r.value[k] == Enrich(choices[k], decode).value
  {
    if choices == [] then Some([])
    else if Enrich(choices[0], decode).None? then None
    else if EnrichAll(choices[1..], decode).None? then
      assert forall k | 1 <= k < |choices| :: choices[k] == choices[1..][k - 1];
      None
    else
      assert forall k | 1 <= k < |choices| :: choices[k] == choices[1..][k - 1];
      Some([Enrich(choices[0], decode).value] + EnrichAll(choices[1..], decode).value)
  }

  /** A list that agrees with `Enrich` at every index is the enriched list. */
  lemma EnrichAllIs(choices: seq<Json>, parsed: seq<Json>, decode: Decoder)
    requires |parsed| == |choices|
    requires forall k | 0 <= k < |choices| :: Enrich(choices[k], decode).Some? && parsed[k] == Enrich(choices[k], decode).value
    ensures EnrichAll(choices, decode) == Some(parsed)
  {
    var all := EnrichAll(choices, decode);
    assert all.Some?;
    assert |all.value| == |parsed|;
    forall k | 0 <= k < |parsed| ensures all.value[k] == parsed[k] {
      assert all.value[k] == Enrich(choices[k], decode).value;
    }
    assert all.value == parsed;
  }

  /** What the call returns: the first choice's parsed value, or the whole enriched reply. */
  function ParseSpec(body: map<string, Json>, decode: Decoder, compact: bool): (r: Result<Json, Failure>)
    ensures r.Ok? <==>
      && "choices" in body && body["choices"].Arr? && body["choices"].items != []
      && EnrichAll(body["choices"].items, decode).Some?
    ensures r.Err? ==> r.error == Malformed
  {
    if "choices" !in body || !body["choices"].Arr? then Err(Malformed)
    else
      match EnrichAll(body["choices"].items, decode)
      case None => Err(Malformed)
      case Some(parsed) =>
        if parsed == [] then Err(Malformed)
        else if compact then Ok(parsed[0].fields["parsed_json"])
        else Ok(Obj(body["choices" := Arr(parsed)]))
  }

  /**
   * The choices after the loop stops: each readable choice before the first
   * unreadable one enriched in place, the rest as they were.
   */
  function EnrichPrefix(choices: seq<Json>, decode: Decoder): (r: seq<Json>)
    ensures |r| == |choices|
  {
    if choices == [] then []
    else match Enrich(choices[0], decode)
      case None => choices
      case Some(c) => [c] + EnrichPrefix(choices[1..], decode)
  }

  /** A readable choice at `j` is enriched and the rest follows it. */
  lemma EnrichPrefixStep(choices: seq<Json>, j: nat, c: Json, decode: Decoder)
    requires j < |choices| && Enrich(choices[j], decode) == Some(c)
    ensures EnrichPrefix(choices[j..], decode) == [c] + EnrichPrefix(choices[j + 1..], decode)
  {
    assert choices[j..][1..] == choices[j + 1..];
  }

  /** A sequence that starts with `p[j]` and goes on as `p[j + 1..] + tail` is `p[j..] + tail`. */
  lemma ConsSuffix<T>(p: seq<T>, j: nat, whole: seq<T>, next: seq<T>, tail: seq<T>)
    requires j < |p| && whole == [p[j]] + next && next == p[j + 1..] + tail
    ensures whole == p[j..] + tail
  {
    assert p[j..] == [p[j]] + p[j + 1..];
  }

  /** Once the choices from `j` to `i` are enriched, the rest is enriched from `i` on. */
  lemma {:induction false} EnrichPrefixFrom(choices: seq<Json>, parsed: seq<Json>, i: nat, j: nat, decode: Decoder)
    requires j <= i <= |choices| && |parsed| == i
    requires forall k {:trigger Enrich(choices[k], decode)} | 0 <= k < i :: Enrich(choices[k], decode) == Some(parsed[k])
    ensures EnrichPrefix(choices[j..], decode) == parsed[j..] + EnrichPrefix(choices[i..], decode)
    decreases i - j
  {
    if j < i {
      EnrichPrefixFrom(choices, parsed, i, j + 1, decode);
      EnrichPrefixStep(choices, j, parsed[j], decode);
      ConsSuffix(parsed, j, EnrichPrefix(choices[j..], decode), EnrichPrefix(choices[j + 1..], decode),
        EnrichPrefix(choices[i..], decode));
    } else {
      assert parsed[j..] == [];
    }
  }

  /** Once the first `i` choices are enriched, the rest is enriched from `i` on. */
  lemma EnrichPrefixSplit(choices: seq<Json>, parsed: seq<Json>, i: nat, decode: Decoder)
    requires i <= |choices| && |parsed| == i
    requires forall k | 0 <= k < i :: Enrich(choices[k], decode) == Some(parsed[k])
    ensures EnrichPrefix(choices, decode) == parsed + EnrichPrefix(choices[i..], decode)
  {
    EnrichPrefixFrom(choices, parsed, i, 0, decode);
    assert choices[0..] == choices && parsed[0..] == parsed;
  }

  /**
   * The loop over the choices: each one is enriched where it sits in the
   * reply, as the Python dictionaries are, until one cannot be read.
   */
  method EnrichChoices(reply: Reply, choices: seq<Json>, decode: Decoder) returns (parsed: seq<Json>, ok: bool)
    requires "choices" in reply.body && reply.body["choices"] == Arr(choices)
    modifies reply
    ensures ok <==> EnrichAll(choices, decode).Some?
    ensures ok ==> parsed == EnrichAll(choices, decode).value && parsed == EnrichPrefix(choices, decode)
    ensures reply.body == old(reply.body)["choices" := Arr(EnrichPrefix(choices, decode))]
  {
    parsed := [];
    var i := 0;
    assert parsed + choices[i..] == choices;
    while i < |choices|
      invariant 0 <= i <= |choices| && |parsed| == i
      invariant forall k | 0 <= k < i :: Enrich(choices[k], decode) == Some(parsed[k])
      invariant reply.body == old(reply.body)["choices" := Arr(parsed + choices[i..])]
    {
      var enriched := Enrich(choices[i], decode);
      if enriched.None? {
        EnrichPrefixSplit(choices, parsed, i, decode);
        assert choices[i..][0] == choices[i];
        return parsed, false;
      }
      reply.body := reply.body["choices" := Arr(parsed + [enriched.value] + choices[i + 1..])];
      parsed := parsed + [enriched.value];
      i := i + 1;
    }
    assert parsed + choices[i..] == parsed;
    EnrichPrefixSplit(choices, parsed, i, decode);
    assert choices[i..] == [];
    EnrichAllIs(choices, parsed, decode);
    ok := true;
  }

  /**
   * A non-list value the `for` loop walks through without a step: the empty
   * dictionary or the empty string. Any other non-list raises at once.
   */
  predicate EmptyIterable(j: Json) {
    j == Obj(map[]) || j == Str("")
  }

  /**
   * The call: on success "choices" holds the enriched list; on an error the
   * choices enriched before it stay enriched, and an empty non-list
   * "choices" has been replaced by `[]` before the index error.
   */
  method ParseTtyMessage(reply: Reply, decode: Decoder, compact: bool) returns (r: Result<Json, Failure>)
    modifies reply
    ensures r == ParseSpec(old(reply.body), decode, compact)
    ensures r.Ok? ==>
      reply.body == old(reply.body)["choices" := Arr(EnrichAll(old(reply.body)["choices"].items, decode).value)]
    ensures r.Err? ==>
      reply.body == if "choices" !in old(reply.body) then old(reply.body)
                    else if old(reply.body)["choices"].Arr?
                    then old(reply.body)["choices" := Arr(EnrichPrefix(old(reply.body)["choices"].items, decode))]
                    else if EmptyIterable(old(reply.body)["choices"]) then old(reply.body)["choices" := Arr([])]
                    else old(reply.body)
  {
    if "choices" !in reply.body {
      return Err(Malformed);
    }
    if EmptyIterable(reply.body["choices"]) {
      reply.body := reply.body["choices" := Arr([])];
      return Err(Malformed);
    }
    if !reply.body["choices"].Arr? {
      return Err(Malformed);
    }
    var choices := reply.body["choices"].items;
    var parsed, ok := EnrichChoices(reply, choices, decode);
    if !ok || parsed == [] {
      return Err(Malformed);
    }
    r := if compact then Ok(parsed[0].fields["parsed_json"]) else Ok(Obj(reply.body));
  }

  // ---------------------------------------------------------------- properties

  /**
   * The compact result is the first choice's parsed value; the full result
   * keeps every key of the reply and every key of every choice, in order.
   */
  lemma {:induction false} ResultShape(body: map<string, Json>, decode: Decoder, compact: bool)
    requires ParseSpec(body, decode, compact).Ok?
    ensures var first := body["choices"].items[0];
      compact ==> ParseSpec(body, decode, compact).value == ParsedJson(MessageContent(first).value, decode)
    ensures !compact ==>
      var full := ParseSpec(body, decode, compact).value;
      && full.Obj? && full.fields.Keys == body.Keys
      && forall k | k in body && k != "choices" :: full.fields[k] == body[k]
    ensures !compact ==>
      var out := ParseSpec(body, decode, compact).value.fields["choices"];
      && out.Arr? && |out.items| == |body["choices"].items|
      && forall k | 0 <= k < |out.items| ::
           out.items[k].Obj? && body["choices"].items[k].Obj?
           && out.items[k].fields.Keys == body["choices"].items[k].fields.Keys + {"parsed_json"}
  {
    var parsed := EnrichAll(body["choices"].items, decode).value;
    assert parsed[0] == Enrich(body["choices"].items[0], decode).value;
    EnrichKeeps(body["choices"].items[0], decode);
    if !compact {
      var out := ParseSpec(body, decode, compact).value.fields["choices"];
      assert out == Arr(parsed);
      forall k | 0 <= k < |out.items|
        ensures out.items[k].Obj? && body["choices"].items[k].Obj?
        ensures out.items[k].fields.Keys == body["choices"].items[k].fields.Keys + {"parsed_json"}
      {
        assert out.items[k] == Enrich(body["choices"].items[k], decode).value;
        EnrichKeeps(body["choices"].items[k], decode);
      }
    }
  }

  /**
   * Greediness: when the leftmost opening fence is followed by whitespace
   * and a `{`, every `}` after that brace which a closing fence can follow
   * lies inside the group.
   */
  lemma FencedGroupGreedy(raw: string, q: nat, e: nat, w: nat)
    requires FirstFence(raw, 0) != -1
    requires var i := FirstFence(raw, 0);
      i + |OpenFence| <= q < |raw| && All(raw, i + |OpenFence|, q, IsSpace) && raw[q] == '{'
    requires q < e && CloseFits(raw, e, w)
    ensures e < q + |JsonText(raw)|
  {
    var i := FirstFence(raw, 0);
    assert HasAt(raw, i, OpenFence);
    FenceComplete(raw, i, q, e, w);
  }
}
