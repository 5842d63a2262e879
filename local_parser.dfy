/**
 * The part of `LocalModelParser` in app/service/local_parser.py that runs
 * after generation: `_extract_json` picks a JSON object out of the
 * generated text, and the result is re-serialised and wrapped in the
 * reply shape the other parsers consume. Generation itself is an input.
 */
module LocalParser {
  import opened Wrappers
  import opened Text
  import opened JsonModel
  import FencedParser

  /** The first position `e >= from` where a `}` followed by whitespace and a closing fence sits, or -1: the lazy `.*?`. */
  function FirstClose(s: string, from: nat): (r: int)
    ensures r == -1 || from <= r < |s|
    ensures r != -1 ==> FencedParser.CloseAt(s, r)
    decreases |s| - from
  {
    if from >= |s| then -1
    else if FencedParser.CloseAt(s, from) then from
    else FirstClose(s, from + 1)
  }

  /** No closing `}` lies before the one `FirstClose` picks. */
  lemma {:induction false} FirstCloseMin(s: string, from: nat, k: nat)
    requires from <= k < |s| && (FirstClose(s, from) == -1 || k < FirstClose(s, from))
    ensures !FencedParser.CloseAt(s, k)
    decreases |s| - from
  {
    if k > from {
      FirstCloseMin(s, from + 1, k);
    }
  }

  /**
   * The lazy pattern `(?s)```json\s*(\{.*?\})\s*```` at `i`: the index of
   * the `}` that ends the group, the first one after the opening brace that
   * a closing fence can follow, or -1 when the pattern does not match.
   */
  function LazyCloseAt(s: string, i: nat): (e: int)
    ensures e != -1 ==> HasAt(s, i, FencedParser.OpenFence)
    ensures e != -1 ==> FencedParser.Brace(s, i) < e < |s| && s[FencedParser.Brace(s, i)] == '{'
    ensures e != -1 ==> FencedParser.CloseAt(s, e)
  {
    if !HasAt(s, i, FencedParser.OpenFence) then -1
    else if FencedParser.Brace(s, i) < |s| && s[FencedParser.Brace(s, i)] == '{' then FirstClose(s, FencedParser.Brace(s, i) + 1)
    else -1
  }

  /** The lazy group stops at the first `}` that a closing fence follows. */
  lemma LazyGroupFirst(s: string, i: nat, k: nat)
    requires LazyCloseAt(s, i) != -1
    requires FencedParser.Brace(s, i) < k < LazyCloseAt(s, i)
    ensures !FencedParser.CloseAt(s, k)
  {
    FirstCloseMin(s, FencedParser.Brace(s, i) + 1, k);
  }

  /** The leftmost position from `from` on where the lazy fence matches, or -1. */
  function FirstLazyFence(s: string, from: nat): (r: int)
    requires from <= |s|
    ensures r == -1 || from <= r < |s|
    ensures r != -1 ==> LazyCloseAt(s, r) != -1
    decreases |s| - from
  {
    if from == |s| then -1
    else if LazyCloseAt(s, from) != -1 then from
    else FirstLazyFence(s, from + 1)
  }

  /** Nothing matches before the position `FirstLazyFence` reports, nor anywhere when it reports -1. */
  lemma {:induction false} FirstLazyFenceLeftmost(s: string, from: nat, k: nat)
    requires from <= k < |s|
    requires FirstLazyFence(s, from) == -1 || k < FirstLazyFence(s, from)
    ensures LazyCloseAt(s, k) == -1
    decreases |s| - from
  {
    if k > from {
      FirstLazyFenceLeftmost(s, from + 1, k);
    }
  }

  /** Some `{` is followed, anywhere later, by a `}`. */
  ghost predicate HasBracePair(s: string) {
    exists a: nat, b: nat | a < b < |s| :: s[a] == '{' && s[b] == '}'
  }

  /** The first `}` at or after `i`, or -1. */
  function NextClose(s: string, i: nat): (r: int)
    ensures r == -1 || i <= r < |s|
    ensures r != -1 ==> s[r] == '}'
    ensures forall k | i <= k < (if r == -1 then |s| else r) :: s[k] != '}'
    decreases |s| - i
  {
    if i >= |s| then -1 else if s[i] == '}' then i else NextClose(s, i + 1)
  }

  /**
   * The pattern `(?s)(\{.*?\})` searched from the start: the first `{`
   * and the first `}` after it.
   */
  function BareObject(s: string): (r: string)
    ensures r != "" ==> |r| >= 2 && r[0] == '{' && r[|r| - 1] == '}'
  {
    var f := Find(s, '{');
    if f == -1 || NextClose(s, f + 1) == -1 then ""
    else s[f..NextClose(s, f + 1) + 1]
  }

  /** A non-empty bare result is the text from the first `{` on. */
  lemma BareSpan(s: string)
    requires BareObject(s) != ""
    ensures var r := BareObject(s); var f := Find(s, '{');
      f >= 0 && f + |r| <= |s| && r == s[f..f + |r|]
  {
  }

  /** The bare result is empty exactly when no `{` has a `}` after it. */
  lemma BareEmpty(s: string)
    ensures BareObject(s) == "" <==> !HasBracePair(s)
  {
    var f := Find(s, '{');
    if f != -1 && NextClose(s, f + 1) == -1 {
      forall a: nat, b: nat | a < b < |s| && s[a] == '{'
        ensures s[b] != '}'
      {
      }
    }
    if f != -1 && NextClose(s, f + 1) != -1 {
      assert s[f] == '{' && s[NextClose(s, f + 1)] == '}';
    }
  }

  /** The bare result holds no `}` before its last character: the lazy `.*?` stops at the first one. */
  lemma BareLazy(s: string)
    ensures var r := BareObject(s); forall k | 0 <= k < |r| - 1 :: r[k] != '}'
  {
    var r := BareObject(s);
    if r != "" {
      var f := Find(s, '{');
      forall k | 0 <= k < |r| - 1 ensures r[k] != '}' {
        assert r[k] == s[f + k];
      }
    }
  }

  /** `_extract_json`: the lazy fenced group, else the first brace pair's text, else "". */
  function ExtractJson(text: string): (r: string)
    ensures r != "" ==> |r| >= 2 && r[0] == '{' && r[|r| - 1] == '}'
    ensures FirstLazyFence(text, 0) == -1 ==> r == BareObject(text)
  {
    var i := FirstLazyFence(text, 0);
    if i == -1 then BareObject(text)
    else text[FencedParser.Brace(text, i)..LazyCloseAt(text, i) + 1]
  }

  /**
   * A fenced block takes precedence: the result then runs from the brace
   * after the leftmost fence to the first `}` after it that a closing
   * fence follows.
   */
  lemma FencePrecedence(text: string)
    requires FirstLazyFence(text, 0) != -1
    ensures var q := FencedParser.Brace(text, FirstLazyFence(text, 0));
      var r := ExtractJson(text);
      && q + |r| <= |text| && r == text[q..q + |r|]
      && FencedParser.CloseAt(text, q + |r| - 1)
      && forall k | q < k < q + |r| - 1 :: !FencedParser.CloseAt(text, k)
  {
    var i := FirstLazyFence(text, 0);
    var q, e := FencedParser.Brace(text, i), LazyCloseAt(text, i);
    assert ExtractJson(text) == text[q..e + 1];
    forall k | q < k < e
      ensures !FencedParser.CloseAt(text, k)
    {
      LazyGroupFirst(text, i, k);
    }
  }

  /** The content placed in the reply: re-serialised JSON when the extracted text decodes, else the raw text. */
  function Pretty(raw: string, decode: Decoder, encode: Encoder): (r: string)
    ensures ExtractJson(raw) != "" && decode(ExtractJson(raw)).Some? ==> r == encode(decode(ExtractJson(raw)).value)
    ensures ExtractJson(raw) == "" || decode(ExtractJson(raw)).None? ==> r == raw
  {
    var found := ExtractJson(raw);
    if found == "" then raw
    else
      match decode(found)
      case Some(obj) => encode(obj)
      case None => raw
  }

  /** `{"choices": [{"message": {"content": pretty}}]}`. */
  function Wrap(raw: string, decode: Decoder, encode: Encoder): (r: map<string, Json>)
    ensures r.Keys == {"choices"} && r["choices"].Arr? && |r["choices"].items| == 1
    ensures MessageContent(r["choices"].items[0]) == Some(Pretty(raw, decode, encode))
  {
    map["choices" := Arr([Obj(map["message" := Obj(map["content" := Str(Pretty(raw, decode, encode))])])])]
  }

  // ---------------------------------------------------------------- properties

  /** The result is empty exactly when the text has no `{` with a `}` somewhere after it. */
  lemma {:induction false} ExtractEmpty(text: string)
    ensures ExtractJson(text) == "" <==> !HasBracePair(text)
  {
    BareEmpty(text);
    var i := FirstLazyFence(text, 0);
    if i != -1 {
      assert text[FencedParser.Brace(text, i)] == '{' && text[LazyCloseAt(text, i)] == '}';
    }
  }

  /** Without a fenced block, the result holds exactly one `}`, its last character. */
  lemma {:induction false} BareHasOneClose(text: string)
    requires FirstLazyFence(text, 0) == -1 && ExtractJson(text) != ""
    ensures Count(ExtractJson(text), '}') == 1
  {
    var r := ExtractJson(text);
    BareLazy(text);
    var body := r[..|r| - 1];
    assert body + [r[|r| - 1]] == r;
    assert '}' !in body by {
      forall k | 0 <= k < |body| ensures body[k] != '}' {
        assert body[k] == r[k];
      }
    }
    CountZero(body, '}');
    CountAppend(body, [r[|r| - 1]], '}');
  }

  /** The wrapped reply always carries the content where the consuming parsers read it. */
  lemma WrapConsumed(raw: string, decode: Decoder, encode: Encoder)
    ensures var body := Wrap(raw, decode, encode);
      "choices" in body && body["choices"].Arr? && body["choices"].items != []
      && MessageContent(body["choices"].items[0]).Some?
  {
  }
}
