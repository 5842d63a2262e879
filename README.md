# SkyReader TTY message parsing core, in Dafny

SkyReader reads aviation TTY movement messages: MVT (departure), MVA
(arrival) and DIV (diversion). It turns each message into a structured
record, mostly by asking a language model and repairing or recovering the
JSON it answers with. When that fails, it falls back to regular-expression
scraping. This project models the deterministic logic around those model
calls and proves properties of it:

- the format check, the type detection and the regex field scraper
  (`app/utils/message_validator.py`), with each regular expression written
  as a scanner and proved against a declarative reading of the pattern
  (`patterns.dfy`, `message_validator.dfy`);
- the JSON recovery of `app/parser/parser.py`: the `JSON Output:` marker,
  the direct and double-encoded decoding, and the five-step `_fix_json`
  repair (`marker_parser.dfy`, `repair.dfy`);
- the per-choice fenced-block decoding of `app/service/parser.py`
  (`fenced_parser.dfy`);
- the JSON extraction and reply wrapping of `app/service/local_parser.py`
  (`local_parser.dfy`);
- the OpenAI-backed service of `app/services/parser_service.py`
  (`parser_service.dfy`): the reply slice, the confidence stamp, the
  fallback merge and its defaults, the ANTLR branch, exception routing
  and the batch loop;
- the message service of `app/services/message_service.py`
  (`message_service.dfy`): preprocessing, the validation gate, chunked
  batch processing, categorisation and the statistics counters;
- the in-memory rate limiter of `app/api/dependencies.py`
  (`rate_limiter.dfy`), as a class whose `requests` table is updated in
  place.

The model treats its collaborators as parameters:

- Every model call is an oracle that may fail (`None` stands for an
  exception).
- `json.loads`, `raw_decode` and `json.dumps` are abstract decoders and
  encoders.
- The clock is an integer `now`.
- A generated uuid is a given fresh id.

Behaviour of the code worth noting:

- **A `{}` reply is not routed to the fallback.** A reply of `{}` decodes,
  so the lookup `parsed_result["flight_identifier"]` at
  `app/services/parser_service.py:108` raises a KeyError. Only
  `json.JSONDecodeError` is routed to the fallback (lines 141-143); the
  KeyError is re-raised (lines 145-147). `ParserService.EmptyObjectReraised`
  proves this.
- **Truncation can drop openers.** Cutting after the last closer at
  `app/parser/parser.py:61-63` never changes a closer's count, but it can
  drop a `{` or `[` (input `}{`). `JsonRepair.CutCounts` states exactly
  that.

## Model

| member | source | states |
|---|---|---|
| Text.Find | app/services/parser_service.py:176 | `str.find`: -1 iff the character is absent, else its first position |
| Text.RFind | app/services/parser_service.py:177 | `str.rfind`: -1 iff the character is absent, else its last position |
| Text.Strip | app/services/message_service.py:47 | `str.strip`: a slice with only whitespace cut from either end, and no whitespace left at either end |
| Text.StripClean | app/services/message_service.py:47 | a text without whitespace at either end is stripped to itself |
| JsonModel.Get | app/services/parser_service.py:240 | `dict.get`: the value under the key, or None when the key is absent |
| JsonModel.MessageContent | app/service/parser.py:23 | `choice["message"]["content"]` yields the content text iff each step is an object holding the key and the content is a string |
| Patterns.Leftmost | app/utils/message_validator.py:29 | `re.search`: the reported position matches, and no earlier position from `from` on does; None only when no position matches |
| Patterns.HeaderAt | app/utils/message_validator.py:28 | `QU\s+\w+` at `i` yields a non-empty run of word characters after `QU` and whitespace |
| Patterns.HeaderComplete | app/utils/message_validator.py:28 | every fit of the header pattern is found by the scanner |
| Patterns.TypeAt | app/utils/message_validator.py:34 | `(MVT\|MVA\|DIV)` at `i`: the code found is spelled there, and None means no code is |
| Patterns.FlightAt | app/utils/message_validator.py:40 | `([A-Z]{2,3})(\d{1,4})`: two or three capitals then one to four digits, greedy |
| Patterns.FlightText | app/utils/message_validator.py:40 | designator and number are the matched text |
| Patterns.FlightComplete | app/utils/message_validator.py:40 | every fit is found, and the scanner takes the split Python's backtracking picks first (longest designator, then longest number) |
| Patterns.DateAt | app/utils/message_validator.py:107 | `([A-Z]{2,3}\d{1,4})/(\d{1,2})`: its flight part is the greedy flight match at the same place |
| Patterns.DateText | app/utils/message_validator.py:107 | the day is the text after the `/` |
| Patterns.DateSplit | app/utils/message_validator.py:107 | a split followed by `/` is the greedy flight split |
| Patterns.DateComplete | app/utils/message_validator.py:107 | every fit of the date pattern is found |
| Patterns.DottedRegAt | app/utils/message_validator.py:112 | `\.([A-Z0-9-]{4,8})`: four to eight registration characters after a dot, greedy |
| Patterns.DottedRegText | app/utils/message_validator.py:112 | the registration is the text after the dot |
| Patterns.DottedRegComplete | app/utils/message_validator.py:112 | every fit is found, and the match is at least as long as any fit (greedy) |
| Patterns.AnRegAt | app/utils/message_validator.py:112 | `AN\s+([A-Z0-9-]{4,8})`: the registration after `AN` and whitespace |
| Patterns.AnRegText | app/utils/message_validator.py:112 | the registration is the text after the whitespace run |
| Patterns.AnRegComplete | app/utils/message_validator.py:112 | `\s+` takes the whole whitespace run, and every fit is found |
| Patterns.AirportAt | app/utils/message_validator.py:117 | `\.([A-Z]{3,4})\b`: three or four capitals after a dot, ending a word |
| Patterns.AirportText | app/utils/message_validator.py:117 | the code is the text after the dot |
| Patterns.AirportComplete | app/utils/message_validator.py:117 | the pattern fits in at most one way, and the scanner finds it |
| Patterns.TimeAt | app/utils/message_validator.py:124 | `<tag>(\d{4})(?:/(\d{4}))?`: matches iff the pattern fits; the second time is present iff `/dddd` follows |
| Patterns.ArrivalAt | app/utils/message_validator.py:124 | the `AA` time scanner matches iff the pattern fits |
| Patterns.DepartureAt | app/utils/message_validator.py:133 | the `AD` time scanner matches iff the pattern fits |
| Patterns.DiversionAt | app/utils/message_validator.py:142 | `EA\d{4}\s+([A-Z]{3})`: the airport after the time and whitespace |
| Patterns.DiversionComplete | app/utils/message_validator.py:142 | every fit of the diversion pattern is found |
| Patterns.ReasonAt | app/utils/message_validator.py:143 | `DR(\d{2})`: matches iff `DR` and two digits are there; yields the digits |
| MessageValidator.ValidateTtyMessage | app/utils/message_validator.py:12-45 | shorter than 10 is rejected; acceptance needs a header and a type code |
| MessageValidator.ValidateMeaning | app/utils/message_validator.py:23-45 | accepted iff at least 10 long and a header, a type code and a flight each occur somewhere |
| MessageValidator.LooksLikeValidates | app/utils/message_validator.py:23-45 | the three features present ⇒ accepted |
| MessageValidator.ValidatesLooksLike | app/utils/message_validator.py:23-45 | accepted ⇒ the three features present |
| MessageValidator.DetectMessageType | app/utils/message_validator.py:48-76 | the leftmost literal code, when there is one |
| MessageValidator.DetectPriority | app/utils/message_validator.py:58-76 | a literal code wins, even inside a word, and is the leftmost one; otherwise AA+4 digits ⇒ MVA, else AD+4 digits ⇒ MVT, else EA+4 digits+space+3 capitals ⇒ DIV, else None |
| MessageValidator.DetectLiteral | app/utils/message_validator.py:59-62 | with a literal code, the result is spelled at a position before which no code occurs |
| MessageValidator.LiteralFound | app/utils/message_validator.py:59-61 | the literal search succeeds iff some code occurs |
| MessageValidator.DetectInferred | app/utils/message_validator.py:65-76 | without a literal code, the inference order AA, AD, EA |
| MessageValidator.ArrivalFound | app/utils/message_validator.py:65 | the `AA\d{4}` search succeeds iff the pattern fits somewhere |
| MessageValidator.DepartureFound | app/utils/message_validator.py:68 | the `AD\d{4}` search succeeds iff the pattern fits somewhere |
| MessageValidator.DiversionFound | app/utils/message_validator.py:71 | the diversion search succeeds iff the pattern fits somewhere |
| MessageValidator.ScheduledDate | app/utils/message_validator.py:106-109 | the day of the leftmost date match exactly when that match's flight part equals the flight match's designator+number; Null otherwise |
| MessageValidator.Registration | app/utils/message_validator.py:112 | the `.REG` token is preferred; `AN REG` only when no dotted token occurs |
| MessageValidator.DiversionData | app/utils/message_validator.py:140-151 | airport present iff the diversion pattern is found, reason present iff `DR\d\d` is found, each holding the matched code; no other key |
| MessageValidator.Payload | app/utils/message_validator.py:121-155 | absent exactly for MVA/MVT with no time match; `dddd/dddd` or `dddd` under the type's key; the diversion data for DIV; `{}` for an undetected type |
| MessageValidator.ExtractBasicFields | app/utils/message_validator.py:79-160 | raw_message always the input; each key present iff its pattern is found, holding that match; no other key |
| MessageValidator.FirstMissing | app/utils/message_validator.py:177-179 | None iff every required field is present; otherwise the first absent one in order |
| MessageValidator.Membership | app/utils/message_validator.py:195 | `key in container`: a TypeError on scalars; on objects, key membership |
| MessageValidator.AnyMember | app/utils/message_validator.py:195 | `any(...)` is true iff some key is a member; an error only from the first test |
| MessageValidator.PayloadVerdict | app/utils/message_validator.py:194-203 | valid iff one of the type's payload keys is a member; a TypeError iff the payload is a scalar; otherwise the type's missing-information reason |
| MessageValidator.ValidateParsedFields | app/utils/message_validator.py:163-203 | the checks run in order and the first failure is returned: a missing field names the first absent required key; a flight identifier that is not an object, or lacks designator or flight_number, only once every field is present; a bad type only once the flight is complete, carrying that type; otherwise the payload verdict |
| MessageValidator.ValidMeansComplete | app/utils/message_validator.py:173-203 | valid iff all required keys present, the flight is an object with designator and number, the type is MVT/MVA/DIV and the payload has one of that type's keys |
| JsonRepair.ReplaceQuotes | app/parser/parser.py:43 | every `'` becomes `"`, every other character is kept, no `'` remains |
| JsonRepair.ReplaceQuotesCounts | app/parser/parser.py:43 | the count of every other character is unchanged |
| JsonRepair.KeyAt | app/parser/parser.py:46 | the key pattern anchored at the start: whitespace, word and whitespace run before a `:` inside the text; `KeySound` and `KeyComplete` give its meaning |
| JsonRepair.QuoteKeys | app/parser/parser.py:46 | the left-to-right `re.sub` of bare keys; its partners `QuoteKeysComplete`, `QuoteKeysNoOp`, `QuoteKeysIdempotent` and `QuoteKeysCounts` state what it does |
| JsonRepair.KeySound | app/parser/parser.py:46 | what the key scanner finds fits `(\s*)(\w+)\s*:` |
| JsonRepair.KeyComplete | app/parser/parser.py:46 | whenever the key pattern fits at the start, the scanner finds exactly that fit |
| JsonRepair.QuoteKeysComplete | app/parser/parser.py:46 | no bare `word:` key remains after the rewrite |
| JsonRepair.QuoteKeysNoOp | app/parser/parser.py:46 | text without a bare key is unchanged |
| JsonRepair.QuoteKeysIdempotent | app/parser/parser.py:46 | quoting keys twice equals quoting once |
| JsonRepair.QuoteKeysFixedPoint | app/parser/parser.py:46 | the rewrite changes the text iff it holds a bare key |
| JsonRepair.QuoteKeysCounts | app/parser/parser.py:46 | counts of every character except `"` and whitespace are kept |
| JsonRepair.QuoteKeysQuotes | app/parser/parser.py:46 | `"` never decreases, and strictly increases when a bare key is present |
| JsonRepair.CommaAt | app/parser/parser.py:49 | the trailing-comma pattern anchored at the start, with its closer inside the text; `CommaSound` and `CommaComplete` give its meaning |
| JsonRepair.DropTrailingCommas | app/parser/parser.py:49 | the `re.sub` of trailing commas never lengthens the text; its partners `DropTrailingCommasCounts`, `DropTrailingCommasNoOp` and `DropTrailingCommasOnePass` state what it does |
| JsonRepair.CommaSound | app/parser/parser.py:49 | what the comma scanner finds fits `,\s*([\]}])` |
| JsonRepair.CommaComplete | app/parser/parser.py:49 | whenever the comma pattern fits at the start, the scanner finds it |
| JsonRepair.DropTrailingCommasCounts | app/parser/parser.py:49 | counts of every character except `,` and whitespace are kept |
| JsonRepair.DropTrailingCommasShrinks | app/parser/parser.py:49 | never lengthens, and shortens whenever a match is present |
| JsonRepair.DropTrailingCommasNoOp | app/parser/parser.py:49 | text without a match is unchanged |
| JsonRepair.DropTrailingCommasFixedPoint | app/parser/parser.py:49 | the rewrite changes the text iff it holds a match |
| JsonRepair.DropTrailingCommasOnePass | app/parser/parser.py:49 | one pass of `re.sub` turns `,,]` into `,]`, which still holds a trailing comma |
| JsonRepair.Repeat | app/parser/parser.py:54 | `c * n`: n copies of c, empty for n ≤ 0 |
| JsonRepair.Balance | app/parser/parser.py:52-58 | the input is kept as a prefix and only closers are appended |
| JsonRepair.BalanceCounts | app/parser/parser.py:52-58 | afterwards `}` ≥ `{` and `]` ≥ `[`; nothing is appended when closers already outnumber openers; other counts kept |
| JsonRepair.CutAfterLastCloser | app/parser/parser.py:61-63 | with a closer, the result ends at the last `}` or `]`; without one, the text is unchanged |
| JsonRepair.CutCounts | app/parser/parser.py:61-63 | truncation never adds a character and keeps every closer's count |
| JsonRepair.FixJson | app/parser/parser.py:41-65 | `_fix_json` as the five steps in order; its partners `FixJsonNoApostrophe`, `FixJsonBalanced` and `FixJsonEndsWithCloser` state what the repair guarantees |
| JsonRepair.FixJsonNoApostrophe | app/parser/parser.py:41-65 | no `'` survives the repair |
| JsonRepair.FixJsonBalanced | app/parser/parser.py:41-65 | after the repair, `}` ≥ `{` and `]` ≥ `[` |
| JsonRepair.FixJsonEndsWithCloser | app/parser/parser.py:61-63 | a repaired text holding a closer ends with one |
| MarkerParser.MarkerAt | app/parser/parser.py:15 | `JSON Output:\s*({.*})` at `i`: only whitespace before `{`, the group running to the text's last `}` |
| MarkerParser.MarkerComplete | app/parser/parser.py:15 | every fit of the marker pattern is found |
| MarkerParser.MarkerSpanShape | app/parser/parser.py:15-17 | the decoded span starts with `{` and ends at the text's last `}` |
| MarkerParser.DecodeMarked | app/parser/parser.py:19-27 | the span decoded directly; the repair only after that fails; an error iff both decodes fail |
| MarkerParser.DecodeDirect | app/parser/parser.py:30-36 | a non-string value is returned; a string is decoded again; when either decode fails, the leading raw-decoded value, or the decode error when there is none |
| MarkerParser.ContentValue | app/parser/parser.py:14-36 | no marker ⇒ direct decoding; marker without a pattern match ⇒ ValueError; otherwise the marked span |
| MarkerParser.FirstContent | app/parser/parser.py:12 | the first choice's content, only when `choices` is a non-empty list |
| MarkerParser.ParseSpec | app/parser/parser.py:10-38 | a reply without readable content is an error; otherwise the value recovered from the first choice's content |
| MarkerParser.ParseTtyMessage | app/parser/parser.py:9-39 | success replaces `choices` by the recovered value and keeps every other key; an exception leaves the reply as it was |
| MarkerParser.MarkerBranch | app/parser/parser.py:14-29 | with a marker, every failure is a ValueError; a match exists iff the pattern fits somewhere |
| FencedParser.FenceAt | app/service/parser.py:24 | a match starts at an opening fence and its group runs from `{` to `}` |
| FencedParser.FenceComplete | app/service/parser.py:24 | every fence-brace-…-brace-fence occurrence is matched, and the group reaches at least that `}` |
| FencedParser.LastCloseMax | app/service/parser.py:24 | greedy `.*`: no closing `}` lies beyond the one picked |
| FencedParser.GroupFacts | app/service/parser.py:24 | the group runs from the brace after the fence to a `}` that a closing fence follows |
| FencedParser.FirstFence | app/service/parser.py:24 | the reported position matches |
| FencedParser.FirstFenceLeftmost | app/service/parser.py:24 | nothing matches before the reported position |
| FencedParser.JsonText | app/service/parser.py:24-25 | the fenced group when a fence matches, else the whole content |
| FencedParser.FencedGroupGreedy | app/service/parser.py:24-25 | every `}` after the brace that a closing fence can follow lies inside the decoded text |
| FencedParser.ParsedJson | app/service/parser.py:26-29 | the decoded value, or exactly `{"raw_content": raw}` on a decode failure |
| FencedParser.Enrich | app/service/parser.py:22-32 | a choice is enriched iff its content can be read |
| FencedParser.EnrichKeeps | app/service/parser.py:31 | an enriched choice keeps every other key and value and gains `parsed_json` |
| FencedParser.EnrichAll | app/service/parser.py:21-34 | succeeds iff every choice does; same length and order, each choice enriched |
| FencedParser.EnrichPrefix | app/service/parser.py:21-34 | the choices after the loop stops: as many as before, each readable one before the first unreadable one enriched, with `EnrichPrefixSplit` tying it to the loop |
| FencedParser.EnrichChoices | app/service/parser.py:21-32 | the loop succeeds iff every choice is readable, returning the enriched list; the reply's choices are enriched in place up to the first unreadable one |
| FencedParser.ParseSpec | app/service/parser.py:17-37 | success iff `choices` is a non-empty list of readable choices; otherwise an error |
| FencedParser.ParseTtyMessage | app/service/parser.py:17-37 | the call returns what the specification gives; on success `choices` holds the enriched list; on an error the choices before the first unreadable one stay enriched in place, an empty dictionary or string under `choices` has become `[]`, and otherwise the reply is unchanged |
| FencedParser.ResultShape | app/service/parser.py:34-37 | compact returns the first choice's parsed value; otherwise every reply key and every choice key is kept, with `parsed_json` added |
| LocalParser.FirstCloseMin | app/service/local_parser.py:144 | lazy `.*?`: no closing `}` lies before the one picked |
| LocalParser.LazyCloseAt | app/service/local_parser.py:144 | a lazy match starts at a fence, its group starts at the brace after it and ends at a `}` that a closing fence follows |
| LocalParser.LazyGroupFirst | app/service/local_parser.py:144 | the lazy group stops at the first such `}` |
| LocalParser.FirstLazyFence | app/service/local_parser.py:144 | `re.search` of the lazy fence: -1 or a position from the start on where the pattern matches; `FirstLazyFenceLeftmost` gives that nothing matches earlier |
| LocalParser.FirstLazyFenceLeftmost | app/service/local_parser.py:144 | nothing matches before the reported position |
| LocalParser.BareObject | app/service/local_parser.py:148-149 | a non-empty result starts with `{` and ends with `}` |
| LocalParser.BareSpan | app/service/local_parser.py:148-149 | a non-empty result is the text from the first `{` to the first `}` after it |
| LocalParser.BareEmpty | app/service/local_parser.py:148-149 | empty iff no `{` has a `}` after it |
| LocalParser.BareLazy | app/service/local_parser.py:148 | no `}` before the last character |
| LocalParser.ExtractJson | app/service/local_parser.py:142-149 | a non-empty result starts with `{` and ends with `}`; without a fence it is the bare object |
| LocalParser.FencePrecedence | app/service/local_parser.py:144-146 | a fenced block wins: the result runs from the brace after the leftmost fence to the first `}` a closing fence follows |
| LocalParser.ExtractEmpty | app/service/local_parser.py:144-149 | the result is empty iff no `{` is followed later by a `}` |
| LocalParser.BareHasOneClose | app/service/local_parser.py:148-149 | without a fence, the result holds exactly one `}` |
| LocalParser.Pretty | app/service/local_parser.py:125-136 | re-serialised JSON when the extracted text decodes, else the raw text |
| LocalParser.Wrap | app/service/local_parser.py:139 | exactly `{"choices": [{"message": {"content": pretty}}]}` |
| LocalParser.WrapConsumed | app/service/local_parser.py:139 | the wrapped reply carries the content where the consuming parsers read it |
| ParserService.IdText | app/services/parser_service.py:64 | `message_id or 'unknown'`: the id itself when non-empty, `unknown` iff the id is absent, empty or `unknown` |
| ParserService.JsonSpan | app/services/parser_service.py:176-180 | the ValueError when no span exists; otherwise a text starting with `{` and ending with `}` |
| ParserService.JsonSpanFound | app/services/parser_service.py:176-180 | a span is found iff some `{` precedes some `}` |
| ParserService.JsonSpanCovers | app/services/parser_service.py:176-180 | every `{`…`}` pair lies inside the span |
| ParserService.JsonSpanBounds | app/services/parser_service.py:176-180 | the span is the slice from the first `{`, with no `}` after it in the content |
| ParserService.Confidence | app/services/parser_service.py:190-191 | 1.0 iff the finish reason is `stop`, else 0.7 |
| ParserService.Stamp | app/services/parser_service.py:186-191 | raw_message added only if absent, confidence always overwritten, every other key kept |
| ParserService.ProcessedReply | app/services/parser_service.py:157-199 | no span raises exactly "No JSON found in LLM response"; a decode error iff the span does not decode; the item-assignment error iff it decodes to a non-object; success is the stamped object |
| ParserService.ProcessLlmResponse | app/services/parser_service.py:176-199 | the slicing, decoding and stamping gives the reply above |
| ParserService.ParseWithAntlr | app/services/parser_service.py:327-340 | always raises NotImplementedError |
| ParserService.SecondaryFields | app/services/parser_service.py:241-273 | a secondary dictionary exactly when the call, the slice and the decode all succeed with an object, and then that object |
| ParserService.NeedsSecondary | app/services/parser_service.py:240 | the secondary call is made whenever the regex type or flight is missing (or falsy) |
| ParserService.Overlay | app/services/parser_service.py:267-269 | the merge keeps every regex key and adds only secondary keys; `OverlayMeaning` gives each value |
| ParserService.OverlayMeaning | app/services/parser_service.py:267-269 | non-None secondary values override; None values leave the regex field; no other key appears |
| ParserService.MergeSecondary | app/services/parser_service.py:267-269 | the merge loop computes that overlay |
| ParserService.WithDefaults | app/services/parser_service.py:276-293 | all five required keys are present afterwards |
| ParserService.WithDefaultsKeys | app/services/parser_service.py:276-293 | the fills add exactly the missing required keys |
| ParserService.WithDefaultsKeeps | app/services/parser_service.py:276-293 | keys already present keep their values |
| ParserService.WithDefaultsFills | app/services/parser_service.py:276-293 | an absent key gets its placeholder: MVT, XXX/0000/None, UNKNOWN, XXX, `{}` |
| ParserService.FillDefaults | app/services/parser_service.py:276-293 | the five in-place fills compute those defaults |
| ParserService.FallbackRecord | app/services/parser_service.py:296-312 | the record has the required fields, supplementary_info None, raw_message the input and confidence 0.5 |
| ParserService.Merged | app/services/parser_service.py:237-273 | the regex fields unchanged when no secondary call is needed; otherwise the overlay, which keeps every regex key |
| ParserService.FallbackFrom | app/services/parser_service.py:235-316 | any failure is the ValueError naming the id; success has method `fallback`, confidence 0.5, supplementary_info None and the input as raw_message |
| ParserService.FallbackFlight | app/services/parser_service.py:296-316 | the fallback fails iff the merged flight identifier is present but not a dictionary with designator and flight_number; otherwise the record's flight is rebuilt from the merged one |
| ParserService.FallbackOutcome | app/services/parser_service.py:214-316 | `_fallback_parsing` as a value: every failure is the ValueError naming the id; success has method `fallback`; `FallbackFlight` and `FallbackFromRegex` give when each happens |
| ParserService.FallbackParsing | app/services/parser_service.py:214-324 | extract, merge when needed, fill and build give the fallback outcome |
| ParserService.SecondaryOnlyWhenNeeded | app/services/parser_service.py:240 | with a truthy type and flight, the outcome does not depend on the secondary model |
| ParserService.FallbackKeepsPresent | app/services/parser_service.py:276-312 | a required field already merged is kept in the record |
| ParserService.FallbackPlaceholders | app/services/parser_service.py:276-293 | an absent field gets its placeholder, and no flight identifier means a record is always produced |
| ParserService.FallbackKeepsRegex | app/services/parser_service.py:240-312 | well-formed regex type and flight go through unchanged |
| ParserService.FallbackFromRegex | app/services/parser_service.py:237-312 | when the regexes find a type and a flight, the fallback succeeds with them |
| ParserService.PrimaryOutcome | app/services/parser_service.py:107-139 | the record-building error (KeyError or TypeError) iff a record field is missing; otherwise the reply with method `llm-few-shot` or `llm` |
| ParserService.ParseTtyMessage | app/services/parser_service.py:39-155 | an invalid message raises the format ValueError before any call; a failed primary call propagates; a decode error never escapes; the method is llm, llm-few-shot or fallback |
| ParserService.AntlrInert | app/services/parser_service.py:126-139 | the outcome depends on neither the threshold nor the ANTLR switch |
| ParserService.PrimaryStamped | app/services/parser_service.py:88-155 | a non-fallback result carries raw_message, confidence 1.0 or 0.7, every record field, and method `llm-few-shot` or `llm` as requested |
| ParserService.DecodeErrorRouted | app/services/parser_service.py:88-155 | a decode error yields exactly the fallback's outcome; any other reply failure is re-raised; a processed reply yields exactly the record step's outcome, which returns `parsed_result` itself |
| ParserService.EmptyObjectReraised | app/services/parser_service.py:107-147 | a `{}` reply ends in the KeyError, not in the fallback |
| ParserService.BatchOutcome | app/services/parser_service.py:371-383 | never longer than the input |
| ParserService.BatchParse | app/services/parser_service.py:359-383 | the loop skips failures and appends successes in order |
| ParserService.BatchKeepsOrder | app/services/parser_service.py:371-383 | entry j is the parse of the j-th kept message; kept indices strictly increase; an index is kept iff its parse succeeds |
| MessageService.ReplaceCr | app/services/message_service.py:44 | same length; each `\r` becomes `\n`, every other character is kept |
| MessageService.ReplaceCrlf | app/services/message_service.py:44 | `replace('\r\n', '\n')` never lengthens the text and leaves text without `\r` alone |
| MessageService.LineEndings | app/services/message_service.py:44 | the one-pass normalisation the two replacements are proved equal to: no `\r` is left and the text never lengthens |
| MessageService.ReplacementsNormalise | app/services/message_service.py:44 | the two replacements turn each CRLF and each lone CR into one LF |
| MessageService.ReplaceWithoutCr | app/services/message_service.py:44 | text without `\r` is left alone |
| MessageService.Preprocess | app/services/message_service.py:32-49 | no `\r` and no leading or trailing whitespace in the result |
| MessageService.PreprocessMeaning | app/services/message_service.py:44-47 | the result is the line-ending normalisation, stripped |
| MessageService.PreprocessIdempotent | app/services/message_service.py:44-47 | preprocessing twice equals preprocessing once |
| MessageService.ProcessMessage | app/services/message_service.py:52-78 | a preprocessed message failing the format check raises `Invalid TTY message format: <id>`; otherwise the preprocessed text is parsed under the given or fresh id |
| MessageService.Prepared | app/services/message_service.py:96-106 | each message preprocessed, and a missing or empty id replaced by a fresh one, in order |
| MessageService.PrepareBatch | app/services/message_service.py:96-106 | the preprocessing loop builds that list |
| MessageService.Chunks | app/services/message_service.py:110-111 | every chunk is non-empty and at most `batch_size` long |
| MessageService.ChunksConcat | app/services/message_service.py:110-111 | the concatenated chunks equal the list |
| MessageService.ChunkSlices | app/services/message_service.py:110-111 | chunk j is the slice `[j*size : j*size+size]` the loop takes |
| MessageService.ChunkedParse | app/services/message_service.py:109-117 | parsing chunk by chunk and concatenating equals parsing the whole list |
| MessageService.BatchOutcomeAppend | app/services/parser_service.py:371-383 | the batch parse of a concatenation is the concatenation of the batch parses |
| MessageService.ParseInChunks | app/services/message_service.py:109-117 | the chunk loop returns the batch parse of the whole prepared list |
| MessageService.ProcessBatch | app/services/message_service.py:81-117 | a zero batch size raises, a negative one gives no results, a positive one gives the batch parse of the prepared list |
| MessageService.Bucket | app/services/message_service.py:139-144 | one of MVT, MVA, DIV, UNKNOWN; UNKNOWN iff no type is detected |
| MessageService.InBucket | app/services/message_service.py:139-144 | one bucket's messages in input order, never more than the input; `InBucketMembers` gives exactly which |
| MessageService.Categorize | app/services/message_service.py:120-146 | exactly the four keys, each holding its messages in input order |
| MessageService.BucketsPartition | app/services/message_service.py:139-144 | the four buckets together hold every message exactly once |
| MessageService.BucketSizes | app/services/message_service.py:132-146 | bucket sizes sum to the number of messages |
| MessageService.InBucketMembers | app/services/message_service.py:139-144 | a bucket holds exactly the messages of that type |
| MessageService.Tally | app/services/message_service.py:174-183 | the `d.get(k, 0) + 1` dictionary: every key present has count at least one; `TallyCounts` gives each count |
| MessageService.TallyCounts | app/services/message_service.py:174-183 | a key is counted iff it occurs, with its number of occurrences |
| MessageService.TallySum | app/services/message_service.py:174-183 | the counts sum to the number of keys counted |
| MessageService.CountEach | app/services/message_service.py:174-183 | the counting loop builds that tally |
| MessageService.ExtractStats | app/services/message_service.py:149-196 | message_count is the number of results; the type and method maps are the tallies, and empty for no results |
| MessageService.StatsAddUp | app/services/message_service.py:174-191 | both tallies sum to message_count |
| Dependencies.Prune | app/api/dependencies.py:54-55 | never longer than the list |
| Dependencies.PruneExact | app/api/dependencies.py:54-55 | pruning keeps exactly the entries with `now - ts < window` |
| Dependencies.PruneAppend | app/api/dependencies.py:54-55 | pruning keeps the list's order: the kept entries of a concatenation are those of each part, in turn |
| Dependencies.PruneIdempotent | app/api/dependencies.py:54-55 | pruning twice at one instant equals pruning once |
| Dependencies.Total | app/api/dependencies.py:58 | `sum(count ...)`: never negative when no count is |
| Dependencies.Admits | app/api/dependencies.py:49-62 | an unseen client is always admitted; `Admission` and `Denial` give when a known one is |
| Dependencies.Recorded | app/api/dependencies.py:49-70 | the stored list is empty only after a denial |
| Dependencies.FirstCall | app/api/dependencies.py:49-51 | an unseen client is allowed and stores `[(now, 1)]` |
| Dependencies.Denial | app/api/dependencies.py:58-62 | a known client is denied iff its pruned total reaches the limit; a denial stores only the pruned list |
| Dependencies.Admission | app/api/dependencies.py:58-70 | an allowed call bumps the last count and keeps its timestamp; `(now, 1)` only when the pruned list is empty; the total grows by one and stays within the limit |
| Dependencies.AtMostOneEntry | app/api/dependencies.py:49-70 | a client's list never holds more than one entry |
| Dependencies.RateLimiter.constructor | app/api/dependencies.py:21-34 | the limit and window given, and an empty table |
| Dependencies.RateLimiter.IsAllowed | app/api/dependencies.py:36-72 | the answer and the client's new list are as above; other clients are untouched; at most one entry per client is preserved |

## Left out

- Regular-expression classes are ASCII only: Python's `\s`, `\w` and `\d` also match non-ASCII whitespace, letters and digits, and `str.strip` strips Unicode whitespace.
- Model calls (OpenAI, the local and remote models) are oracles. `json.loads`, `raw_decode` and `json.dumps` are abstract decoders and encoders. Their failures are `None`.
- Prompt builders, few-shot example loading and the `use_detailed_prompt` flag build text for the model and make no decisions.
- Logging, `print` and processing times are not modelled. Neither are the floating-point averages of `extract_stats_from_batch` (`app/services/message_service.py:170-171`, 186-188).
- Confidence values are exact reals. The threshold comparison of `app/services/parser_service.py:126-139` is modelled in `ParserService.PrimaryOutcome`, and `ParserService.AntlrInert` proves it never changes the result.
- Pydantic record construction (`FlightIdentifier`, `ParsedTTYMessage`) is reduced to the dictionary lookups it performs; the record is modelled as the dictionary it would be built from. The keyword names at `app/services/parser_service.py:107-123` and 296-312 do not match the schema: `FlightIdentifier` requires `airline_iata` and `registration` (`app/schemas/message.py:22-27`), and `ParsedTTYMessage` requires fields that are never passed (lines 41-55). As written, both constructions raise a validation error for every input, so `parse_tty_message` never returns: the primary path re-raises, and the fallback always raises "Failed to parse TTY message after multiple attempts". The success outcomes of the model (`ParserService.PrimaryStamped`, `ParserService.FallbackFromRegex`, `ParserService.FallbackFlight`) describe the dictionary-level logic only.
- ParserService.ParseTtyMessage: the commented-out `validate_parsed_fields` call (`app/services/parser_service.py:93-104`) is not wired in, as in the source.
- ParserService.Overlay: dictionary insertion order is not modelled, because maps are unordered.
- ParserService.BatchParse: it is stated over any per-message parser. `ParserService.BatchParser` supplies `parse_tty_message` with its defaults.
- `response.choices[0]` on an empty choice list and a `None` content are not modelled: the completion oracle returns the text and finish reason directly.
- `process_message` and `process_batch` are `async` in the source. Nothing is awaited between steps, so they are modelled as plain calls.
- `generate_message_id` (uuid4) is a given fresh id for each position.
- The HTTP layer is not modelled: routes, `verify_rate_limit`, request timing and API keys.
- `time.time()` is the integer `now` of `RateLimiter.IsAllowed`, so sub-second timestamps are not modelled.
- MessageService.ExtractStats: does not follow the code. `result[0].message_type` at `app/services/message_service.py:176` raises AttributeError on the dictionary a primary parse returns (`app/services/parser_service.py:155`), and `ParsedTTYMessage` has no `message_type` field either (`app/schemas/message.py:41-55`). The source therefore raises on every non-empty batch; an unhashable type value would also raise TypeError in the tally. The model instead tallies `message_type` read from the record dictionary with `dict.get`.
- `RateLimiter.__init__` defaults (limit 10, window 60) are passed explicitly.
