/**
 * The regex field scraper and validator for TTY movement messages
 * (app/utils/message_validator.py): format check, message-type detection,
 * basic field extraction and the required-field check.
 */
module MessageValidator {
  import opened Wrappers
  import opened Text
  import opened JsonModel
  import opened Patterns

  // ------------------------------------------------------------ validate_tty_message

  /** `validate_tty_message`: long enough, with a `QU` header, a type code and a flight. */
  function ValidateTtyMessage(message: string): (ok: bool)
    ensures |message| < 10 ==> !ok
    ensures ok ==> Leftmost(message, HeaderAt, 0).Some? && Leftmost(message, TypeAt, 0).Some?
                   && Leftmost(message, FlightAt, 0).Some?
  {
    if |message| < 10 then false
    else
      && Leftmost(message, HeaderAt, 0).Some?
      && Leftmost(message, TypeAt, 0).Some?
      && Leftmost(message, FlightAt, 0).Some?
  }

  /** The three textual features the format check looks for, read directly off the patterns. */
  ghost predicate LooksLikeTty(message: string) {
    && |message| >= 10
    && (exists i, j :: HeaderFits(message, i, j))
    && (exists i: nat, t: MsgType :: HasAt(message, i, Code(t)))
    && (exists i, a, b | 2 <= a <= 3 && 1 <= b <= 4 :: FlightFits(message, i, a, b))
  }

  /**
   * The format check holds exactly when the message has at least ten
   * characters and contains `QU` + whitespace + a word character, one of
   * MVT/MVA/DIV, and two or three capitals followed by a digit.
   */
  lemma {:induction false} ValidateMeaning(message: string)
    ensures ValidateTtyMessage(message) <==> LooksLikeTty(message)
  {
    if LooksLikeTty(message) { LooksLikeValidates(message); }
    if ValidateTtyMessage(message) { ValidatesLooksLike(message); }
  }

  lemma {:induction false} LooksLikeValidates(message: string)
    requires LooksLikeTty(message)
    ensures ValidateTtyMessage(message)
  {
    var i, j :| HeaderFits(message, i, j);
    HeaderComplete(message, i, j);
    var i2: nat, t :| HasAt(message, i2, Code(t));
    assert i2 < |message|;
    assert TypeAt(message, i2).Some?;
    var i3, a, b :| 2 <= a <= 3 && 1 <= b <= 4 && FlightFits(message, i3, a, b);
    FlightComplete(message, i3, a, b);
  }

  lemma {:induction false} ValidatesLooksLike(message: string)
    requires ValidateTtyMessage(message)
    ensures LooksLikeTty(message)
  {
    var (i, _) := Leftmost(message, HeaderAt, 0).value;
    assert HeaderFits(message, i, i + 2 + Run(message, i + 2, IsSpace));
    var (i2, t) := Leftmost(message, TypeAt, 0).value;
    assert HasAt(message, i2, Code(t));
    var (i3, dn) := Leftmost(message, FlightAt, 0).value;
    assert FlightFits(message, i3, |dn.0|, |dn.1|);
  }

  // ------------------------------------------------------------ detect_message_type

  /**
   * `detect_message_type`: the leftmost literal code, else inferred from the
   * movement codes in the fixed priority AA (MVA), AD (MVT), EA (DIV).
   */
  function DetectMessageType(message: string): (r: Option<MsgType>)
    ensures Leftmost(message, TypeAt, 0).Some? ==> r == Some(Leftmost(message, TypeAt, 0).value.1)
  {
    match Leftmost(message, TypeAt, 0)
    case Some((_, t)) => Some(t)
    case None =>
      if Leftmost(message, ArrivalAt, 0).Some? then Some(MVA)
      else if Leftmost(message, DepartureAt, 0).Some? then Some(MVT)
      else if Leftmost(message, DiversionAt, 0).Some? then Some(DIV)
      else None
  }

  /** Some literal code appears in the message. */
  ghost predicate HasLiteralCode(message: string) {
    exists i: nat, t: MsgType :: HasAt(message, i, Code(t))
  }

  /**
   * Any literal MVT/MVA/DIV wins, even inside a longer word, and the
   * leftmost one is reported; without one, the inference order is AA+4
   * digits, then AD+4 digits, then EA+4 digits+whitespace+3 capitals.
   */
  lemma {:induction false} DetectPriority(message: string)
    ensures HasLiteralCode(message) ==>
      exists i: nat ::
        && DetectMessageType(message).Some?
        && HasAt(message, i, Code(DetectMessageType(message).value))
        && forall k: nat, t: MsgType | k < i :: !HasAt(message, k, Code(t))
    ensures !HasLiteralCode(message) ==>
      DetectMessageType(message) ==
        if exists i :: TimeFits(message, i, "AA") then Some(MVA)
        else if exists i :: TimeFits(message, i, "AD") then Some(MVT)
        else if exists i, m :: DivFits(message, i, m) then Some(DIV)
        else None
  {
    if HasLiteralCode(message) { DetectLiteral(message); } else { DetectInferred(message); }
  }

  lemma {:induction false} DetectLiteral(message: string)
    requires HasLiteralCode(message)
    ensures exists i: nat ::
        && DetectMessageType(message).Some?
        && HasAt(message, i, Code(DetectMessageType(message).value))
        && forall k: nat, t: MsgType | k < i :: !HasAt(message, k, Code(t))
  {
    LiteralFound(message);
    var (k, t0) := Leftmost(message, TypeAt, 0).value;
    assert DetectMessageType(message) == Some(t0);
    assert HasAt(message, k, Code(t0));
    forall k': nat, t': MsgType | k' < k ensures !HasAt(message, k', Code(t')) {
      assert TypeAt(message, k').None?;
    }
    assert DetectMessageType(message).Some?
        && HasAt(message, k, Code(DetectMessageType(message).value))
        && forall k': nat, t: MsgType | k' < k :: !HasAt(message, k', Code(t));
  }

  /** The leftmost search for a literal code succeeds exactly when one occurs. */
  lemma {:induction false} LiteralFound(message: string)
    ensures Leftmost(message, TypeAt, 0).Some? <==> HasLiteralCode(message)
  {
    if HasLiteralCode(message) {
      var i: nat, t :| HasAt(message, i, Code(t));
      assert i < |message| && TypeAt(message, i).Some?;
    }
    var r := Leftmost(message, TypeAt, 0);
    if r.Some? { assert HasAt(message, r.value.0, Code(r.value.1)); }
  }

  lemma {:induction false} DetectInferred(message: string)
    requires !HasLiteralCode(message)
    ensures DetectMessageType(message) ==
        if exists i :: TimeFits(message, i, "AA") then Some(MVA)
        else if exists i :: TimeFits(message, i, "AD") then Some(MVT)
        else if exists i, m :: DivFits(message, i, m) then Some(DIV)
        else None
  {
    LiteralFound(message);
    ArrivalFound(message);
    DepartureFound(message);
    DiversionFound(message);
  }

  /** Some position fits the arrival pattern exactly when the leftmost search finds one. */
  lemma {:induction false} ArrivalFound(message: string)
    ensures Leftmost(message, ArrivalAt, 0).Some? <==> exists i :: TimeFits(message, i, "AA")
  {
    if i: nat :| TimeFits(message, i, "AA") { assert i < |message| && ArrivalAt(message, i).Some?; }
    var r := Leftmost(message, ArrivalAt, 0);
    if r.Some? { assert ArrivalAt(message, r.value.0).Some?; }
  }

  lemma {:induction false} DepartureFound(message: string)
    ensures Leftmost(message, DepartureAt, 0).Some? <==> exists i :: TimeFits(message, i, "AD")
  {
    if i: nat :| TimeFits(message, i, "AD") { assert i < |message| && DepartureAt(message, i).Some?; }
    var r := Leftmost(message, DepartureAt, 0);
    if r.Some? { assert DepartureAt(message, r.value.0).Some?; }
  }

  lemma {:induction false} DiversionFound(message: string)
    ensures Leftmost(message, DiversionAt, 0).Some? <==> exists i, m :: DivFits(message, i, m)
  {
    if i, m :| DivFits(message, i, m) { DiversionComplete(message, i, m); }
    var r := Leftmost(message, DiversionAt, 0);
    if r.Some? { assert DivFits(message, r.value.0, Run(message, r.value.0 + 6, IsSpace)); }
  }

  // ------------------------------------------------------------ extract_basic_fields

  /**
   * The scheduled day: the day of the leftmost `LETTERS DIGITS/DD` match,
   * kept only when its flight part equals the leftmost flight match.
   */
  function ScheduledDate(message: string, designator: string, number: string): (r: Json)
    ensures r != Null ==>
      && Leftmost(message, DateAt, 0).Some?
      && Leftmost(message, DateAt, 0).value.1.0 == designator + number
      && r == Str(Leftmost(message, DateAt, 0).value.1.1)
    ensures Leftmost(message, DateAt, 0).Some? && Leftmost(message, DateAt, 0).value.1.0 == designator + number ==>
      r == Str(Leftmost(message, DateAt, 0).value.1.1)
  {
    match Leftmost(message, DateAt, 0)
    case Some((_, (flight, day))) => if flight == designator + number then Str(day) else Null
    case None => Null
  }

  /** Registration: the leftmost `.REG` token, else the leftmost `AN REG` token. */
  function Registration(message: string): (r: Option<string>)
    ensures Leftmost(message, DottedRegAt, 0).Some? ==> r == Some(Leftmost(message, DottedRegAt, 0).value.1)
    ensures Leftmost(message, DottedRegAt, 0).None? ==>
      r == if Leftmost(message, AnRegAt, 0).Some? then Some(Leftmost(message, AnRegAt, 0).value.1) else None
  {
    match Leftmost(message, DottedRegAt, 0)
    case Some((_, reg)) => Some(reg)
    case None =>
      match Leftmost(message, AnRegAt, 0)
      case Some((_, reg)) => Some(reg)
      case None => None
  }

  /** `dddd/dddd` when the second time is present, else `dddd`. */
  function TimeText(t: (string, Option<string>)): string {
    if t.1.Some? then t.0 + "/" + t.1.value else t.0
  }

  /** The diversion payload: airport and reason code, each only when found. */
  function DiversionData(message: string): (r: map<string, Json>)
    ensures "diversion_airport" in r <==> Leftmost(message, DiversionAt, 0).Some?
    ensures "diversion_reason_code" in r <==> Leftmost(message, ReasonAt, 0).Some?
    ensures "diversion_airport" in r ==> r["diversion_airport"] == Str(Leftmost(message, DiversionAt, 0).value.1)
    ensures "diversion_reason_code" in r ==> r["diversion_reason_code"] == Str(Leftmost(message, ReasonAt, 0).value.1)
    ensures r.Keys <= {"diversion_airport", "diversion_reason_code"}
  {
    var airport: map<string, Json> :=
      match Leftmost(message, DiversionAt, 0)
      case Some((_, code)) => map["diversion_airport" := Str(code)]
      case None => map[];
    match Leftmost(message, ReasonAt, 0)
    case Some((_, code)) => airport["diversion_reason_code" := Str(code)]
    case None => airport
  }

  /** `message_specific_data` for the detected type; None when the key is left out. */
  function Payload(message: string, t: Option<MsgType>): (r: Option<Json>)
    ensures r.None? <==>
      (t == Some(MVA) && Leftmost(message, ArrivalAt, 0).None?)
      || (t == Some(MVT) && Leftmost(message, DepartureAt, 0).None?)
    ensures r.Some? ==> r.value.Obj?
    ensures t == Some(MVA) && r.Some? ==>
      r.value == Obj(map["arrival_time" := Str(TimeText(Leftmost(message, ArrivalAt, 0).value.1))])
    ensures t == Some(MVT) && r.Some? ==>
      r.value == Obj(map["departure_time" := Str(TimeText(Leftmost(message, DepartureAt, 0).value.1))])
    ensures t == Some(DIV) ==> r == Some(Obj(DiversionData(message)))
    ensures t == None ==> r == Some(Obj(map[]))
  {
    match t
    case Some(MVA) =>
      (match Leftmost(message, ArrivalAt, 0)
       case Some((_, time)) => Some(Obj(map["arrival_time" := Str(TimeText(time))]))
       case None => None)
    case Some(MVT) =>
      (match Leftmost(message, DepartureAt, 0)
       case Some((_, time)) => Some(Obj(map["departure_time" := Str(TimeText(time))]))
       case None => None)
    case Some(DIV) => Some(Obj(DiversionData(message)))
    case None => Some(Obj(map[]))
  }

  /** `extract_basic_fields`: the regex fallback's dictionary. */
  function ExtractBasicFields(message: string): (r: map<string, Json>)
    ensures "raw_message" in r && r["raw_message"] == Str(message)
    ensures "message_type" in r <==> DetectMessageType(message).Some?
    ensures "message_type" in r ==> r["message_type"] == Str(Code(DetectMessageType(message).value))
    ensures "flight_identifier" in r <==> Leftmost(message, FlightAt, 0).Some?
    ensures "flight_identifier" in r ==>
      var (d, n) := Leftmost(message, FlightAt, 0).value.1;
      r["flight_identifier"] == Obj(map[
        "designator" := Str(d), "flight_number" := Str(n),
        "scheduled_date" := ScheduledDate(message, d, n)])
    ensures "aircraft_registration" in r <==> Registration(message).Some?
    ensures "aircraft_registration" in r ==> r["aircraft_registration"] == Str(Registration(message).value)
    ensures "airport_of_movement" in r <==> Leftmost(message, AirportAt, 0).Some?
    ensures "airport_of_movement" in r ==> r["airport_of_movement"] == Str(Leftmost(message, AirportAt, 0).value.1)
    ensures "message_specific_data" in r <==> Payload(message, DetectMessageType(message)).Some?
    ensures "message_specific_data" in r ==>
      r["message_specific_data"] == Payload(message, DetectMessageType(message)).value
    ensures r.Keys <= {"message_type", "flight_identifier", "aircraft_registration",
                       "airport_of_movement", "message_specific_data", "raw_message"}
  {
    var t := DetectMessageType(message);
    var withType: map<string, Json> := if t.Some? then map["message_type" := Str(Code(t.value))] else map[];
    var withFlight :=
      match Leftmost(message, FlightAt, 0)
      case Some((_, (d, n))) =>
        withType["flight_identifier" := Obj(map[
          "designator" := Str(d), "flight_number" := Str(n),
          "scheduled_date" := ScheduledDate(message, d, n)])]
      case None => withType;
    var withReg :=
      match Registration(message)
      case Some(reg) => withFlight["aircraft_registration" := Str(reg)]
      case None => withFlight;
    var withAirport :=
      match Leftmost(message, AirportAt, 0)
      case Some((_, code)) => withReg["airport_of_movement" := Str(code)]
      case None => withReg;
    var withData :=
      match Payload(message, t)
      case Some(data) => withAirport["message_specific_data" := data]
      case None => withAirport;
    withData["raw_message" := Str(message)]
  }

  // ------------------------------------------------------------ validate_parsed_fields

  /** Why a parsed dictionary is rejected, one case per error message of the source. */
  datatype Reason =
    | MissingField(name: string)
    | FlightIdNotObject
    | FlightIdIncomplete
    | BadMessageType(value: Json)
    | NoArrivalInfo
    | NoDepartureInfo
    | NoDiversionAirport

  /** `(True, None)` or `(False, message)`. */
  datatype Verdict = Valid | Invalid(reason: Reason)

  const RequiredFields: seq<string> :=
    ["message_type", "flight_identifier", "aircraft_registration", "airport_of_movement", "message_specific_data"]

  /** Every required field is present. */
  predicate HasRequired(d: map<string, Json>) {
    forall k | 0 <= k < |RequiredFields| :: RequiredFields[k] in d
  }

  /** The flight identifier is an object holding a designator and a flight number. */
  predicate FlightIdComplete(d: map<string, Json>) {
    && "flight_identifier" in d && d["flight_identifier"].Obj?
    && "designator" in d["flight_identifier"].fields && "flight_number" in d["flight_identifier"].fields
  }

  /** The early-exit loop over the required fields: the first one missing. */
  function FirstMissing(fields: seq<string>, d: map<string, Json>): (r: Option<string>)
    ensures r.None? <==> forall k | 0 <= k < |fields| :: fields[k] in d
    ensures r.Some? ==>
      && r.value !in d
      && exists k | 0 <= k < |fields| :: fields[k] == r.value && forall j | 0 <= j < k :: fields[j] in d
  {
    if fields == [] then None
    else if fields[0] !in d then Some(fields[0])
    else
      var r := FirstMissing(fields[1..], d);
      assert r.Some? ==> exists k | 0 <= k < |fields[1..]| :: fields[1..][k] == r.value && forall j | 0 <= j < k :: fields[1..][j] in d;
      assert r.Some? ==> exists k | 0 <= k < |fields| :: fields[k] == r.value && forall j | 0 <= j < k :: fields[j] in d by {
        if r.Some? {
          var k :| 0 <= k < |fields[1..]| && fields[1..][k] == r.value && forall j | 0 <= j < k :: fields[1..][j] in d;
          assert fields[k + 1] == r.value && forall j | 0 <= j < k + 1 :: fields[j] in d;
        }
      }
      r
  }

  /** Python's `key in container`: None stands for the TypeError on a scalar. */
  function Membership(key: string, container: Json): (r: Option<bool>)
    ensures r.None? <==> !(container.Obj? || container.Arr? || container.Str?)
    ensures container.Obj? ==> r == Some(key in container.fields)
  {
    match container
    case Obj(m) => Some(key in m)
    case Arr(xs) => Some(Str(key) in xs)
    case Str(t) => Some(Contains(t, key))
    case _ => None
  }

  /** `any(k in data for k in keys)`: stops at the first hit, so a TypeError comes from the first test. */
  function AnyMember(keys: seq<string>, data: Json): (r: Option<bool>)
    ensures keys != [] ==> (r.None? <==> Membership(keys[0], data).None?)
    ensures r == Some(true) <==> exists k | 0 <= k < |keys| :: Membership(keys[k], data) == Some(true)
  {
    if keys == [] then Some(false)
    else
      match Membership(keys[0], data)
      case None => None
      case Some(true) => Some(true)
      case Some(false) =>
        var rest := AnyMember(keys[1..], data);
        assert rest == Some(true) <==> exists k | 1 <= k < |keys| :: Membership(keys[k], data) == Some(true) by {
          assert forall k | 1 <= k < |keys| :: keys[k] == keys[1..][k - 1];
          if rest == Some(true) {
            var k :| 0 <= k < |keys[1..]| && Membership(keys[1..][k], data) == Some(true);
            assert Membership(keys[k + 1], data) == Some(true);
          }
        }
        rest
  }

  /** The payload fields each message type must carry. */
  function PayloadKeys(t: Json): seq<string> {
    if t == Str("MVA") then ["arrival_time", "estimated_arrival_time"]
    else if t == Str("MVT") then ["departure_time", "estimated_departure_time"]
    else ["diversion_airport"]
  }

  /** The per-type payload check of `validate_parsed_fields`. */
  function PayloadVerdict(t: Json, data: Json): (r: Result<Verdict, Failure>)
    requires t in [Str("MVT"), Str("MVA"), Str("DIV")]
    ensures r == Ok(Valid) <==>
      exists k | 0 <= k < |PayloadKeys(t)| :: Membership(PayloadKeys(t)[k], data) == Some(true)
    ensures r.Err? <==> Membership(PayloadKeys(t)[0], data).None?
    ensures r.Err? ==> r.error == Malformed
    ensures r.Ok? && r.value.Invalid? ==>
      r.value.reason == if t == Str("MVA") then NoArrivalInfo else if t == Str("MVT") then NoDepartureInfo else NoDiversionAirport
  {
    var keys := PayloadKeys(t);
    var missing := if t == Str("MVA") then NoArrivalInfo else if t == Str("MVT") then NoDepartureInfo else NoDiversionAirport;
    match AnyMember(keys, data)
    case None => Err(Malformed)
    case Some(true) => Ok(Valid)
    case Some(false) => Ok(Invalid(missing))
  }

  /** `validate_parsed_fields`: the first failed check, in the source's order. */
  function ValidateParsedFields(d: map<string, Json>): (r: Result<Verdict, Failure>)
    ensures r.Ok? && r.value.Invalid? && r.value.reason.MissingField? ==>
      && r.value.reason.name !in d
      && exists k | 0 <= k < |RequiredFields| ::
           RequiredFields[k] == r.value.reason.name && forall j | 0 <= j < k :: RequiredFields[j] in d
    ensures (r.Ok? && r.value.Invalid? && r.value.reason.MissingField?) <==> !HasRequired(d)
    ensures r == Ok(Invalid(FlightIdNotObject)) <==>
      HasRequired(d) && "flight_identifier" in d && !d["flight_identifier"].Obj?
    ensures r == Ok(Invalid(FlightIdIncomplete)) <==>
      && HasRequired(d) && "flight_identifier" in d && d["flight_identifier"].Obj?
      && ("designator" !in d["flight_identifier"].fields || "flight_number" !in d["flight_identifier"].fields)
    ensures (r.Ok? && r.value.Invalid? && r.value.reason.BadMessageType?) <==>
      HasRequired(d) && FlightIdComplete(d) && "message_type" in d && d["message_type"] !in [Str("MVT"), Str("MVA"), Str("DIV")]
    ensures r.Ok? && r.value.Invalid? && r.value.reason.BadMessageType? ==>
      "message_type" in d && r.value.reason.value == d["message_type"]
    ensures HasRequired(d) && FlightIdComplete(d) && "message_type" in d && "message_specific_data" in d
            && d["message_type"] in [Str("MVT"), Str("MVA"), Str("DIV")] ==>
      r == PayloadVerdict(d["message_type"], d["message_specific_data"])
  {
    match FirstMissing(RequiredFields, d)
    case Some(name) => Ok(Invalid(MissingField(name)))
    case None =>
      assert RequiredFields[1] in d && RequiredFields[0] in d && RequiredFields[4] in d;
      var fid := d["flight_identifier"];
      if !fid.Obj? then Ok(Invalid(FlightIdNotObject))
      else if "designator" !in fid.fields || "flight_number" !in fid.fields then Ok(Invalid(FlightIdIncomplete))
      else
        var t := d["message_type"];
        if t !in [Str("MVT"), Str("MVA"), Str("DIV")] then Ok(Invalid(BadMessageType(t)))
        else PayloadVerdict(t, d["message_specific_data"])
  }

  /**
   * A dictionary passes exactly when every required key is present, the
   * flight identifier is an object with designator and flight number, the
   * type is MVT, MVA or DIV, and the payload has one of that type's keys.
   */
  lemma {:induction false} ValidMeansComplete(d: map<string, Json>)
    ensures ValidateParsedFields(d) == Ok(Valid) <==>
      && (forall k | 0 <= k < |RequiredFields| :: RequiredFields[k] in d)
      && "flight_identifier" in d && "message_type" in d && "message_specific_data" in d
      && d["flight_identifier"].Obj?
      && "designator" in d["flight_identifier"].fields && "flight_number" in d["flight_identifier"].fields
      && d["message_type"] in [Str("MVT"), Str("MVA"), Str("DIV")]
      && exists k | 0 <= k < |PayloadKeys(d["message_type"])| ::
           Membership(PayloadKeys(d["message_type"])[k], d["message_specific_data"]) == Some(true)
  {
    var fm := FirstMissing(RequiredFields, d);
    if fm.None? {
      assert RequiredFields[0] in d && RequiredFields[1] in d && RequiredFields[4] in d;
      var fid := d["flight_identifier"];
      var t := d["message_type"];
      if fid.Obj? && "designator" in fid.fields && "flight_number" in fid.fields && t in [Str("MVT"), Str("MVA"), Str("DIV")] {
        assert ValidateParsedFields(d) == PayloadVerdict(t, d["message_specific_data"]);
        assert PayloadVerdict(t, d["message_specific_data"]) == Ok(Valid)
          <==> AnyMember(PayloadKeys(t), d["message_specific_data"]) == Some(true);
      }
    }
  }
}
