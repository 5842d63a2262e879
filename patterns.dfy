/**
 * The fixed regular expressions of the TTY field scraper, each written as a
 * scanner. `XAt(s, i)` answers what `re.match` of the pattern gives at
 * position `i` (with Python's greedy, backtracking choice worked out by
 * hand) and is proved against a declarative reading of the pattern
 * (`XFits`); `Leftmost` turns it into `re.search`.
 */
module Patterns {
  import opened Wrappers
  import opened Text

  /** The three movement-message type codes. */
  datatype MsgType = MVT | MVA | DIV

  function Code(t: MsgType): (r: string)
    ensures |r| == 3
  {
    match t
    case MVT => "MVT"
    case MVA => "MVA"
    case DIV => "DIV"
  }

  /** `re.search`: the leftmost position at or after `from` where `at` matches, with its groups. */
  function Leftmost<M>(s: string, at: (string, nat) -> Option<M>, from: nat): (r: Option<(nat, M)>)
    requires from <= |s|
    ensures r.Some? ==> from <= r.value.0 < |s| && at(s, r.value.0) == Some(r.value.1)
    ensures r.Some? ==> forall k | from <= k < r.value.0 :: at(s, k).None?
    ensures r.None? ==> forall k | from <= k < |s| :: at(s, k).None?
    decreases |s| - from
  {
    if from == |s| then None
    else
      match at(s, from)
      case Some(m) => Some((from, m))
      case None => Leftmost(s, at, from + 1)
  }

  /** A greedy capped run is exactly `n` long when `n` characters fit and the run cannot go on. */
  lemma RunLenIs(s: string, i: nat, p: char -> bool, cap: nat, n: nat)
    requires n <= cap && i + n <= |s| && All(s, i, i + n, p)
    requires n == cap || i + n == |s| || !p(s[i + n])
    ensures RunLen(s, i, p, cap) == n
  {
  }

  /** A greedy capped run is at least as long as any run of fitting characters. */
  lemma RunLenCovers(s: string, i: nat, p: char -> bool, cap: nat, n: nat)
    requires n <= cap && i + n <= |s| && All(s, i, i + n, p)
    ensures n <= RunLen(s, i, p, cap)
  {
  }

  // ---------------------------------------------------------------- QU\s+\w+

  ghost predicate HeaderFits(s: string, i: nat, j: nat) {
    HasAt(s, i, "QU") && i + 2 < j < |s| && All(s, i + 2, j, IsSpace) && IsWord(s[j])
  }

  /** `QU\s+\w+`; the match yields the word run. */
  function HeaderAt(s: string, i: nat): (r: Option<string>)
    ensures r.Some? ==> HasAt(s, i, "QU") && i < |s| && HeaderFits(s, i, i + 2 + Run(s, i + 2, IsSpace))
    ensures r.Some? ==> r.value != [] && forall k | 0 <= k < |r.value| :: IsWord(r.value[k])
  {
    if !HasAt(s, i, "QU") then None
    else
      var m := Run(s, i + 2, IsSpace);
      var j := i + 2 + m;
      if m == 0 || j == |s| || !IsWord(s[j]) then None
      else Some(s[j..j + Run(s, j, IsWord)])
  }

  /** Whenever the header pattern fits at `i`, the scanner finds it. */
  lemma HeaderComplete(s: string, i: nat, j: nat)
    requires HeaderFits(s, i, j)
    ensures HeaderAt(s, i).Some?
  {
    RunLenIs(s, i + 2, IsSpace, |s| - (i + 2), j - (i + 2));
  }

  // ------------------------------------------------------------ (MVT|MVA|DIV)

  /** `(MVT|MVA|DIV)`: the code spelled at `i`. */
  function TypeAt(s: string, i: nat): (r: Option<MsgType>)
    ensures r.Some? ==> i < |s| && HasAt(s, i, Code(r.value))
    ensures r.None? ==> forall t: MsgType :: !HasAt(s, i, Code(t))
  {
    if HasAt(s, i, "MVT") then Some(MVT)
    else if HasAt(s, i, "MVA") then Some(MVA)
    else if HasAt(s, i, "DIV") then Some(DIV)
    else None
  }

  // ----------------------------------------------------- ([A-Z]{2,3})(\d{1,4})

  ghost predicate FlightFits(s: string, i: nat, a: nat, b: nat) {
    i + a + b <= |s| && All(s, i, i + a, IsUpper) && All(s, i + a, i + a + b, IsDigit)
  }

  /**
   * `([A-Z]{2,3})(\d{1,4})`: designator and number. Greedy: three letters
   * when a digit follows them, otherwise two; then up to four digits.
   */
  function FlightAt(s: string, i: nat): (r: Option<(string, string)>)
    ensures r.Some? ==>
      && i < |s| && 2 <= |r.value.0| <= 3 && 1 <= |r.value.1| <= 4
      && FlightFits(s, i, |r.value.0|, |r.value.1|)
  {
    if i + 2 > |s| || !IsUpper(s[i]) || !IsUpper(s[i + 1]) then None
    else
      var a := if i + 3 < |s| && IsUpper(s[i + 2]) && IsDigit(s[i + 3]) then 3 else 2;
      if i + a >= |s| || !IsDigit(s[i + a]) then None
      else
        var b := RunLen(s, i + a, IsDigit, 4);
        Some((s[i..i + a], s[i + a..i + a + b]))
  }

  /** The designator and number are the text the pattern matched. */
  lemma FlightText(s: string, i: nat)
    requires FlightAt(s, i).Some?
    ensures var d, n := FlightAt(s, i).value.0, FlightAt(s, i).value.1;
      d == s[i..i + |d|] && n == s[i + |d|..i + |d| + |n|]
  {
  }

  /**
   * Every way the flight pattern can fit at `i` is found, and the scanner's
   * split is the one Python's backtracking picks first: the longest
   * designator, then the longest number.
   */
  lemma FlightComplete(s: string, i: nat, a: nat, b: nat)
    requires 2 <= a <= 3 && 1 <= b <= 4 && FlightFits(s, i, a, b)
    ensures FlightAt(s, i).Some?
    ensures a < |FlightAt(s, i).value.0| || (a == |FlightAt(s, i).value.0| && b <= |FlightAt(s, i).value.1|)
  {
    assert IsUpper(s[i]) && IsUpper(s[i + 1]) && IsDigit(s[i + a]);
    if a == 3 {
      assert IsUpper(s[i + 2]);
      RunLenCovers(s, i + 3, IsDigit, 4, b);
    } else {
      assert !IsUpper(s[i + 2]);
      RunLenCovers(s, i + 2, IsDigit, 4, b);
    }
  }

  // ----------------------------------------------- ([A-Z]{2,3}\d{1,4})/(\d{1,2})

  ghost predicate DateFits(s: string, i: nat, a: nat, b: nat, c: nat) {
    && FlightFits(s, i, a, b)
    && i + a + b + 1 + c <= |s| && s[i + a + b] == '/'
    && All(s, i + a + b + 1, i + a + b + 1 + c, IsDigit)
  }

  /**
   * `([A-Z]{2,3}\d{1,4})/(\d{1,2})`: the flight part and the day. Only the
   * greedy flight split can be followed by `/`, so no backtracking helps.
   */
  function DateAt(s: string, i: nat): (r: Option<(string, string)>)
    ensures r.Some? ==> FlightAt(s, i).Some?
    ensures r.Some? ==> r.value.0 == FlightAt(s, i).value.0 + FlightAt(s, i).value.1
    ensures r.Some? ==>
      && 1 <= |r.value.1| <= 2
      && DateFits(s, i, |FlightAt(s, i).value.0|, |FlightAt(s, i).value.1|, |r.value.1|)
  {
    if FlightAt(s, i).None? then None
    else
      var j := i + |FlightAt(s, i).value.0| + |FlightAt(s, i).value.1|;
      if j + 1 < |s| && s[j] == '/' && IsDigit(s[j + 1]) then
        Some((FlightAt(s, i).value.0 + FlightAt(s, i).value.1, s[j + 1..j + 1 + RunLen(s, j + 1, IsDigit, 2)]))
      else None
  }

  /** The day is the text after the `/`. */
  lemma DateText(s: string, i: nat)
    requires DateAt(s, i).Some?
    ensures var j := i + |FlightAt(s, i).value.0| + |FlightAt(s, i).value.1| + 1;
      var day := DateAt(s, i).value.1;
      j + |day| <= |s| && day == s[j..j + |day|]
  {
  }

  /** A flight split that a `/` follows is the scanner's split: the `/` stops both greedy runs. */
  lemma DateSplit(s: string, i: nat, a: nat, b: nat, c: nat)
    requires 2 <= a <= 3 && 1 <= b <= 4 && 1 <= c <= 2 && DateFits(s, i, a, b, c)
    ensures FlightAt(s, i).Some?
    ensures |FlightAt(s, i).value.0| == a && |FlightAt(s, i).value.1| == b
  {
    FlightComplete(s, i, a, b);
    assert IsDigit(s[i + a]);
    assert |FlightAt(s, i).value.0| == 3 ==> IsUpper(s[i + 2]);
    RunLenIs(s, i + a, IsDigit, 4, b);
  }

  /** Any split that a `/` follows is the greedy flight split, so the date scanner finds it. */
  lemma DateComplete(s: string, i: nat, a: nat, b: nat, c: nat)
    requires 2 <= a <= 3 && 1 <= b <= 4 && 1 <= c <= 2 && DateFits(s, i, a, b, c)
    ensures FlightAt(s, i) == Some((s[i..i + a], s[i + a..i + a + b]))
    ensures DateAt(s, i).Some? && DateAt(s, i).value.0 == s[i..i + a + b]
  {
    DateSplit(s, i, a, b, c);
    FlightText(s, i);
    assert s[i..i + a + b] == s[i..i + a] + s[i + a..i + a + b];
  }

  // ------------------------------------------------------- \.([A-Z0-9-]{4,8})

  /** `[A-Z0-9-]`. */
  predicate IsRegChar(c: char) { IsUpper(c) || IsDigit(c) || c == '-' }

  ghost predicate RegFits(s: string, j: nat, b: nat) {
    j + b <= |s| && All(s, j, j + b, IsRegChar)
  }

  /** `\.([A-Z0-9-]{4,8})`: the registration after a dot, greedy up to eight characters. */
  function DottedRegAt(s: string, i: nat): (r: Option<string>)
    ensures r.Some? ==>
      && i < |s| && s[i] == '.' && 4 <= |r.value| <= 8 && RegFits(s, i + 1, |r.value|)
  {
    if i >= |s| || s[i] != '.' then None
    else
      var b := RunLen(s, i + 1, IsRegChar, 8);
      if b < 4 then None else Some(s[i + 1..i + 1 + b])
  }

  /** The registration is the text after the dot. */
  lemma DottedRegText(s: string, i: nat)
    requires DottedRegAt(s, i).Some?
    ensures var r := DottedRegAt(s, i).value; r == s[i + 1..i + 1 + |r|]
  {
  }

  /** A dot followed by four to eight registration characters is always found, at full greedy length. */
  lemma DottedRegComplete(s: string, i: nat, b: nat)
    requires i < |s| && s[i] == '.' && 4 <= b <= 8 && RegFits(s, i + 1, b)
    ensures DottedRegAt(s, i).Some? && b <= |DottedRegAt(s, i).value|
  {
    RunLenCovers(s, i + 1, IsRegChar, 8, b);
  }

  // ---------------------------------------------------- AN\s+([A-Z0-9-]{4,8})

  ghost predicate AnFits(s: string, i: nat, m: nat, b: nat) {
    && HasAt(s, i, "AN") && 1 <= m && i + 2 + m <= |s| && All(s, i + 2, i + 2 + m, IsSpace)
    && RegFits(s, i + 2 + m, b)
  }

  /** `AN\s+([A-Z0-9-]{4,8})`: the registration after `AN` and whitespace. */
  function AnRegAt(s: string, i: nat): (r: Option<string>)
    ensures r.Some? ==> i + 2 <= |s|
    ensures r.Some? ==>
      var m := Run(s, i + 2, IsSpace);
      && 4 <= |r.value| <= 8 && AnFits(s, i, m, |r.value|)
  {
    if !HasAt(s, i, "AN") then None
    else
      var m := Run(s, i + 2, IsSpace);
      if m == 0 then None
      else
        var b := RunLen(s, i + 2 + m, IsRegChar, 8);
        if b < 4 then None else Some(s[i + 2 + m..i + 2 + m + b])
  }

  /** The registration is the text after `AN` and its whitespace. */
  lemma AnRegText(s: string, i: nat)
    requires AnRegAt(s, i).Some?
    ensures var m := Run(s, i + 2, IsSpace); var r := AnRegAt(s, i).value;
      r == s[i + 2 + m..i + 2 + m + |r|]
  {
  }

  /**
   * A registration character is never whitespace, so `\s+` must take the
   * whole whitespace run; every fit is then found at full greedy length.
   */
  lemma AnRegComplete(s: string, i: nat, m: nat, b: nat)
    requires 4 <= b <= 8 && AnFits(s, i, m, b)
    ensures m == Run(s, i + 2, IsSpace)
    ensures AnRegAt(s, i).Some? && b <= |AnRegAt(s, i).value|
  {
    var j := i + 2 + m;
    assert IsRegChar(s[j]);
    assert !IsSpace(s[j]);
    RunLenIs(s, i + 2, IsSpace, |s| - (i + 2), m);
    assert Run(s, i + 2, IsSpace) == m;
    RunLenCovers(s, j, IsRegChar, 8, b);
    assert RunLen(s, j, IsRegChar, 8) >= 4;
  }

  // ----------------------------------------------------------- \.([A-Z]{3,4})\b

  /** `\b` at position `j`. */
  predicate WordBoundary(s: string, j: nat) {
    (0 < j <= |s| && IsWord(s[j - 1])) != (j < |s| && IsWord(s[j]))
  }

  ghost predicate AirportFits(s: string, i: nat, b: nat) {
    i < |s| && s[i] == '.' && i + 1 + b <= |s| && All(s, i + 1, i + 1 + b, IsUpper) && WordBoundary(s, i + 1 + b)
  }

  /** `\.([A-Z]{3,4})\b`: a three- or four-letter code after a dot that ends a word. */
  function AirportAt(s: string, i: nat): (r: Option<string>)
    ensures r.Some? ==>
      && 3 <= |r.value| <= 4 && AirportFits(s, i, |r.value|)
  {
    if i >= |s| || s[i] != '.' then None
    else
      var b := RunLen(s, i + 1, IsUpper, 4);
      var j := i + 1 + b;
      if b < 3 || (j < |s| && IsWord(s[j])) then None
      else Some(s[i + 1..i + 1 + b])
  }

  /** The airport code is the text after the dot. */
  lemma AirportText(s: string, i: nat)
    requires AirportAt(s, i).Some?
    ensures var r := AirportAt(s, i).value; r == s[i + 1..i + 1 + |r|]
  {
  }

  /** The airport pattern fits at `i` in at most one way, and the scanner finds it. */
  lemma AirportComplete(s: string, i: nat, b: nat)
    requires 3 <= b <= 4 && AirportFits(s, i, b)
    ensures AirportAt(s, i).Some? && |AirportAt(s, i).value| == b
  {
    assert IsWord(s[i + b]);
    RunLenIs(s, i + 1, IsUpper, 4, b);
  }

  // ------------------------------------------------ AA(\d{4})(?:/(\d{4}))? and AD...

  ghost predicate TimeFits(s: string, i: nat, tag: string) {
    HasAt(s, i, tag) && i + 6 <= |s| && All(s, i + 2, i + 6, IsDigit)
  }

  ghost predicate SecondTimeFits(s: string, i: nat) {
    i + 11 <= |s| && s[i + 6] == '/' && All(s, i + 7, i + 11, IsDigit)
  }

  /** `<tag>(\d{4})(?:/(\d{4}))?`: the time and, when present, the second time. */
  function TimeAt(s: string, i: nat, tag: string): (r: Option<(string, Option<string>)>)
    requires |tag| == 2
    ensures r.Some? <==> TimeFits(s, i, tag)
    ensures r.Some? ==> i < |s| && r.value.0 == s[i + 2..i + 6]
    ensures r.Some? ==> (r.value.1.Some? <==> SecondTimeFits(s, i))
    ensures r.Some? && r.value.1.Some? ==> r.value.1.value == s[i + 7..i + 11]
  {
    if !(HasAt(s, i, tag) && i + 6 <= |s| && All(s, i + 2, i + 6, IsDigit)) then None
    else if i + 11 <= |s| && s[i + 6] == '/' && All(s, i + 7, i + 11, IsDigit) then
      Some((s[i + 2..i + 6], Some(s[i + 7..i + 11])))
    else
      Some((s[i + 2..i + 6], None))
  }

  /** Arrival code `AA`. */
  function ArrivalAt(s: string, i: nat): (r: Option<(string, Option<string>)>)
    ensures r.Some? <==> TimeFits(s, i, "AA")
  {
    TimeAt(s, i, "AA")
  }

  /** Departure code `AD`. */
  function DepartureAt(s: string, i: nat): (r: Option<(string, Option<string>)>)
    ensures r.Some? <==> TimeFits(s, i, "AD")
  {
    TimeAt(s, i, "AD")
  }

  // ------------------------------------------------------ EA\d{4}\s+([A-Z]{3})

  ghost predicate DivFits(s: string, i: nat, m: nat) {
    && HasAt(s, i, "EA") && 1 <= m && i + 9 + m <= |s|
    && All(s, i + 2, i + 6, IsDigit) && All(s, i + 6, i + 6 + m, IsSpace)
    && All(s, i + 6 + m, i + 9 + m, IsUpper)
  }

  /** `EA\d{4}\s+([A-Z]{3})`: the diversion airport. */
  function DiversionAt(s: string, i: nat): (r: Option<string>)
    ensures r.Some? ==> i + 6 <= |s|
    ensures r.Some? ==>
      var m := Run(s, i + 6, IsSpace);
      DivFits(s, i, m) && r.value == s[i + 6 + m..i + 9 + m]
  {
    if !(HasAt(s, i, "EA") && i + 6 <= |s| && All(s, i + 2, i + 6, IsDigit)) then None
    else
      var m := Run(s, i + 6, IsSpace);
      var j := i + 6 + m;
      if m == 0 || j + 3 > |s| || !All(s, j, j + 3, IsUpper) then None
      else Some(s[j..j + 3])
  }

  /** An uppercase letter is never whitespace, so every fit of the diversion pattern is found. */
  lemma DiversionComplete(s: string, i: nat, m: nat)
    requires DivFits(s, i, m)
    ensures m == Run(s, i + 6, IsSpace) && DiversionAt(s, i).Some?
  {
    assert IsUpper(s[i + 6 + m]);
    RunLenIs(s, i + 6, IsSpace, |s| - (i + 6), m);
  }

  // ----------------------------------------------------------------- DR(\d{2})

  /** `DR(\d{2})`: the diversion reason code. */
  function ReasonAt(s: string, i: nat): (r: Option<string>)
    ensures r.Some? <==> HasAt(s, i, "DR") && i + 4 <= |s| && All(s, i + 2, i + 4, IsDigit)
    ensures r.Some? ==> r.value == s[i + 2..i + 4]
  {
    if HasAt(s, i, "DR") && i + 4 <= |s| && All(s, i + 2, i + 4, IsDigit) then Some(s[i + 2..i + 4]) else None
  }
}
