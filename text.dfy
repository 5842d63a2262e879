/**
 * Character classes and the small string primitives of Python's `str`
 * (find, rfind, count, strip) on `seq<char>`.
 */
module Text {

  /** Python's `\s` and `str.isspace` restricted to ASCII: space, \t \n \v \f \r and \x1c-\x1f. */
  predicate IsSpace(c: char) {
    c == ' ' || ('\t' <= c <= '\r') || ('\U{1C}' <= c <= '\U{1F}')
  }

  /** `\d` restricted to ASCII. */
  predicate IsDigit(c: char) { '0' <= c <= '9' }

  /** `[A-Z]`. */
  predicate IsUpper(c: char) { 'A' <= c <= 'Z' }

  predicate IsLower(c: char) { 'a' <= c <= 'z' }

  /** `\w` restricted to ASCII: letters, digits and the underscore. */
  predicate IsWord(c: char) { IsUpper(c) || IsLower(c) || IsDigit(c) || c == '_' }

  /** Every character of `s[lo..hi]` satisfies `p`. */
  predicate All(s: string, lo: nat, hi: nat, p: char -> bool)
    requires lo <= hi <= |s|
  {
    forall k | lo <= k < hi :: p(s[k])
  }

  /**
   * Length of the run of characters satisfying `p` that starts at `i`,
   * taking at most `cap` of them: a greedy `p{0,cap}`.
   */
  function RunLen(s: string, i: nat, p: char -> bool, cap: nat): (n: nat)
    requires i <= |s|
    ensures n <= cap && i + n <= |s|
    ensures All(s, i, i + n, p)
    ensures n < cap && i + n < |s| ==> !p(s[i + n])
    decreases cap
  {
    if cap == 0 || i == |s| || !p(s[i]) then 0 else 1 + RunLen(s, i + 1, p, cap - 1)
  }

  /** The uncapped greedy run `p*` starting at `i`. */
  function Run(s: string, i: nat, p: char -> bool): (n: nat)
    requires i <= |s|
    ensures i + n <= |s| && All(s, i, i + n, p)
    ensures i + n < |s| ==> !p(s[i + n])
  {
    RunLen(s, i, p, |s| - i)
  }

  /** `s[i..]` starts with `w`. */
  predicate HasAt(s: string, i: nat, w: string) {
    i + |w| <= |s| && s[i..i + |w|] == w
  }

  /** `w in s` for a substring `w`. */
  predicate Contains(s: string, w: string) {
    exists i: nat | i <= |s| :: HasAt(s, i, w)
  }

  /** `s.count(c)` for a single character. */
  function Count(s: string, c: char): nat {
    if s == [] then 0 else (if s[0] == c then 1 else 0) + Count(s[1..], c)
  }

  lemma {:induction false} CountAppend(a: string, b: string, c: char)
    ensures Count(a + b, c) == Count(a, c) + Count(b, c)
  {
    if a == [] {
      assert a + b == b;
    } else {
      assert (a + b)[1..] == a[1..] + b;
      CountAppend(a[1..], b, c);
    }
  }

  lemma {:induction false} CountZero(s: string, c: char)
    ensures Count(s, c) == 0 <==> c !in s
  {
    if s != [] {
      CountZero(s[1..], c);
      assert s == [s[0]] + s[1..];
    }
  }

  /** `s.find(c)`: the first index of `c`, or -1. */
  function Find(s: string, c: char): (r: int)
    ensures -1 <= r < |s|
    ensures r == -1 <==> c !in s
    ensures r >= 0 ==> s[r] == c && forall k | 0 <= k < r :: s[k] != c
  {
    FindFrom(s, c, 0)
  }

  function FindFrom(s: string, c: char, i: nat): (r: int)
    requires i <= |s|
    requires forall k | 0 <= k < i :: s[k] != c
    ensures -1 <= r < |s|
    ensures r == -1 <==> c !in s
    ensures r >= 0 ==> s[r] == c && forall k | 0 <= k < r :: s[k] != c
    decreases |s| - i
  {
    if i == |s| then -1 else if s[i] == c then i else FindFrom(s, c, i + 1)
  }

  /** `s.rfind(c)`: the last index of `c`, or -1. */
  function RFind(s: string, c: char): (r: int)
    ensures -1 <= r < |s|
    ensures r == -1 <==> c !in s
    ensures r >= 0 ==> s[r] == c && forall k | r < k < |s| :: s[k] != c
  {
    RFindBelow(s, c, |s|)
  }

  function RFindBelow(s: string, c: char, j: nat): (r: int)
    requires j <= |s|
    requires forall k | j <= k < |s| :: s[k] != c
    ensures -1 <= r < |s|
    ensures r == -1 <==> c !in s
    ensures r >= 0 ==> s[r] == c && forall k | r < k < |s| :: s[k] != c
  {
    if j == 0 then -1 else if s[j - 1] == c then j - 1 else RFindBelow(s, c, j - 1)
  }

  /** Number of leading whitespace characters. */
  function LeadingSpace(s: string): (n: nat)
    ensures n <= |s| && All(s, 0, n, IsSpace)
    ensures n < |s| ==> !IsSpace(s[n])
  {
    Run(s, 0, IsSpace)
  }

  /** Number of trailing whitespace characters. */
  function TrailingSpace(s: string): (n: nat)
    ensures n <= |s| && All(s, |s| - n, |s|, IsSpace)
    ensures n < |s| ==> !IsSpace(s[|s| - 1 - n])
  {
    if s == [] || !IsSpace(s[|s| - 1]) then 0
    else
      var n := TrailingSpace(s[..|s| - 1]);
      assert All(s, |s| - 1 - n, |s| - 1, IsSpace) by {
        forall k | |s| - 1 - n <= k < |s| - 1 ensures IsSpace(s[k]) {
          assert s[k] == s[..|s| - 1][k];
        }
      }
      n + 1
  }

  /** `s.strip()`: drop leading and trailing whitespace. */
  function Strip(s: string): (r: string)
    ensures r == [] || (!IsSpace(r[0]) && !IsSpace(r[|r| - 1]))
    ensures exists i, j | 0 <= i <= j <= |s| :: r == s[i..j] && All(s, 0, i, IsSpace) && All(s, j, |s|, IsSpace)
  {
    var i := LeadingSpace(s);
    var j := |s| - TrailingSpace(s[i..]);
    assert All(s, j, |s|, IsSpace) by {
      forall k | j <= k < |s| ensures IsSpace(s[k]) { assert s[k] == s[i..][k - i]; }
    }
    assert i < j ==> !IsSpace(s[j - 1]) by {
      if i < j { assert s[j - 1] == s[i..][|s[i..]| - 1 - TrailingSpace(s[i..])]; }
    }
    s[i..j]
  }

  /** Stripping a string that has no surrounding whitespace changes nothing. */
  lemma StripClean(s: string)
    requires s == [] || (!IsSpace(s[0]) && !IsSpace(s[|s| - 1]))
    ensures Strip(s) == s
  {
    if s != [] {
      assert LeadingSpace(s) == 0;
      assert TrailingSpace(s) == 0;
    }
  }

  /** Stripping only removes characters: one absent before is absent after. */
  lemma StripKeepsOut(s: string, c: char)
    requires c !in s
    ensures c !in Strip(s)
  {
    var i := LeadingSpace(s);
    var j := |s| - TrailingSpace(s[i..]);
    assert Strip(s) == s[i..j];
    assert forall k | 0 <= k < j - i :: s[i..j][k] == s[i + k];
  }
}
