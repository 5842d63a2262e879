/**
 * `_fix_json` (app/parser/parser.py): the five-step textual repair applied to
 * a reply that did not decode: quotes, bare keys, trailing commas,
 * brace/bracket balancing and truncation after the last closer.
 */
module JsonRepair {
  import opened Wrappers
  import opened Text
  import opened Patterns

  // ------------------------------------------------------------------ helpers

  /** A run of characters from a class that excludes `c` holds no `c`. */
  lemma CountRunZero(s: string, lo: nat, hi: nat, p: char -> bool, c: char)
    requires lo <= hi <= |s| && All(s, lo, hi, p) && !p(c)
    ensures Count(s[lo..hi], c) == 0
  {
    CountZero(s[lo..hi], c);
  }

  /** Count over a prefix never exceeds the count over the whole. */
  lemma CountPrefix(s: string, j: nat, c: char)
    requires j <= |s|
    ensures Count(s[..j], c) <= Count(s, c)
    ensures Count(s, c) == Count(s[..j], c) + Count(s[j..], c)
  {
    assert s == s[..j] + s[j..];
    CountAppend(s[..j], s[j..], c);
  }

  // ------------------------------------------------------------ step 1: quotes

  /** `json_str.replace("'", '"')`. */
  function ReplaceQuotes(s: string): (r: string)
    ensures |r| == |s|
    ensures forall i | 0 <= i < |s| :: (s[i] == '\'' ==> r[i] == '"') && (s[i] != '\'' ==> r[i] == s[i])
    ensures '\'' !in r
  {
    if s == [] then [] else [if s[0] == '\'' then '"' else s[0]] + ReplaceQuotes(s[1..])
  }

  /** Replacing quotes leaves every other character's count alone. */
  lemma {:induction false} ReplaceQuotesCounts(s: string, c: char)
    requires c != '\'' && c != '"'
    ensures Count(ReplaceQuotes(s), c) == Count(s, c)
  {
    if s != [] {
      ReplaceQuotesCounts(s[1..], c);
      assert ReplaceQuotes(s)[1..] == ReplaceQuotes(s[1..]);
    }
  }

  // ------------------------------------------------- step 2: (\s*)(\w+)\s*:

  /**
   * The bare-key pattern fits at `p`: `m` whitespace, `n >= 1` word
   * characters, `k` whitespace, then a colon.
   */
  ghost predicate KeyFits(s: string, p: nat, m: nat, n: nat, k: nat) {
    && p + m + n + k < |s| && n >= 1
    && All(s, p, p + m, IsSpace) && All(s, p + m, p + m + n, IsWord)
    && All(s, p + m + n, p + m + n + k, IsSpace) && s[p + m + n + k] == ':'
  }

  /** No bare key fits anywhere. */
  ghost predicate NoBareKey(s: string) {
    forall p: nat, m: nat, n: nat, k: nat :: !KeyFits(s, p, m, n, k)
  }

  /** Length of the leading run of `s` whose characters satisfy `p`. */
  function Lead(s: string, p: char -> bool): (n: nat)
    ensures n <= |s|
  {
    if s != [] && p(s[0]) then 1 + Lead(s[1..], p) else 0
  }

  /** The leading run is a run of `p` characters and cannot be extended. */
  lemma {:induction false} LeadSpec(s: string, p: char -> bool)
    ensures All(s, 0, Lead(s, p), p)
    ensures Lead(s, p) < |s| ==> !p(s[Lead(s, p)])
  {
    if s != [] && p(s[0]) {
      LeadSpec(s[1..], p);
      assert forall j | 1 <= j < Lead(s, p) :: s[j] == s[1..][j - 1];
    }
  }

  /** A run of `p` characters that cannot be extended is the leading run. */
  lemma {:induction false} LeadIs(s: string, p: char -> bool, n: nat)
    requires n <= |s| && All(s, 0, n, p) && (n < |s| ==> !p(s[n]))
    ensures Lead(s, p) == n
  {
    if n > 0 {
      assert forall j | 0 <= j < n - 1 :: s[1..][j] == s[j + 1];
      LeadIs(s[1..], p, n - 1);
    }
  }

  /** `LeadIs` for the suffix starting at `i`. */
  lemma LeadIsFrom(s: string, i: nat, p: char -> bool, n: nat)
    requires i + n <= |s| && All(s, i, i + n, p) && (i + n < |s| ==> !p(s[i + n]))
    ensures Lead(s[i..], p) == n
  {
    assert forall j | 0 <= j < |s| - i :: s[i..][j] == s[i + j];
    LeadIs(s[i..], p, n);
  }

  /**
   * `(\s*)(\w+)\s*:` anchored at the start of `s`. Each part is greedy, and
   * backtracking never helps: a shorter whitespace run leaves whitespace
   * where a word character is needed, a shorter word leaves a word
   * character where whitespace or a colon is needed.
   */
  function KeyAt(s: string): (r: Option<(nat, nat, nat)>)
    ensures r.Some? ==> r.value.0 + r.value.1 + r.value.2 < |s|
  {
    var m := Lead(s, IsSpace);
    var n := Lead(s[m..], IsWord);
    var k := Lead(s[m + n..], IsSpace);
    if n >= 1 && m + n + k < |s| && s[m + n + k] == ':' then Some((m, n, k)) else None
  }

  /** The leading run of a suffix, read as positions of the whole text. */
  lemma LeadFrom(s: string, i: nat, p: char -> bool)
    requires i <= |s|
    ensures i + Lead(s[i..], p) <= |s| && All(s, i, i + Lead(s[i..], p), p)
    ensures i + Lead(s[i..], p) < |s| ==> !p(s[i + Lead(s[i..], p)])
  {
    LeadSpec(s[i..], p);
    assert forall j | i <= j < |s| :: s[j] == s[i..][j - i];
  }

  /** What the scanner finds is a fit. */
  lemma KeySound(s: string)
    ensures KeyAt(s).Some? ==> KeyFits(s, 0, KeyAt(s).value.0, KeyAt(s).value.1, KeyAt(s).value.2)
  {
    if KeyAt(s).Some? {
      var m := Lead(s, IsSpace);
      var n := Lead(s[m..], IsWord);
      var k := Lead(s[m + n..], IsSpace);
      assert KeyAt(s).value.0 == m && KeyAt(s).value.1 == n && KeyAt(s).value.2 == k;
      LeadSpec(s, IsSpace);
      LeadFrom(s, m, IsWord);
      LeadFrom(s, m + n, IsSpace);
      assert All(s, 0, m, IsSpace);
      assert All(s, m, m + n, IsWord);
      assert All(s, m + n, m + n + k, IsSpace);
      assert s[m + n + k] == ':';
    }
  }

  /** Whenever the pattern fits at the start, the scanner finds exactly that fit. */
  lemma KeyComplete(s: string, m: nat, n: nat, k: nat)
    ensures KeyFits(s, 0, m, n, k) ==> KeyAt(s) == Some((m, n, k))
  {
    if KeyFits(s, 0, m, n, k) {
      assert IsWord(s[m]) && !IsSpace(s[m]);
      LeadIs(s, IsSpace, m);
      assert !IsWord(s[m + n]);
      LeadIsFrom(s, m, IsWord, n);
      assert !IsSpace(s[m + n + k]);
      LeadIsFrom(s, m + n, IsSpace, k);
    }
  }

  /** `re.sub(r'(\s*)(\w+)\s*:', r'\1"\2":', s)`: left to right, non-overlapping. */
  function QuoteKeys(s: string): (r: string)
    decreases |s|
  {
    if s == [] then []
    else if KeyAt(s).None? then [s[0]] + QuoteKeys(s[1..])
    else Quoted(s[..KeyAt(s).value.0], s[KeyAt(s).value.0..KeyAt(s).value.0 + KeyAt(s).value.1])
         + QuoteKeys(s[KeyEnd(s)..])
  }

  /** The replacement `\1"\2":`; the whitespace before the colon is dropped. */
  function Quoted(ws: string, word: string): string {
    ws + "\"" + word + "\":"
  }

  lemma QuoteKeysCopies(s: string)
    requires s != [] && KeyAt(s).None?
    ensures QuoteKeys(s) == [s[0]] + QuoteKeys(s[1..])
  {
  }

  /** Where the text after a found key resumes. */
  function KeyEnd(s: string): (e: nat)
    requires KeyAt(s).Some?
    ensures 0 < e <= |s|
  {
    KeyAt(s).value.0 + KeyAt(s).value.1 + KeyAt(s).value.2 + 1
  }

  lemma QuoteKeysRewrites(s: string)
    requires s != [] && KeyAt(s).Some?
    ensures QuoteKeys(s) == Quoted(s[..KeyAt(s).value.0], s[KeyAt(s).value.0..KeyAt(s).value.0 + KeyAt(s).value.1])
                            + QuoteKeys(s[KeyEnd(s)..])
  {
  }

  /** The found key's whitespace and word parts. */
  lemma KeyParts(s: string)
    requires KeyAt(s).Some?
    ensures var m, n := KeyAt(s).value.0, KeyAt(s).value.1;
      All(s[..m], 0, m, IsSpace) && All(s[m..m + n], 0, n, IsWord)
  {
    KeySound(s);
    var m, n := KeyAt(s).value.0, KeyAt(s).value.1;
    assert forall j | 0 <= j < m :: s[..m][j] == s[j];
    assert forall j | m <= j < m + n :: s[m..m + n][j - m] == s[j];
  }

  /** A fit depends only on the text from `p` on. */
  lemma KeyFitsShift(a: string, b: string, p: nat, m: nat, n: nat, k: nat)
    ensures KeyFits(a + b, |a| + p, m, n, k) <==> KeyFits(b, p, m, n, k)
  {
    var t := a + b;
    assert forall j | 0 <= j < |b| :: t[|a| + j] == b[j];
    if KeyFits(t, |a| + p, m, n, k) {
      assert forall j | p <= j < p + m + n + k :: IsSpace(b[j]) || IsWord(b[j]) by {
        forall j | p <= j < p + m + n + k ensures IsSpace(b[j]) || IsWord(b[j]) {
          assert t[|a| + j] == b[j];
        }
      }
    }
  }

  /** A fit at `p` depends only on the first characters, up to its colon. */
  lemma KeyFitsPrefix(a: string, b: string, m: nat, n: nat, k: nat)
    requires SamePrefix(a, b, m + n + k)
    ensures KeyFits(a, 0, m, n, k) ==> KeyFits(b, 0, m, n, k)
  {
  }

  /** `a` and `b` agree on their first `L + 1` characters. */
  ghost predicate SamePrefix(a: string, b: string, L: nat) {
    L < |a| && L < |b| && forall j | 0 <= j <= L :: a[j] == b[j]
  }

  /** Every character of `s[..L]` is whitespace or a word character, and `s[L]` is a colon. */
  ghost predicate ColonAfterKeyChars(s: string, L: nat) {
    L < |s| && s[L] == ':' && forall j | 0 <= j < L :: IsSpace(s[j]) || IsWord(s[j])
  }

  /**
   * If the rewritten text starts with key characters and a colon, that
   * start was copied unchanged: every rewrite puts a `"` before its colon.
   */
  lemma {:induction false} QuoteKeysHead(u: string, L: nat)
    ensures ColonAfterKeyChars(QuoteKeys(u), L) ==> SamePrefix(QuoteKeys(u), u, L)
    decreases |u|
  {
    if u != [] {
      if KeyAt(u).Some? {
        RewrittenHead(u, L);
      } else if L >= 1 {
        QuoteKeysHead(u[1..], L - 1);
        CopiedHead(u, L);
      }
    }
  }

  /** A rewritten key opens with whitespace and a `"`, never with key characters and a colon. */
  lemma RewrittenHead(u: string, L: nat)
    requires u != [] && KeyAt(u).Some?
    ensures !ColonAfterKeyChars(QuoteKeys(u), L)
  {
    var m, n := KeyAt(u).value.0, KeyAt(u).value.1;
    QuoteKeysRewrites(u);
    KeyParts(u);
    QuoteOpens(u[..m], u[m..m + n], QuoteKeys(u[KeyEnd(u)..]), L);
  }

  /** Whitespace then a `"` never reads as key characters then a colon. */
  lemma QuoteOpens(ws: string, word: string, tail: string, L: nat)
    requires All(ws, 0, |ws|, IsSpace)
    ensures !ColonAfterKeyChars(Quoted(ws, word) + tail, L)
  {
    var t := Quoted(ws, word) + tail;
    assert forall j | 0 <= j < |ws| :: t[j] == ws[j];
    assert t[|ws|] == '"';
  }

  /** A copied first character extends the head property of the rest by one. */
  lemma CopiedHead(u: string, L: nat)
    requires u != [] && KeyAt(u).None? && L >= 1
    requires ColonAfterKeyChars(QuoteKeys(u[1..]), L - 1) ==> SamePrefix(QuoteKeys(u[1..]), u[1..], L - 1)
    ensures ColonAfterKeyChars(QuoteKeys(u), L) ==> SamePrefix(QuoteKeys(u), u, L)
  {
    var out := QuoteKeys(u);
    var rest := QuoteKeys(u[1..]);
    QuoteKeysCopies(u);
    if ColonAfterKeyChars(out, L) {
      assert forall j | 0 <= j < L - 1 :: rest[j] == out[j + 1];
      assert ColonAfterKeyChars(rest, L - 1);
    }
  }

  /** No fit can start inside the rewritten key `ws* " word " :`, whatever follows it. */
  lemma RewrittenKeyNoFit(ws: string, word: string, rest: string, p: nat, m: nat, n: nat, k: nat)
    requires All(ws, 0, |ws|, IsSpace) && All(word, 0, |word|, IsWord)
    requires p < |ws| + |word| + 3
    ensures !KeyFits(Quoted(ws, word) + rest, p, m, n, k)
  {
    var t := Quoted(ws, word) + rest;
    var a := |ws|;
    var b := |ws| + |word|;
    assert forall j | 0 <= j < a :: t[j] == ws[j];
    assert forall j | a < j <= b :: t[j] == word[j - a - 1];
    assert t[a] == '"' && t[b + 1] == '"' && t[b + 2] == ':';
  }

  /** No bare key is left after the rewrite. */
  lemma {:induction false} QuoteKeysComplete(s: string)
    ensures NoBareKey(QuoteKeys(s))
    decreases |s|
  {
    if s != [] {
      if KeyAt(s).Some? {
        QuoteKeysComplete(s[KeyEnd(s)..]);
        RewrittenComplete(s);
      } else {
        QuoteKeysComplete(s[1..]);
        CopiedComplete(s);
      }
    }
  }

  lemma RewrittenComplete(s: string)
    requires s != [] && KeyAt(s).Some?
    requires NoBareKey(QuoteKeys(s[KeyEnd(s)..]))
    ensures NoBareKey(QuoteKeys(s))
  {
    forall p: nat, m: nat, n: nat, k: nat ensures !KeyFits(QuoteKeys(s), p, m, n, k) {
      RewrittenNoFit(s, p, m, n, k);
    }
  }

  lemma RewrittenNoFit(s: string, p: nat, m: nat, n: nat, k: nat)
    requires s != [] && KeyAt(s).Some?
    requires NoBareKey(QuoteKeys(s[KeyEnd(s)..]))
    ensures !KeyFits(QuoteKeys(s), p, m, n, k)
  {
    var m0, n0 := KeyAt(s).value.0, KeyAt(s).value.1;
    QuoteKeysRewrites(s);
    KeyParts(s);
    QuotedThenClean(s[..m0], s[m0..m0 + n0], QuoteKeys(s[KeyEnd(s)..]), p, m, n, k);
  }

  /** A rewritten key followed by text without bare keys has no fit anywhere. */
  lemma QuotedThenClean(ws: string, word: string, rest: string, p: nat, m: nat, n: nat, k: nat)
    requires All(ws, 0, |ws|, IsSpace) && All(word, 0, |word|, IsWord) && NoBareKey(rest)
    ensures !KeyFits(Quoted(ws, word) + rest, p, m, n, k)
  {
    var head := Quoted(ws, word);
    if p < |head| {
      RewrittenKeyNoFit(ws, word, rest, p, m, n, k);
    } else {
      KeyFitsShift(head, rest, p - |head|, m, n, k);
    }
  }

  lemma CopiedComplete(s: string)
    requires s != [] && KeyAt(s).None? && NoBareKey(QuoteKeys(s[1..]))
    ensures NoBareKey(QuoteKeys(s))
  {
    forall p: nat, m: nat, n: nat, k: nat ensures !KeyFits(QuoteKeys(s), p, m, n, k) {
      CopiedNoFit(s, p, m, n, k);
    }
  }

  lemma CopiedNoFit(s: string, p: nat, m: nat, n: nat, k: nat)
    requires s != [] && KeyAt(s).None? && NoBareKey(QuoteKeys(s[1..]))
    ensures !KeyFits(QuoteKeys(s), p, m, n, k)
  {
    if p >= 1 {
      CopiedNoFitLater(s, p, m, n, k);
    } else {
      CopiedNoFitAtStart(s, m, n, k);
    }
  }

  lemma CopiedNoFitLater(s: string, p: nat, m: nat, n: nat, k: nat)
    requires s != [] && KeyAt(s).None? && NoBareKey(QuoteKeys(s[1..])) && p >= 1
    ensures !KeyFits(QuoteKeys(s), p, m, n, k)
  {
    QuoteKeysCopies(s);
    CharThenClean(s[0], QuoteKeys(s[1..]), p, m, n, k);
  }

  lemma CopiedNoFitAtStart(s: string, m: nat, n: nat, k: nat)
    requires s != [] && KeyAt(s).None?
    ensures !KeyFits(QuoteKeys(s), 0, m, n, k)
  {
    CopiedStart(s, m, n, k);
    KeyComplete(s, m, n, k);
  }

  /** After one character, text without bare keys has no fit except possibly at the start. */
  lemma CharThenClean(c: char, rest: string, p: nat, m: nat, n: nat, k: nat)
    requires p >= 1 && NoBareKey(rest)
    ensures !KeyFits([c] + rest, p, m, n, k)
  {
    KeyFitsShift([c], rest, p - 1, m, n, k);
  }

  /** A fit at the start of the rewrite of a copied character was already a fit of the input. */
  lemma CopiedStart(s: string, m: nat, n: nat, k: nat)
    requires s != [] && KeyAt(s).None?
    ensures KeyFits(QuoteKeys(s), 0, m, n, k) ==> KeyFits(s, 0, m, n, k)
  {
    QuoteKeysCopies(s);
    if m + n + k >= 1 {
      QuoteKeysHead(s[1..], m + n + k - 1);
      PrependFit(s[0], QuoteKeys(s[1..]), s[1..], m, n, k);
      assert s == [s[0]] + s[1..];
    }
  }

  /** Prepending one character to two texts that agree up to a colon keeps a fit at the start. */
  lemma PrependFit(c: char, a: string, b: string, m: nat, n: nat, k: nat)
    requires m + n + k >= 1
    requires ColonAfterKeyChars(a, m + n + k - 1) ==> SamePrefix(a, b, m + n + k - 1)
    ensures KeyFits([c] + a, 0, m, n, k) ==> KeyFits([c] + b, 0, m, n, k)
  {
    var L := m + n + k;
    if KeyFits([c] + a, 0, m, n, k) {
      assert forall j | 0 <= j < L - 1 :: a[j] == ([c] + a)[j + 1];
      assert ColonAfterKeyChars(a, L - 1);
      assert SamePrefix([c] + a, [c] + b, L);
      KeyFitsPrefix([c] + a, [c] + b, m, n, k);
    }
  }

  /** Text with no bare key is left exactly as it is. */
  lemma {:induction false} QuoteKeysNoOp(s: string)
    requires NoBareKey(s)
    ensures QuoteKeys(s) == s
    decreases |s|
  {
    if s != [] {
      KeySound(s);
      assert KeyAt(s).None?;
      assert s == [s[0]] + s[1..];
      forall p: nat, m: nat, n: nat, k: nat ensures !KeyFits(s[1..], p, m, n, k) {
        KeyFitsShift([s[0]], s[1..], p, m, n, k);
      }
      QuoteKeysNoOp(s[1..]);
    }
  }

  /** Quoting keys twice is quoting them once. */
  lemma QuoteKeysIdempotent(s: string)
    ensures QuoteKeys(QuoteKeys(s)) == QuoteKeys(s)
  {
    QuoteKeysComplete(s);
    QuoteKeysNoOp(QuoteKeys(s));
  }

  /** The text of a found key: whitespace, word, whitespace, colon, then the rest. */
  lemma KeySplit(s: string)
    requires KeyAt(s).Some?
    ensures var m, n, k := KeyAt(s).value.0, KeyAt(s).value.1, KeyAt(s).value.2;
      && s == s[..m] + s[m..m + n] + s[m + n..m + n + k] + [':'] + s[KeyEnd(s)..]
      && All(s[m + n..m + n + k], 0, k, IsSpace)
  {
    KeySound(s);
    var m, n, k := KeyAt(s).value.0, KeyAt(s).value.1, KeyAt(s).value.2;
    assert forall j | m + n <= j < m + n + k :: s[m + n..m + n + k][j - m - n] == s[j];
  }

  /** Counting through a rewritten key: two quotes are added, its inner whitespace is dropped. */
  lemma QuotedCounts(ws: string, word: string, c: char)
    requires All(ws, 0, |ws|, IsSpace) && All(word, 0, |word|, IsWord)
    ensures Count(Quoted(ws, word), c) ==
      Count(ws, c) + Count(word, c) + (if c == '"' then 2 else 0) + (if c == ':' then 1 else 0)
  {
    CountAppend(ws, "\"", c);
    CountAppend(ws + "\"", word, c);
    CountAppend(ws + "\"" + word, "\":", c);
    assert Count("\"", c) == if c == '"' then 1 else 0;
    assert Count("\":", c) == (if c == '"' then 1 else 0) + (if c == ':' then 1 else 0);
  }

  /** Counting through the matched text of a key, for a character that is not whitespace. */
  lemma KeyTextCounts(s: string, c: char)
    requires KeyAt(s).Some? && !IsSpace(c)
    ensures var m, n := KeyAt(s).value.0, KeyAt(s).value.1;
      Count(s, c) == Count(s[..m], c) + Count(s[m..m + n], c) + (if c == ':' then 1 else 0) + Count(s[KeyEnd(s)..], c)
  {
    KeySplit(s);
    var m, n, k := KeyAt(s).value.0, KeyAt(s).value.1, KeyAt(s).value.2;
    var ws, word, sp, rest := s[..m], s[m..m + n], s[m + n..m + n + k], s[KeyEnd(s)..];
    CountAppend(ws, word, c);
    CountAppend(ws + word, sp, c);
    CountAppend(ws + word + sp, [':'], c);
    CountAppend(ws + word + sp + [':'], rest, c);
    CountRunZero(sp, 0, k, IsSpace, c);
    assert sp[0..k] == sp;
    assert Count([':'], c) == if c == ':' then 1 else 0;
  }

  /** Quoting keys keeps the count of every character other than `"` and whitespace. */
  lemma {:induction false} QuoteKeysCounts(s: string, c: char)
    requires c != '"' && !IsSpace(c)
    ensures Count(QuoteKeys(s), c) == Count(s, c)
    decreases |s|
  {
    if s != [] {
      if KeyAt(s).Some? {
        QuoteKeysCounts(s[KeyEnd(s)..], c);
        RewriteCountStep(s, c);
      } else {
        QuoteKeysCounts(s[1..], c);
        CopyCountStep(s, c);
      }
    }
  }

  /** One rewritten key adds `d` to the count, where `d` is 2 for `"` and 0 otherwise. */
  lemma RewriteCountStep(s: string, c: char)
    requires s != [] && KeyAt(s).Some? && !IsSpace(c)
    ensures Count(QuoteKeys(s), c) - Count(QuoteKeys(s[KeyEnd(s)..]), c)
         == Count(s, c) - Count(s[KeyEnd(s)..], c) + (if c == '"' then 2 else 0)
  {
    var m, n := KeyAt(s).value.0, KeyAt(s).value.1;
    QuoteKeysRewrites(s);
    KeyParts(s);
    QuotedCounts(s[..m], s[m..m + n], c);
    CountAppend(Quoted(s[..m], s[m..m + n]), QuoteKeys(s[KeyEnd(s)..]), c);
    KeyTextCounts(s, c);
  }

  /** One copied character adds the same to both counts. */
  lemma CopyCountStep(s: string, c: char)
    requires s != [] && KeyAt(s).None?
    ensures Count(QuoteKeys(s), c) - Count(QuoteKeys(s[1..]), c) == Count(s, c) - Count(s[1..], c)
  {
    QuoteKeysCopies(s);
    CountAppend([s[0]], QuoteKeys(s[1..]), c);
    CountAppend([s[0]], s[1..], c);
    assert s == [s[0]] + s[1..];
  }

  /** Quoting keys never removes a `"`, and adds some whenever a bare key is present. */
  lemma {:induction false} QuoteKeysQuotes(s: string)
    ensures Count(QuoteKeys(s), '"') >= Count(s, '"')
    ensures !NoBareKey(s) ==> Count(QuoteKeys(s), '"') > Count(s, '"')
    decreases |s|
  {
    if s != [] {
      if KeyAt(s).Some? {
        QuoteKeysQuotes(s[KeyEnd(s)..]);
        RewriteCountStep(s, '"');
      } else {
        QuoteKeysQuotes(s[1..]);
        CopyCountStep(s, '"');
        FirstFitLater(s);
      }
    }
  }

  /** When no key is found at the start, any fit lies in the rest of the text. */
  lemma FirstFitLater(s: string)
    requires s != [] && KeyAt(s).None?
    ensures !NoBareKey(s) ==> !NoBareKey(s[1..])
  {
    if !NoBareKey(s) {
      var p: nat, m: nat, n: nat, k: nat :| KeyFits(s, p, m, n, k);
      KeyComplete(s, m, n, k);
      assert p >= 1;
      assert s == [s[0]] + s[1..];
      KeyFitsShift([s[0]], s[1..], p - 1, m, n, k);
    }
  }

  /** Quoting keys changes the text exactly when it holds a bare key. */
  lemma QuoteKeysFixedPoint(s: string)
    ensures QuoteKeys(s) == s <==> NoBareKey(s)
  {
    QuoteKeysQuotes(s);
    if NoBareKey(s) { QuoteKeysNoOp(s); }
  }
  // ------------------------------------------------- step 3: ,\s*([\]}])

  predicate IsCloser(c: char) { c == ']' || c == '}' }

  /** The trailing-comma pattern fits at `p`: a comma, `m` whitespace, then a closer. */
  ghost predicate CommaFits(s: string, p: nat, m: nat) {
    p + 1 + m < |s| && s[p] == ',' && All(s, p + 1, p + 1 + m, IsSpace) && IsCloser(s[p + 1 + m])
  }

  ghost predicate NoTrailingComma(s: string) {
    forall p: nat, m: nat :: !CommaFits(s, p, m)
  }

  /** `,\s*([\]}])` anchored at the start: the whitespace run is greedy and cannot give back a closer. */
  function CommaAt(s: string): (r: Option<nat>)
    ensures r.Some? ==> 1 + r.value < |s|
  {
    if s != [] && s[0] == ',' && 1 + Lead(s[1..], IsSpace) < |s| && IsCloser(s[1 + Lead(s[1..], IsSpace)])
    then Some(Lead(s[1..], IsSpace))
    else None
  }

  lemma CommaSound(s: string)
    ensures CommaAt(s).Some? ==> CommaFits(s, 0, CommaAt(s).value)
  {
    if s != [] { LeadFrom(s, 1, IsSpace); }
  }

  lemma CommaComplete(s: string, m: nat)
    ensures CommaFits(s, 0, m) ==> CommaAt(s) == Some(m)
  {
    if CommaFits(s, 0, m) {
      LeadIsFrom(s, 1, IsSpace, m);
    }
  }

  /** `re.sub(r',\s*([\]}])', r'\1', s)`: each match becomes its closer alone. */
  function DropTrailingCommas(s: string): (r: string)
    ensures |r| <= |s|
    decreases |s|
  {
    if s == [] then []
    else if CommaAt(s).None? then [s[0]] + DropTrailingCommas(s[1..])
    else [s[1 + CommaAt(s).value]] + DropTrailingCommas(s[2 + CommaAt(s).value..])
  }

  lemma CommaFitsShift(a: string, b: string, p: nat, m: nat)
    ensures CommaFits(a + b, |a| + p, m) <==> CommaFits(b, p, m)
  {
    var t := a + b;
    assert forall j | 0 <= j < |b| :: t[|a| + j] == b[j];
  }

  /** One step of the rewrite changes the counts only of commas and whitespace. */
  lemma DropCommaStep(s: string, c: char)
    requires s != [] && CommaAt(s).Some? && c != ',' && !IsSpace(c)
    ensures Count(DropTrailingCommas(s), c) - Count(DropTrailingCommas(s[2 + CommaAt(s).value..]), c)
         == Count(s, c) - Count(s[2 + CommaAt(s).value..], c)
  {
    var m := CommaAt(s).value;
    CommaSound(s);
    assert s == [','] + s[1..1 + m] + [s[1 + m]] + s[2 + m..];
    CountAppend([','] + s[1..1 + m] + [s[1 + m]], s[2 + m..], c);
    CountAppend([','] + s[1..1 + m], [s[1 + m]], c);
    CountAppend([','], s[1..1 + m], c);
    assert All(s[1..1 + m], 0, m, IsSpace) by {
      assert forall j | 1 <= j < 1 + m :: s[1..1 + m][j - 1] == s[j];
    }
    CountRunZero(s[1..1 + m], 0, m, IsSpace, c);
    assert s[1..1 + m][0..m] == s[1..1 + m];
    CountAppend([s[1 + m]], DropTrailingCommas(s[2 + m..]), c);
  }

  lemma CopyCommaStep(s: string, c: char)
    requires s != [] && CommaAt(s).None?
    ensures Count(DropTrailingCommas(s), c) - Count(DropTrailingCommas(s[1..]), c) == Count(s, c) - Count(s[1..], c)
  {
    CountAppend([s[0]], DropTrailingCommas(s[1..]), c);
    CountAppend([s[0]], s[1..], c);
    assert s == [s[0]] + s[1..];
  }

  /** Dropping trailing commas keeps the count of every character other than `,` and whitespace. */
  lemma {:induction false} DropTrailingCommasCounts(s: string, c: char)
    requires c != ',' && !IsSpace(c)
    ensures Count(DropTrailingCommas(s), c) == Count(s, c)
    decreases |s|
  {
    if s != [] {
      if CommaAt(s).Some? {
        DropTrailingCommasCounts(s[2 + CommaAt(s).value..], c);
        DropCommaStep(s, c);
      } else {
        DropTrailingCommasCounts(s[1..], c);
        CopyCommaStep(s, c);
      }
    }
  }

  /** When no match is found at the start, any match lies in the rest of the text. */
  lemma FirstCommaLater(s: string)
    requires s != [] && CommaAt(s).None?
    ensures !NoTrailingComma(s) ==> !NoTrailingComma(s[1..])
  {
    if !NoTrailingComma(s) {
      var p: nat, m: nat :| CommaFits(s, p, m);
      CommaComplete(s, m);
      assert p >= 1;
      assert s == [s[0]] + s[1..];
      CommaFitsShift([s[0]], s[1..], p - 1, m);
    }
  }

  /** The rewrite never lengthens the text, and shortens it whenever a match is present. */
  lemma {:induction false} DropTrailingCommasShrinks(s: string)
    ensures |DropTrailingCommas(s)| <= |s|
    ensures !NoTrailingComma(s) ==> |DropTrailingCommas(s)| < |s|
    decreases |s|
  {
    if s != [] {
      if CommaAt(s).Some? {
        DropTrailingCommasShrinks(s[2 + CommaAt(s).value..]);
      } else {
        DropTrailingCommasShrinks(s[1..]);
        FirstCommaLater(s);
      }
    }
  }

  /** Text without a match is left exactly as it is. */
  lemma {:induction false} DropTrailingCommasNoOp(s: string)
    requires NoTrailingComma(s)
    ensures DropTrailingCommas(s) == s
    decreases |s|
  {
    if s != [] {
      CommaSound(s);
      assert CommaAt(s).None?;
      assert s == [s[0]] + s[1..];
      forall p: nat, m: nat ensures !CommaFits(s[1..], p, m) {
        CommaFitsShift([s[0]], s[1..], p, m);
      }
      DropTrailingCommasNoOp(s[1..]);
    }
  }

  /** Dropping trailing commas changes the text exactly when it holds a match. */
  lemma DropTrailingCommasFixedPoint(s: string)
    ensures DropTrailingCommas(s) == s <==> NoTrailingComma(s)
  {
    DropTrailingCommasShrinks(s);
    if NoTrailingComma(s) { DropTrailingCommasNoOp(s); }
  }

  /** A single pass can leave a trailing comma behind: the second comma only appears after the first is dropped. */
  lemma DropTrailingCommasOnePass()
    ensures DropTrailingCommas(",,]") == ",]"
    ensures !NoTrailingComma(",]")
  {
    var s := ",,]";
    assert Lead(s[1..], IsSpace) == 0;
    assert CommaAt(s).None?;
    assert s[1..] == ",]";
    assert Lead(s[1..][1..], IsSpace) == 0;
    assert CommaAt(",]") == Some(0);
    assert ",]"[2..] == [];
    assert CommaFits(",]", 0, 0);
  }
  // ------------------------------------------------------- step 4: balancing

  /** `c * n` in Python: empty when `n <= 0`. */
  function Repeat(c: char, n: int): (r: string)
    ensures |r| == if n > 0 then n else 0
    ensures forall i | 0 <= i < |r| :: r[i] == c
    decreases n
  {
    if n <= 0 then [] else [c] + Repeat(c, n - 1)
  }

  lemma {:induction false} RepeatCount(c: char, n: int, d: char)
    ensures Count(Repeat(c, n), d) == if d == c && n > 0 then n else 0
    decreases n
  {
    if n > 0 {
      RepeatCount(c, n - 1, d);
      assert Repeat(c, n)[1..] == Repeat(c, n - 1);
    }
  }

  /** Append `}` for each unmatched `{`, then `]` for each unmatched `[`. */
  function Balance(s: string): (r: string)
    ensures |s| <= |r| && r[..|s|] == s
    ensures forall i | |s| <= i < |r| :: IsCloser(r[i])
  {
    var braced := s + Repeat('}', Count(s, '{') - Count(s, '}'));
    braced + Repeat(']', Count(braced, '[') - Count(braced, ']'))
  }

  /**
   * After balancing every opener has a closer to match in number, openers
   * are untouched, and nothing is appended when the closers already
   * outnumber the openers.
   */
  lemma BalanceCounts(s: string)
    ensures var r := Balance(s);
      && Count(r, '{') == Count(s, '{') && Count(r, '[') == Count(s, '[')
      && Count(r, '}') == (if Count(s, '}') >= Count(s, '{') then Count(s, '}') else Count(s, '{'))
      && Count(r, ']') == (if Count(s, ']') >= Count(s, '[') then Count(s, ']') else Count(s, '['))
      && Count(r, '}') >= Count(r, '{') && Count(r, ']') >= Count(r, '[')
    ensures Count(s, '}') >= Count(s, '{') && Count(s, ']') >= Count(s, '[') ==> Balance(s) == s
    ensures forall c | !IsCloser(c) :: Count(Balance(s), c) == Count(s, c)
  {
    var braces := Repeat('}', Count(s, '{') - Count(s, '}'));
    var braced := s + braces;
    var brackets := Repeat(']', Count(braced, '[') - Count(braced, ']'));
    forall c ensures Count(braced, c) == Count(s, c) + Count(braces, c)
                  && Count(braced + brackets, c) == Count(braced, c) + Count(brackets, c)
                  && Count(braces, c) == (if c == '}' && Count(s, '{') - Count(s, '}') > 0 then Count(s, '{') - Count(s, '}') else 0)
                  && Count(brackets, c) == (if c == ']' && Count(braced, '[') - Count(braced, ']') > 0 then Count(braced, '[') - Count(braced, ']') else 0)
    {
      CountAppend(s, braces, c);
      CountAppend(braced, brackets, c);
      RepeatCount('}', Count(s, '{') - Count(s, '}'), c);
      RepeatCount(']', Count(braced, '[') - Count(braced, ']'), c);
    }
    if Count(s, '}') >= Count(s, '{') && Count(s, ']') >= Count(s, '[') {
      assert braces == [];
      assert braced == s;
    }
  }

  // ------------------------------------------------------- step 5: truncation

  /** Python's `max` on two indices. */
  function Max(a: int, b: int): (r: int)
    ensures r >= a && r >= b && (r == a || r == b)
  {
    if a >= b then a else b
  }

  /** Cut everything after the last `}` or `]`, if there is one. */
  function CutAfterLastCloser(s: string): (r: string)
    ensures ('}' in s || ']' in s) ==>
      && 0 < |r| <= |s| && IsCloser(r[|r| - 1]) && r == s[..|r|]
      && forall i | |r| <= i < |s| :: !IsCloser(s[i])
    ensures !('}' in s || ']' in s) ==> r == s
  {
    var last := Max(RFind(s, '}'), RFind(s, ']'));
    if last != -1 then s[..last + 1] else s
  }

  /** Truncation keeps every closer and never adds a character. */
  lemma CutCounts(s: string, c: char)
    ensures Count(CutAfterLastCloser(s), c) <= Count(s, c)
    ensures IsCloser(c) ==> Count(CutAfterLastCloser(s), c) == Count(s, c)
  {
    var r := CutAfterLastCloser(s);
    if '}' in s || ']' in s {
      CountPrefix(s, |r|, c);
      if IsCloser(c) {
        assert c !in s[|r|..];
        CountZero(s[|r|..], c);
      }
    }
  }

  // ------------------------------------------------------------- the pipeline

  /** `_fix_json`: the five steps in order. */
  function FixJson(s: string): string {
    CutAfterLastCloser(Balance(DropTrailingCommas(QuoteKeys(ReplaceQuotes(s)))))
  }

  /** No apostrophe survives the repair: the first step replaces them all and no later step adds one. */
  lemma FixJsonNoApostrophe(s: string)
    ensures '\'' !in FixJson(s)
  {
    var q := ReplaceQuotes(s);
    var k := QuoteKeys(q);
    var d := DropTrailingCommas(k);
    var b := Balance(d);
    CountZero(q, '\'');
    QuoteKeysCounts(q, '\'');
    DropTrailingCommasCounts(k, '\'');
    BalanceCounts(d);
    CutCounts(b, '\'');
    CountZero(FixJson(s), '\'');
  }

  /** After the repair, closing braces and brackets are at least as many as opening ones. */
  lemma FixJsonBalanced(s: string)
    ensures var r := FixJson(s);
      Count(r, '}') >= Count(r, '{') && Count(r, ']') >= Count(r, '[')
  {
    var b := Balance(DropTrailingCommas(QuoteKeys(ReplaceQuotes(s))));
    BalanceCounts(DropTrailingCommas(QuoteKeys(ReplaceQuotes(s))));
    CutCounts(b, '{');
    CutCounts(b, '}');
    CutCounts(b, '[');
    CutCounts(b, ']');
  }

  /** A repaired text that holds a closer ends with one. */
  lemma FixJsonEndsWithCloser(s: string)
    ensures var r := FixJson(s); ('}' in r || ']' in r) ==> IsCloser(r[|r| - 1])
  {
    var b := Balance(DropTrailingCommas(QuoteKeys(ReplaceQuotes(s))));
    assert FixJson(s) == CutAfterLastCloser(b);
  }

}
