/**
 * The message service (app/services/message_service.py): line-ending and
 * whitespace preprocessing, the validation gate in front of the parser,
 * chunked batch processing, categorisation by detected type and the
 * counting part of the batch statistics.
 */
module MessageService {
  import opened Wrappers
  import opened Text
  import opened JsonModel
  import opened Patterns
  import opened MessageValidator
  import opened ParserService

  // ------------------------------------------------------------ preprocess_message

  /** `s.replace('\r\n', '\n')`: left to right, non-overlapping. */
  function ReplaceCrlf(s: string): (r: string)
    ensures |r| <= |s|
    ensures '\r' !in s ==> r == s
  {
    if s == [] then []
    else if |s| >= 2 && s[0] == '\r' && s[1] == '\n' then "\n" + ReplaceCrlf(s[2..])
    else [s[0]] + ReplaceCrlf(s[1..])
  }

  /** `s.replace('\r', '\n')`. */
  function ReplaceCr(s: string): (r: string)
    ensures |r| == |s|
    ensures forall i | 0 <= i < |s| :: r[i] == if s[i] == '\r' then '\n' else s[i]
  {
    if s == [] then [] else [if s[0] == '\r' then '\n' else s[0]] + ReplaceCr(s[1..])
  }

  /**
   * The intended line-ending normalisation in one pass: each CRLF and each
   * lone CR becomes a single LF.
   */
  function LineEndings(s: string): (r: string)
    ensures |r| <= |s|
    ensures '\r' !in r
  {
    if s == [] then []
    else if s[0] == '\r' then "\n" + LineEndings(if |s| >= 2 && s[1] == '\n' then s[2..] else s[1..])
    else [s[0]] + LineEndings(s[1..])
  }

  lemma {:induction false} ReplaceCrAppend(a: string, b: string)
    ensures ReplaceCr(a + b) == ReplaceCr(a) + ReplaceCr(b)
  {
    var l, r := ReplaceCr(a + b), ReplaceCr(a) + ReplaceCr(b);
    assert |l| == |r|;
    forall i | 0 <= i < |l| ensures l[i] == r[i] {
      if i < |a| { assert (a + b)[i] == a[i]; } else { assert (a + b)[i] == b[i - |a|]; }
    }
  }

  /** The two chained replacements are the one-pass normalisation. */
  lemma {:induction false} ReplacementsNormalise(s: string)
    ensures ReplaceCr(ReplaceCrlf(s)) == LineEndings(s)
    decreases |s|
  {
    if s == [] {
    } else if |s| >= 2 && s[0] == '\r' && s[1] == '\n' {
      ReplaceCrAppend("\n", ReplaceCrlf(s[2..]));
      ReplacementsNormalise(s[2..]);
    } else {
      ReplaceCrAppend([s[0]], ReplaceCrlf(s[1..]));
      ReplacementsNormalise(s[1..]);
    }
  }

  /** Text without a carriage return is left alone by both replacements. */
  lemma {:induction false} ReplaceWithoutCr(s: string)
    requires '\r' !in s
    ensures ReplaceCrlf(s) == s && ReplaceCr(s) == s
  {
    if s != [] {
      assert '\r' !in s[1..];
      ReplaceWithoutCr(s[1..]);
    }
  }

  /** `preprocess_message`: normalise line endings, then strip. */
  function Preprocess(message: string): (r: string)
    ensures '\r' !in r
    ensures r == [] || (!IsSpace(r[0]) && !IsSpace(r[|r| - 1]))
  {
    var n := ReplaceCr(ReplaceCrlf(message));
    assert '\r' !in n;
    StripKeepsOut(n, '\r');
    Strip(n)
  }

  /** The result is the one-pass normalisation of the message, stripped. */
  lemma {:induction false} PreprocessMeaning(message: string)
    ensures Preprocess(message) == Strip(LineEndings(message))
  {
    ReplacementsNormalise(message);
  }

  /** Preprocessing twice is preprocessing once. */
  lemma {:induction false} PreprocessIdempotent(message: string)
    ensures Preprocess(Preprocess(message)) == Preprocess(message)
  {
    var p := Preprocess(message);
    ReplaceWithoutCr(p);
    StripClean(p);
  }

  // ------------------------------------------------------------ process_message

  /** `message_id or generate_message_id()`: the new id stands in for the uuid. */
  function IdOr(id: Option<string>, newId: string): string {
    if id.Some? && id.value != "" then id.value else newId
  }

  /**
   * `process_message`: preprocess, reject what fails the format check,
   * otherwise parse the preprocessed text under the (possibly newId) id.
   */
  function ProcessMessage(message: string, id: Option<string>, newId: string, env: Env): (r: Result<Outcome, Failure>)
    ensures !ValidateTtyMessage(Preprocess(message)) ==>
      r == Err(ValueError("Invalid TTY message format: " + IdOr(id, newId)))
    ensures ValidateTtyMessage(Preprocess(message)) ==>
      r == ParseTtyMessage(Preprocess(message), Some(IdOr(id, newId)), true, env)
  {
    var mid := IdOr(id, newId);
    var pre := Preprocess(message);
    if !ValidateTtyMessage(pre) then Err(ValueError("Invalid TTY message format: " + mid))
    else ParseTtyMessage(pre, Some(mid), true, env)
  }

  // ------------------------------------------------------------ process_batch

  /** The preprocessed batch: every message preprocessed, every missing id replaced by its newId one. */
  function Prepared(messages: seq<(string, Option<string>)>, newId: nat -> string): (r: seq<(string, Option<string>)>)
    ensures |r| == |messages|
    ensures forall i | 0 <= i < |r| :: r[i] == PrepareOne(messages[i], newId(i)) && r[i].0 == Preprocess(messages[i].0) && r[i].1 == Some(IdOr(messages[i].1, newId(i)))
  {
    seq(|messages|, i requires 0 <= i < |messages| => PrepareOne(messages[i], newId(i)))
  }

  /** One message preprocessed, with its id or the fresh one. */
  function PrepareOne(m: (string, Option<string>), newId: string): (string, Option<string>) {
    (Preprocess(m.0), Some(IdOr(m.1, newId)))
  }

  /** The consecutive slices of `size` elements (the last one possibly shorter). */
  function Chunks<T>(xs: seq<T>, size: nat): (cs: seq<seq<T>>)
    requires size > 0
    ensures forall j | 0 <= j < |cs| :: 0 < |cs[j]| <= size
    decreases |xs|
  {
    if xs == [] then []
    else if |xs| <= size then [xs]
    else [xs[..size]] + Chunks(xs[size..], size)
  }

  function Flatten<T>(cs: seq<seq<T>>): seq<T> {
    if cs == [] then [] else cs[0] + Flatten(cs[1..])
  }

  /** Concatenating the chunks gives back the list, in order. */
  lemma {:induction false} ChunksConcat<T>(xs: seq<T>, size: nat)
    requires size > 0
    ensures Flatten(Chunks(xs, size)) == xs
    decreases |xs|
  {
    if xs != [] && |xs| > size {
      var cs := Chunks(xs, size);
      assert cs[1..] == Chunks(xs[size..], size);
      ChunksConcat(xs[size..], size);
      assert xs == xs[..size] + xs[size..];
    }
  }

  /** The results of each chunk, concatenated in chunk order. */
  function ChunkResults(cs: seq<seq<(string, Option<string>)>>, parse: Parser): seq<BatchItem> {
    if cs == [] then [] else BatchOutcome(cs[0], parse) + ChunkResults(cs[1..], parse)
  }

  /** Parsing chunk by chunk and concatenating gives the same results as parsing the whole list. */
  lemma {:induction false} ChunkedParse(xs: seq<(string, Option<string>)>, size: nat, parse: Parser)
    requires size > 0
    ensures ChunkResults(Chunks(xs, size), parse) == BatchOutcome(xs, parse)
    decreases |xs|
  {
    var cs := Chunks(xs, size);
    if xs == [] {
    } else if |xs| <= size {
      assert cs == [xs];
      assert ChunkResults(cs, parse) == BatchOutcome(xs, parse) + ChunkResults([], parse);
    } else {
      assert cs[1..] == Chunks(xs[size..], size);
      ChunkedParse(xs[size..], size, parse);
      BatchOutcomeAppend(xs[..size], xs[size..], parse);
      assert xs[..size] + xs[size..] == xs;
    }
  }

  /** Parsing a list in two parts is parsing it whole. */
  lemma {:induction false} BatchOutcomeAppend(a: seq<(string, Option<string>)>, b: seq<(string, Option<string>)>,
                                              parse: Parser)
    ensures BatchOutcome(a + b, parse) == BatchOutcome(a, parse) + BatchOutcome(b, parse)
    decreases |b|
  {
    if b != [] {
      var n := |b| - 1;
      assert (a + b)[..|a + b| - 1] == a + b[..n];
      assert (a + b)[|a + b| - 1] == b[n];
      BatchOutcomeAppend(a, b[..n], parse);
    } else {
      assert a + b == a;
    }
  }

  /** The preprocessing loop of `process_batch`. */
  method PrepareBatch(messages: seq<(string, Option<string>)>, newId: nat -> string)
    returns (prepared: seq<(string, Option<string>)>)
    ensures prepared == Prepared(messages, newId)
  {
    prepared := [];
    for i := 0 to |messages|
      invariant |prepared| == i
      invariant forall k | 0 <= k < i :: prepared[k] == PrepareOne(messages[k], newId(k))
    {
      prepared := prepared + [PrepareOne(messages[i], newId(i))];
    }
    PreparedUnique(messages, newId, prepared);
  }

  lemma PreparedUnique(messages: seq<(string, Option<string>)>, newId: nat -> string, p: seq<(string, Option<string>)>)
    requires |p| == |messages|
    requires forall k | 0 <= k < |p| :: p[k] == PrepareOne(messages[k], newId(k))
    ensures p == Prepared(messages, newId)
  {
  }

  /**
   * The chunk loop of `process_batch`: `prepared[i:i + batch_size]` for `i`
   * in `range(0, len(prepared), batch_size)`, each parsed and appended.
   */
  method ParseInChunks(prepared: seq<(string, Option<string>)>, batchSize: nat, parse: Parser)
    returns (results: seq<BatchItem>)
    requires batchSize > 0
    ensures results == BatchOutcome(prepared, parse)
  {
    results := [];
    var i := 0;
    while i < |prepared|
      invariant 0 <= i
      invariant results == BatchOutcome(prepared[..Min(i, |prepared|)], parse)
      decreases |prepared| - i
    {
      var end := Min(i + batchSize, |prepared|);
      var batchResults := BatchParse(prepared[i..end], parse);
      ChunkStep(prepared, i, end, parse);
      results := results + batchResults;
      i := i + batchSize;
    }
    assert prepared[..Min(i, |prepared|)] == prepared;
  }

  /**
   * `process_batch`: preprocess every message, then parse the list in
   * chunks of `batchSize` and concatenate the chunk results. A zero size
   * makes `range` raise; a negative one makes it empty.
   */
  method ProcessBatch(messages: seq<(string, Option<string>)>, batchSize: int, newId: nat -> string, env: Env)
    returns (r: Result<seq<BatchItem>, Failure>)
    ensures batchSize == 0 ==> r == Err(ValueError("range() arg 3 must not be zero"))
    ensures batchSize < 0 ==> r == Ok([])
    ensures batchSize > 0 ==> r == Ok(BatchOutcome(Prepared(messages, newId), BatchParser(env)))
  {
    var prepared := PrepareBatch(messages, newId);
    if batchSize == 0 {
      return Err(ValueError("range() arg 3 must not be zero"));
    } else if batchSize < 0 {
      // `range(0, n, batch_size)` with a negative step is empty
      return Ok([]);
    }
    var results := ParseInChunks(prepared, batchSize, BatchParser(env));
    return Ok(results);
  }

  /** The results up to the end of a chunk are those before it followed by the chunk's own. */
  lemma ChunkStep(xs: seq<(string, Option<string>)>, i: nat, end: nat, parse: Parser)
    requires i <= end <= |xs|
    ensures BatchOutcome(xs[..end], parse) == BatchOutcome(xs[..i], parse) + BatchOutcome(xs[i..end], parse)
  {
    BatchOutcomeAppend(xs[..i], xs[i..end], parse);
    assert xs[..i] + xs[i..end] == xs[..end];
  }

  function Min(a: int, b: int): int {
    if a <= b then a else b
  }

  /** The slices the batch loop hands to the parser are exactly the chunks of the prepared list. */
  lemma {:induction false} ChunkSlices<T>(xs: seq<T>, size: nat, j: nat)
    requires size > 0 && j < |Chunks(xs, size)|
    ensures j * size < |xs|
    ensures Chunks(xs, size)[j] == xs[j * size..Min(j * size + size, |xs|)]
    decreases |xs|
  {
    if j > 0 {
      var rest := xs[size..];
      assert Chunks(xs, size)[j] == Chunks(rest, size)[j - 1];
      ChunkSlices(rest, size, j - 1);
      var p := (j - 1) * size;
      assert j * size == p + size;
      assert rest[p..Min(p + size, |rest|)] == xs[p + size..Min(p + size + size, |xs|)];
    }
  }

  // ------------------------------------------------------------ categorize_messages

  /** The four buckets. */
  const Buckets: set<string> := {"MVT", "MVA", "DIV", "UNKNOWN"}

  /** The bucket of one message: its detected code, or UNKNOWN. */
  function Bucket(message: string): (b: string)
    ensures b in Buckets
    ensures b == "UNKNOWN" <==> DetectMessageType(message).None?
  {
    match DetectMessageType(message)
    case Some(t) => Code(t)
    case None => "UNKNOWN"
  }

  /** The messages of one bucket, in input order. */
  function InBucket(messages: seq<string>, key: string): (r: seq<string>)
    ensures |r| <= |messages|
  {
    if messages == [] then []
    else
      var n := |messages| - 1;
      InBucket(messages[..n], key) + (if Bucket(messages[n]) == key then [messages[n]] else [])
  }

  /** `categorize_messages`: one pass appending each message to its bucket. */
  method Categorize(messages: seq<string>) returns (categorized: map<string, seq<string>>)
    ensures categorized.Keys == Buckets
    ensures forall key | key in Buckets :: categorized[key] == InBucket(messages, key)
  {
    categorized := map["MVT" := [], "MVA" := [], "DIV" := [], "UNKNOWN" := []];
    for i := 0 to |messages|
      invariant categorized.Keys == Buckets
      invariant forall key | key in Buckets :: categorized[key] == InBucket(messages[..i], key)
    {
      var m := messages[i];
      var key := Bucket(m);
      categorized := categorized[key := categorized[key] + [m]];
      assert messages[..i + 1][..i] == messages[..i];
    }
    assert messages[..|messages|] == messages;
  }

  /** Appending a message adds it to its own bucket and to no other. */
  lemma InBucketLast(messages: seq<string>, key: string)
    requires messages != []
    ensures multiset(InBucket(messages, key))
         == multiset(InBucket(messages[..|messages| - 1], key))
          + (if Bucket(messages[|messages| - 1]) == key then multiset{messages[|messages| - 1]} else multiset{})
  {
  }

  /** Every message lands in exactly one bucket: the four buckets partition the input. */
  lemma {:induction false} BucketsPartition(messages: seq<string>)
    ensures multiset(InBucket(messages, "MVT")) + multiset(InBucket(messages, "MVA"))
          + multiset(InBucket(messages, "DIV")) + multiset(InBucket(messages, "UNKNOWN"))
         == multiset(messages)
  {
    if messages != [] {
      var n := |messages| - 1;
      var m := messages[n];
      assert messages == messages[..n] + [m];
      assert multiset(messages) == multiset(messages[..n]) + multiset{m};
      BucketsPartition(messages[..n]);
      var b := Bucket(m);
      InBucketLast(messages, "MVT");
      InBucketLast(messages, "MVA");
      InBucketLast(messages, "DIV");
      InBucketLast(messages, "UNKNOWN");
      PartitionStep(multiset(InBucket(messages[..n], "MVT")), multiset(InBucket(messages[..n], "MVA")),
                    multiset(InBucket(messages[..n], "DIV")), multiset(InBucket(messages[..n], "UNKNOWN")), m, b);
    }
  }

  /** One message added to the bucket named `b`, which is one of the four. */
  lemma PartitionStep(a: multiset<string>, v: multiset<string>, d: multiset<string>, u: multiset<string>,
                      m: string, b: string)
    requires b in Buckets
    ensures (a + (if b == "MVT" then multiset{m} else multiset{}))
          + (v + (if b == "MVA" then multiset{m} else multiset{}))
          + (d + (if b == "DIV" then multiset{m} else multiset{}))
          + (u + (if b == "UNKNOWN" then multiset{m} else multiset{}))
         == a + v + d + u + multiset{m}
  {
    assert "MVT"[2] != "MVA"[2] && "DIV"[0] != "MVT"[0] && "DIV"[0] != "MVA"[0];
    assert |"UNKNOWN"| != |"MVT"|;
  }

  /** The bucket sizes add up to the number of messages. */
  lemma {:induction false} BucketSizes(messages: seq<string>)
    ensures |InBucket(messages, "MVT")| + |InBucket(messages, "MVA")|
          + |InBucket(messages, "DIV")| + |InBucket(messages, "UNKNOWN")| == |messages|
  {
    BucketsPartition(messages);
    assert |multiset(messages)| == |messages|;
  }

  /** A bucket holds exactly the messages whose bucket it is. */
  lemma {:induction false} InBucketMembers(messages: seq<string>, key: string)
    ensures forall m :: m in InBucket(messages, key) <==> m in messages && Bucket(m) == key
  {
    if messages != [] {
      var n := |messages| - 1;
      InBucketMembers(messages[..n], key);
      assert messages == messages[..n] + [messages[n]];
    }
  }

  // ------------------------------------------------------------ extract_stats_from_batch

  /** How often each key occurs, as a dictionary built by `d[k] = d.get(k, 0) + 1`. */
  function Tally<K(==)>(keys: seq<K>): (r: map<K, nat>)
    ensures forall k | k in r :: r[k] >= 1
  {
    if keys == [] then map[]
    else
      var n := |keys| - 1;
      var m := Tally(keys[..n]);
      m[keys[n] := (if keys[n] in m then m[keys[n]] else 0) + 1]
  }

  /** Counting one more key. */
  lemma TallyPrefix<K>(keys: seq<K>, i: nat)
    requires i < |keys|
    ensures Tally(keys[..i + 1]) == Tally(keys[..i])[keys[i] := (if keys[i] in Tally(keys[..i]) then Tally(keys[..i])[keys[i]] else 0) + 1]
  {
    assert keys[..i + 1][..i] == keys[..i];
  }

  /** A key is counted exactly when it occurs, and its count is its number of occurrences. */
  lemma {:induction false} TallyCounts<K>(keys: seq<K>, k: K)
    ensures k in Tally(keys) <==> k in keys
    ensures k in Tally(keys) ==> Tally(keys)[k] == multiset(keys)[k]
  {
    if keys != [] {
      var n := |keys| - 1;
      TallyCounts(keys[..n], k);
      assert keys == keys[..n] + [keys[n]];
    }
  }

  /** The sum of a dictionary's values. */
  ghost function SumValues<K>(m: map<K, nat>): nat
    decreases |m.Keys|
  {
    if m == map[] then 0
    else
      var k :| k in m;
      m[k] + SumValues(m - {k})
  }

  /** The sum does not depend on the key it starts from. */
  lemma {:induction false} SumValuesAt<K>(m: map<K, nat>, k: K)
    requires k in m
    ensures SumValues(m) == m[k] + SumValues(m - {k})
    decreases |m.Keys|
  {
    var j :| j in m && SumValues(m) == m[j] + SumValues(m - {j});
    if j != k {
      var mj := m - {j};
      var mk := m - {k};
      SumValuesAt(mj, k);
      SumValuesAt(mk, j);
      assert mj - {k} == mk - {j};
    }
  }

  /** Incrementing one entry (or adding it at 1) adds one to the sum. */
  lemma {:induction false} SumValuesBump<K>(m: map<K, nat>, k: K)
    ensures SumValues(m[k := (if k in m then m[k] else 0) + 1]) == SumValues(m) + 1
  {
    var m2 := m[k := (if k in m then m[k] else 0) + 1];
    SumValuesAt(m2, k);
    if k in m {
      SumValuesAt(m, k);
      assert m2 - {k} == m - {k};
    } else {
      assert m2 - {k} == m;
    }
  }

  /** The counts add up to the number of keys counted. */
  lemma {:induction false} TallySum<K>(keys: seq<K>)
    ensures SumValues(Tally(keys)) == |keys|
  {
    if keys != [] {
      var n := |keys| - 1;
      TallySum(keys[..n]);
      SumValuesBump(Tally(keys[..n]), keys[n]);
    }
  }

  /** The counted statistics of a batch: the floating-point averages are not modelled. */
  datatype Stats = Stats(messageCount: nat, messageTypes: map<Json, nat>, parsingMethods: map<string, nat>)

  /** The `message_type` of each result, in order. */
  function TypesOf(results: seq<BatchItem>): (ts: seq<Json>)
    ensures |ts| == |results|
  {
    seq(|results|, i requires 0 <= i < |results| => Get(results[i].outcome.record, "message_type"))
  }

  /** The parsing method of each result, in order. */
  function MethodsOf(results: seq<BatchItem>): (ms: seq<string>)
    ensures |ms| == |results|
  {
    seq(|results|, i requires 0 <= i < |results| => results[i].outcome.parsingMethod)
  }

  /** `extract_stats_from_batch`, counting part: the count and the two tallies. */
  method ExtractStats(results: seq<BatchItem>) returns (stats: Stats)
    ensures stats.messageCount == |results|
    ensures stats.messageTypes == Tally(TypesOf(results))
    ensures stats.parsingMethods == Tally(MethodsOf(results))
    ensures results == [] ==> stats.messageTypes == map[] && stats.parsingMethods == map[]
  {
    if |results| == 0 {
      return Stats(0, map[], map[]);
    }
    var messageTypes := CountEach(TypesOf(results));
    var parsingMethods := CountEach(MethodsOf(results));
    return Stats(|results|, messageTypes, parsingMethods);
  }

  /** One counting loop of `extract_stats_from_batch`: `d[k] = d.get(k, 0) + 1` for each key. */
  method CountEach<K(==)>(keys: seq<K>) returns (counts: map<K, nat>)
    ensures counts == Tally(keys)
  {
    counts := map[];
    for i := 0 to |keys|
      invariant counts == Tally(keys[..i])
    {
      var k := keys[i];
      TallyPrefix(keys, i);
      counts := counts[k := (if k in counts then counts[k] else 0) + 1];
    }
    assert keys[..|keys|] == keys;
  }

  /** Both tallies add up to the message count. */
  lemma {:induction false} StatsAddUp(results: seq<BatchItem>)
    ensures SumValues(Tally(TypesOf(results))) == |results|
    ensures SumValues(Tally(MethodsOf(results))) == |results|
  {
    TallySum(TypesOf(results));
    TallySum(MethodsOf(results));
  }
}
