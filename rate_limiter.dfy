/**
 * The in-memory rate limiter (app/api/dependencies.py): a table from
 * client to the list of `(timestamp, count)` entries inside the current
 * window. The clock is the `now` parameter of each call.
 */
module Dependencies {

  /** One `(timestamp, count)` entry of a client's list. */
  datatype Entry = Entry(ts: int, count: int)

  /** `[(ts, count) for ts, count in entries if now - ts < window]`. */
  function Prune(entries: seq<Entry>, now: int, window: int): (r: seq<Entry>)
    ensures |r| <= |entries|
  {
    if entries == [] then []
    else
      var n := |entries| - 1;
      Prune(entries[..n], now, window) + (if now - entries[n].ts < window then [entries[n]] else [])
  }

  /** `sum(count for _, count in entries)`. */
  function Total(entries: seq<Entry>): (r: int)
    ensures (forall i | 0 <= i < |entries| :: entries[i].count >= 0) ==> r >= 0
  {
    if entries == [] then 0 else Total(entries[..|entries| - 1]) + entries[|entries| - 1].count
  }

  /** Pruning keeps exactly the entries younger than the window. */
  lemma {:induction false} PruneExact(entries: seq<Entry>, now: int, window: int)
    ensures forall e :: e in Prune(entries, now, window) <==> e in entries && now - e.ts < window
  {
    if entries != [] {
      var n := |entries| - 1;
      PruneExact(entries[..n], now, window);
      assert entries == entries[..n] + [entries[n]];
    }
  }

  /** Pruning twice at the same instant prunes nothing more. */
  lemma {:induction false} PruneIdempotent(entries: seq<Entry>, now: int, window: int)
    ensures Prune(Prune(entries, now, window), now, window) == Prune(entries, now, window)
  {
    if entries != [] {
      var n := |entries| - 1;
      var p := Prune(entries[..n], now, window);
      PruneIdempotent(entries[..n], now, window);
      PruneAppend(p, if now - entries[n].ts < window then [entries[n]] else [], now, window);
    }
  }

  /**
   * Pruning keeps the list's order: the kept entries of a concatenation are
   * those of its first part followed by those of its second.
   */
  lemma {:induction false} PruneAppend(a: seq<Entry>, b: seq<Entry>, now: int, window: int)
    ensures Prune(a + b, now, window) == Prune(a, now, window) + Prune(b, now, window)
    decreases |b|
  {
    if b == [] {
      assert a + b == a;
    } else {
      var n := |b| - 1;
      assert (a + b)[..|a + b| - 1] == a + b[..n];
      assert (a + b)[|a + b| - 1] == b[n];
      PruneAppend(a, b[..n], now, window);
    }
  }

  /** Bumping the last count raises the total by one. */
  lemma {:induction false} TotalBumpLast(entries: seq<Entry>)
    requires entries != []
    ensures var n := |entries| - 1;
      Total(entries[n := Entry(entries[n].ts, entries[n].count + 1)]) == Total(entries) + 1
  {
    var n := |entries| - 1;
    var bumped := entries[n := Entry(entries[n].ts, entries[n].count + 1)];
    assert bumped[..n] == entries[..n];
  }

  /** Whether `is_allowed` lets the call through, given the table before it. */
  predicate Admits(requests: map<string, seq<Entry>>, client: string, now: int, limit: int, window: int)
    ensures client !in requests ==> Admits(requests, client, now, limit, window)
  {
    client !in requests || Total(Prune(requests[client], now, window)) < limit
  }

  /** The client's list after the call, given the table before it. */
  function Recorded(requests: map<string, seq<Entry>>, client: string, now: int, limit: int, window: int): (r: seq<Entry>)
    ensures r != []  || (client in requests && Total(Prune(requests[client], now, window)) >= limit)
  {
    if client !in requests then [Entry(now, 1)]
    else
      var kept := Prune(requests[client], now, window);
      if Total(kept) >= limit then kept
      else if kept != [] then kept[|kept| - 1 := Entry(kept[|kept| - 1].ts, kept[|kept| - 1].count + 1)]
      else [Entry(now, 1)]
  }

  /** The first call from a client is allowed and records one request at `now`. */
  lemma FirstCall(requests: map<string, seq<Entry>>, client: string, now: int, limit: int, window: int)
    requires client !in requests
    ensures Admits(requests, client, now, limit, window)
    ensures Recorded(requests, client, now, limit, window) == [Entry(now, 1)]
  {
  }

  /**
   * A known client is denied exactly when its window total has reached the
   * limit, and a denial leaves only the pruned list behind.
   */
  lemma Denial(requests: map<string, seq<Entry>>, client: string, now: int, limit: int, window: int)
    requires client in requests
    ensures !Admits(requests, client, now, limit, window) <==> Total(Prune(requests[client], now, window)) >= limit
    ensures !Admits(requests, client, now, limit, window) ==>
      Recorded(requests, client, now, limit, window) == Prune(requests[client], now, window)
  {
  }

  /**
   * An allowed call from a known client adds one to the last kept entry,
   * keeping its timestamp, and starts a fresh entry only when nothing was
   * kept; either way the window total grows by exactly one and stays
   * within the limit.
   */
  lemma {:induction false} Admission(requests: map<string, seq<Entry>>, client: string, now: int, limit: int, window: int)
    requires client in requests && Admits(requests, client, now, limit, window)
    ensures var kept := Prune(requests[client], now, window);
      var r := Recorded(requests, client, now, limit, window);
      && (kept != [] ==> |r| == |kept| && r[..|r| - 1] == kept[..|kept| - 1]
                         && r[|r| - 1] == Entry(kept[|kept| - 1].ts, kept[|kept| - 1].count + 1))
      && (kept == [] ==> r == [Entry(now, 1)])
      && Total(r) == Total(kept) + 1 <= limit
  {
    var kept := Prune(requests[client], now, window);
    if kept != [] {
      TotalBumpLast(kept);
    }
  }

  /** A list of at most one entry stays that way. */
  lemma AtMostOneEntry(requests: map<string, seq<Entry>>, client: string, now: int, limit: int, window: int)
    requires client in requests ==> |requests[client]| <= 1
    ensures |Recorded(requests, client, now, limit, window)| <= 1
  {
  }

  /** Storing twice under one key keeps the second value. */
  lemma StoreTwice(m: map<string, seq<Entry>>, k: string, a: seq<Entry>, b: seq<Entry>)
    ensures m[k := a][k := b] == m[k := b]
  {
  }

  class RateLimiter {
    var limit: int
    var window: int
    var requests: map<string, seq<Entry>>

    /** Every client's list holds at most one entry. */
    ghost predicate Valid()
      reads this
    {
      forall c | c in requests :: |requests[c]| <= 1
    }

    /** `RateLimiter(limit=10, window=60)` with the defaults passed explicitly. */
    constructor(limit: int, window: int)
      ensures this.limit == limit && this.window == window && requests == map[]
      ensures Valid()
    {
      this.limit := limit;
      this.window := window;
      requests := map[];
    }

    /** `is_allowed`: prune the client's list, check the total, record the call. */
    method IsAllowed(client: string, now: int) returns (allowed: bool)
      modifies this
      ensures limit == old(limit) && window == old(window)
      ensures allowed == Admits(old(requests), client, now, limit, window)
      ensures requests == old(requests)[client := Recorded(old(requests), client, now, limit, window)]
      ensures old(Valid()) ==> Valid()
    {
      ghost var before := requests;
      ghost var recorded := Recorded(before, client, now, limit, window);
      if Valid() {
        AtMostOneEntry(before, client, now, limit, window);
      }
      if client !in requests {
        requests := requests[client := [Entry(now, 1)]];
        return true;
      }
      var entries := Prune(requests[client], now, window);
      requests := requests[client := entries];
      var totalRequests := Total(entries);
      if totalRequests >= limit {
        assert entries == recorded;
        return false;
      }
      if |entries| > 0 {
        var latest := entries[|entries| - 1];
        entries := entries[|entries| - 1 := Entry(latest.ts, latest.count + 1)];
      } else {
        entries := entries + [Entry(now, 1)];
        assert entries == [Entry(now, 1)];
      }
      assert entries == recorded;
      StoreTwice(before, client, Prune(before[client], now, window), entries);
      requests := requests[client := entries];
      return true;
    }
  }
}
