/**
 * The fixed-window rate limiter of the web app: a process-wide map from a key to
 * the number of calls seen in the current window and the instant the window
 * ends. `Date.now()` is passed in as `now`.
 */
module RateLimit {
  import opened Common

  /** What the limiter remembers for one key. */
  datatype Entry = Entry(count: int, resetAt: int)

  /** The answer to one call. */
  datatype Verdict = Verdict(allowed: bool, remaining: int, resetAt: int)

  /** A call finds no live window for its key: none was opened, or it has ended. */
  predicate Expired(entry: Option<Entry>, now: int) {
    entry.None? || entry.value.resetAt <= now
  }

  /**
   * One call against the entry it finds: the entry it leaves behind and the verdict.
   * A missing or ended window restarts at one call; a full window refuses; any other
   * window counts the call.
   */
  function Step(entry: Option<Entry>, limit: int, intervalMs: int, now: int): (r: (Entry, Verdict))
    ensures r.1.resetAt == r.0.resetAt
    ensures r.1.allowed ==> r.1.remaining == limit - r.0.count
    ensures !r.1.allowed ==> entry == Some(r.0) && r.1.remaining == 0
    ensures Expired(entry, now) ==> r.0 == Entry(1, now + intervalMs)
    ensures !Expired(entry, now) ==> r.0.resetAt == entry.value.resetAt
  {
    if Expired(entry, now) then
      var e := Entry(1, now + intervalMs);
      (e, Verdict(true, limit - 1, e.resetAt))
    else if entry.value.count >= limit then
      (entry.value, Verdict(false, 0, entry.value.resetAt))
    else
      var e := entry.value.(count := entry.value.count + 1);
      (e, Verdict(true, limit - e.count, e.resetAt))
  }

  /** A call is refused exactly when its window is live and already holds `limit` calls. */
  lemma StepAllowedIff(entry: Option<Entry>, limit: int, intervalMs: int, now: int)
    ensures !Step(entry, limit, intervalMs, now).1.allowed
        <==> !Expired(entry, now) && entry.value.count >= limit
  {
  }

  /** An allowed call in a live window adds exactly one to the count. */
  lemma StepCountsOne(entry: Option<Entry>, limit: int, intervalMs: int, now: int)
    requires !Expired(entry, now)
    ensures Step(entry, limit, intervalMs, now).1.allowed
        ==> Step(entry, limit, intervalMs, now).0 == entry.value.(count := entry.value.count + 1)
  {
  }

  /** A count that is positive and within the limit stays so, whatever the call. */
  predicate InBounds(e: Entry, limit: int) {
    1 <= e.count <= limit
  }

  lemma StepKeepsBound(entry: Option<Entry>, limit: int, intervalMs: int, now: int)
    requires limit >= 1
    requires entry.Some? ==> InBounds(entry.value, limit)
    ensures InBounds(Step(entry, limit, intervalMs, now).0, limit)
    ensures Step(entry, limit, intervalMs, now).1.remaining >= 0
  {
  }

  /** The entry the map holds for `key`, if any. */
  function Lookup(entries: map<string, Entry>, key: string): Option<Entry> {
    if key in entries then Some(entries[key]) else None
  }

  /**
   * How many of the calls made one after the other at the instants `times` are
   * allowed, starting from `entry`.
   */
  function AllowedCalls(entry: Option<Entry>, limit: int, intervalMs: int, times: seq<int>): (n: nat)
    ensures n <= |times|
    decreases |times|
  {
    if times == [] then 0
    else
      var (e, v) := Step(entry, limit, intervalMs, times[0]);
      (if v.allowed then 1 else 0) + AllowedCalls(Some(e), limit, intervalMs, times[1..])
  }

  /** Inside a live window that already holds `count` calls, at most `limit - count` more are allowed. */
  lemma {:induction false} LiveWindowAllows(e: Entry, limit: int, intervalMs: int, times: seq<int>)
    requires e.count <= limit
    requires forall i | 0 <= i < |times| :: times[i] < e.resetAt
    ensures AllowedCalls(Some(e), limit, intervalMs, times) <= limit - e.count
    decreases |times|
  {
    if times != [] {
      var (next, v) := Step(Some(e), limit, intervalMs, times[0]);
      LiveWindowAllows(next, limit, intervalMs, times[1..]);
    }
  }

  /**
   * A window opened by a call at `start` lets through at most `limit` calls before it
   * ends at `start + intervalMs`, in whatever order the later calls arrive.
   */
  lemma AtMostLimitPerWindow(entry: Option<Entry>, limit: int, intervalMs: int, start: int, later: seq<int>)
    requires limit >= 1
    requires Expired(entry, start)
    requires forall i | 0 <= i < |later| :: later[i] < start + intervalMs
    ensures AllowedCalls(entry, limit, intervalMs, [start] + later) <= limit
  {
    assert ([start] + later)[1..] == later;
    LiveWindowAllows(Entry(1, start + intervalMs), limit, intervalMs, later);
  }

  /** The module-level store of windows. */
  class Limiter {
    var entries: map<string, Entry>

    /** Every stored window holds at least one and at most `limit` calls. */
    predicate Valid(limit: int)
      reads this
    {
      forall k | k in entries :: InBounds(entries[k], limit)
    }

    constructor()
      ensures entries == map[]
    {
      entries := map[];
    }

    /**
     * `checkRateLimit(key, {limit, intervalMs})` at instant `now`: only the entry of
     * `key` is read and only that entry may change.
     */
    method CheckRateLimit(key: string, limit: int, intervalMs: int, now: int) returns (verdict: Verdict)
      modifies this
      ensures key in entries
      ensures (entries[key], verdict) == Step(Lookup(old(entries), key), limit, intervalMs, now)
      ensures entries.Keys == old(entries).Keys + {key}
      ensures forall k | k in old(entries) && k != key :: entries[k] == old(entries)[k]
      ensures limit >= 1 && old(Valid(limit)) ==> Valid(limit)
    {
      if key !in entries || entries[key].resetAt <= now {
        var resetAt := now + intervalMs;
        entries := entries[key := Entry(1, resetAt)];
        return Verdict(true, limit - 1, resetAt);
      }
      var entry := entries[key];
      if entry.count >= limit {
        return Verdict(false, 0, entry.resetAt);
      }
      entry := entry.(count := entry.count + 1);
      entries := entries[key := entry];
      verdict := Verdict(true, limit - entry.count, entry.resetAt);
    }
  }
}
