/** How far clients' clocks may be off before the expiry of a Redis key shows: half a window is
    the exact threshold. */
module ExpiryThreshold {
  import opened SlidingWindow
  import opened WindowTheorems
  import opened Text
  import opened RedisWindow
  import opened RedisStore
  import opened RedisTheorems
  import opened RedisReach

  /** The server's clock does not go back and every client's is within e nanoseconds of it. */
  ghost predicate WithinError(tries: seq<Try>, e: int) {
    && (forall i, j :: 0 <= i < j < |tries| ==> tries[i].server <= tries[j].server)
    && (forall i :: 0 <= i < |tries| ==> -e <= tries[i].now - tries[i].server <= e)
  }

  predicate EndsInHit(calls: seq<Call>) {
    calls != [] && calls[|calls| - 1].Hit?
  }

  /** The answer to the last call on the keyspace, where keys expire. */
  predicate Answered(key: string, rule: Rule, calls: seq<Call>)
    requires EndsInHit(calls)
  {
    AllowRedis(KeyspaceAfter(key, rule, calls[..|calls| - 1]), key, rule, calls[|calls| - 1].t).1
  }

  /** No run within that error has an answer that a key which never expires would not give. */
  ghost predicate ExpiryHidden(key: string, rule: Rule, e: int) {
    forall calls :: EndsInHit(calls) && WithinError(TriesSince(calls), e) ==>
      (Answered(key, rule, calls) <==> Grants(rule, TriesSince(calls)))
  }

  lemma SmallErrorHides(key: string, rule: Rule, e: int, calls: seq<Call>)
    requires rule.window >= NANOS_PER_MILLI && 2 * e <= rule.window
    requires EndsInHit(calls) && WithinError(TriesSince(calls), e)
    ensures Answered(key, rule, calls) <==> Grants(rule, TriesSince(calls))
  {
    forall i | 0 <= i < |TriesSince(calls)| ensures Near(TriesSince(calls)[i], rule.window) {
    }
    ExpiryUnobservable(key, rule, calls);
  }

  // ---- One nanosecond more shows ----

  /** `limit` attempts of clients half a window fast. */
  function EarlyRun(rule: Rule, half: int): seq<Try>
    requires Working(rule)
  {
    seq(rule.limit, i requires 0 <= i < rule.limit => Try(0, i, -half))
  }

  /** One attempt of a slow client at the moment the key expires. */
  function AtExpiry(rule: Rule, half: int): Try
    requires Working(rule)
  {
    Try(rule.window - 1, rule.limit, rule.window * 2 - half)
  }

  lemma ShowShape(rule: Rule, half: int, e: int)
    requires Working(rule) && rule.window == 2 * half && e > half
    ensures var early, t := EarlyRun(rule, half), AtExpiry(rule, half);
      && WithinError(early + [t], e) && ClocksClose(early, rule.window)
      && DistinctMembers(early + [t]) && Sorted(Nows(early + [t]))
  {
    var run := EarlyRun(rule, half) + [AtExpiry(rule, half)];
    forall i, j | 0 <= i < j < |run| ensures MemberOf(run[i]) != MemberOf(run[j]) {
      assert run[i].suffix == i && run[j].suffix == j;
      MemberInjective(Stamp(run[i].now), i, Stamp(run[j].now), j);
    }
  }

  lemma JustBefore(q: int)
    ensures Stamp(q * NANOS_PER_MILLI - 1) == q - 1
  {
  }

  lemma WholeMultiple(window: int)
    requires window % NANOS_PER_MILLI == 0
    ensures window == window / NANOS_PER_MILLI * NANOS_PER_MILLI
  {
  }

  lemma ShowTimes(window: int, half: int)
    requires window > 0 && window % NANOS_PER_MILLI == 0 && half == window / 2
    ensures window == 2 * half && Stamp(0) == 0 && Stamp(window - 1) == window / NANOS_PER_MILLI - 1
  {
    WholeMultiple(window);
    WholeIsEven(window / NANOS_PER_MILLI, window);
    JustBefore(window / NANOS_PER_MILLI);
    StampOfWhole(0);
  }

  /** A key that never expired would still hold the `limit` attempts. */
  lemma NeverExpiredDenies(rule: Rule, half: int, e: int)
    requires Working(rule) && rule.window == 2 * half && e > half
    requires Stamp(0) == 0 && Stamp(rule.window - 1) == WindowMillis(rule) - 1
    ensures !Grants(rule, EarlyRun(rule, half) + [AtExpiry(rule, half)])
  {
    var run := EarlyRun(rule, half) + [AtExpiry(rule, half)];
    ShowShape(rule, half, e);
    assert run[0].now == 0 && run[rule.limit].now == rule.window - 1;
    ClosedForm(rule, run);
  }

  /** The key that did expire lets the attempt through. */
  lemma ExpiredGrants(key: string, rule: Rule, half: int, e: int)
    requires Working(rule) && rule.window == 2 * half && e > half && rule.window >= NANOS_PER_MILLI
    ensures AllowRedis(KeyspaceAfter(key, rule, HitAll(EarlyRun(rule, half))), key, rule, AtExpiry(rule, half)).1
  {
    var early, t := EarlyRun(rule, half), AtExpiry(rule, half);
    var ks := KeyspaceAfter(key, rule, HitAll(early));
    ShowShape(rule, half, e);
    HitAllTries(early);
    ExpiryUnobservable(key, rule, HitAll(early));
    assert early[|early| - 1].server == -half;
    assert LiveScores(EntryOf(ks, key), t.server) == map[];
    AllowLeaves(ks, key, rule, t, Touch(map[], rule.window, t));
    TouchGrowsByOne(map[], rule.window, t);
  }

  lemma LargeErrorShows(key: string, rule: Rule, e: int, half: int)
    requires Working(rule) && rule.window >= NANOS_PER_MILLI && rule.window == 2 * half && e > half
    requires Stamp(0) == 0 && Stamp(rule.window - 1) == WindowMillis(rule) - 1
    ensures !ExpiryHidden(key, rule, e)
  {
    var early, t := EarlyRun(rule, half), AtExpiry(rule, half);
    var calls := HitAll(early + [t]);
    ShowShape(rule, half, e);
    NeverExpiredDenies(rule, half, e);
    ExpiredGrants(key, rule, half, e);
    HitAllTries(early + [t]);
    assert calls[..|calls| - 1] == HitAll(early) && calls[|calls| - 1] == Hit(t);
  }

  /** For windows of whole milliseconds the expiry of keys never shows in an answer if and only
      if every client's clock is within half a window of the server's. */
  lemma ThresholdIsHalfAWindow(key: string, rule: Rule, e: int)
    requires Working(rule) && rule.window % NANOS_PER_MILLI == 0
    ensures ExpiryHidden(key, rule, e) <==> 2 * e <= rule.window
  {
    var half := rule.window / 2;
    ShowTimes(rule.window, half);
    if 2 * e <= rule.window {
      forall calls | EndsInHit(calls) && WithinError(TriesSince(calls), e)
        ensures Answered(key, rule, calls) <==> Grants(rule, TriesSince(calls))
      {
        SmallErrorHides(key, rule, e, calls);
      }
    } else {
      LargeErrorShows(key, rule, e, half);
    }
  }
}
