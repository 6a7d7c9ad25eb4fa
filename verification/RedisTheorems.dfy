/** The expiry of a Redis bucket is never observed: a key behaves as if it were never deleted. */
module RedisTheorems {
  import opened Wrappers
  import opened SlidingWindow
  import opened WindowTheorems
  import opened RedisWindow
  import opened RedisStore

  /** What can be done to one bucket of either store. */
  datatype Call = Hit(t: Try) | Wipe

  /** The keyspace after calls on one key, expiry included. */
  function KeyspaceAfter(key: string, rule: Rule, calls: seq<Call>): Keyspace {
    if calls == [] then map[]
    else
      var before, last := KeyspaceAfter(key, rule, calls[..|calls| - 1]), calls[|calls| - 1];
      match last
      case Hit(t) => AllowRedis(before, key, rule, t).0
      case Wipe => ResetRedis(before, key)
  }

  /** The attempts since the last reset. */
  function TriesSince(calls: seq<Call>): seq<Try> {
    if calls == [] then []
    else
      match calls[|calls| - 1]
      case Hit(t) => TriesSince(calls[..|calls| - 1]) + [t]
      case Wipe => []
  }

  /** The server's clock does not go back, and every client's clock is within half a window
      of it. */
  ghost predicate ClocksClose(tries: seq<Try>, window: int) {
    && (forall i, j :: 0 <= i < j < |tries| ==> tries[i].server <= tries[j].server)
    && (forall i :: 0 <= i < |tries| ==> Near(tries[i], window))
  }

  predicate Near(t: Try, window: int) {
    -window <= 2 * (t.now - t.server) <= window
  }

  /** By the time a key expires, every score in its set is behind the next cut. */
  lemma ExpiredIsBehind(earlier: Try, t: Try, rule: Rule)
    requires rule.window > 0 && Near(earlier, rule.window) && Near(t, rule.window)
    requires t.server >= earlier.server + rule.window * 2
    ensures Stamp(earlier.now) <= Stamp(t.now) - WindowMillis(rule)
  {
    assert earlier.now <= t.now - rule.window;
    CutGap(t.now, rule);
  }

  lemma ExpiredScore(rule: Rule, tries: seq<Try>, t: Try, m: string)
    requires rule.window > 0 && tries != [] && ClocksClose(tries + [t], rule.window)
    requires t.server >= tries[|tries| - 1].server + rule.window * 2 && m in ScoresAfter(rule, tries)
    ensures 0 <= ScoresAfter(rule, tries)[m] <= Stamp(t.now) - WindowMillis(rule)
  {
    var all := tries + [t];
    ScoresAreStamps(rule, tries, m);
    var i :| 0 <= i < |tries| && MemberOf(tries[i]) == m && Stamp(tries[i].now) == ScoresAfter(rule, tries)[m];
    assert all[i] == tries[i] && all[|tries|] == t && all[|tries| - 1] == tries[|tries| - 1];
    assert all[i].server <= all[|tries| - 1].server;
    ExpiredIsBehind(tries[i], t, rule);
  }

  lemma ExpiredTouch(rule: Rule, tries: seq<Try>, t: Try)
    requires rule.window > 0 && tries != [] && ClocksClose(tries + [t], rule.window)
    requires t.server >= tries[|tries| - 1].server + rule.window * 2
    ensures Touch(ScoresAfter(rule, tries), rule.window, t) == Touch(map[], rule.window, t)
  {
    var scores := ScoresAfter(rule, tries);
    forall m | m in scores ensures 0 <= scores[m] <= Stamp(t.now) - WindowMillis(rule) {
      ExpiredScore(rule, tries, t, m);
    }
  }

  /** The key as it must be: the set that never expires, with the deadline of the last call. */
  function Kept(rule: Rule, tries: seq<Try>): Entry
    requires tries != []
  {
    Entry(ScoresAfter(rule, tries), Some(tries[|tries| - 1].server + rule.window * 2))
  }

  lemma KeptPush(rule: Rule, tries: seq<Try>, t: Try)
    ensures ScoresAfter(rule, tries + [t]) == Touch(ScoresAfter(rule, tries), rule.window, t)
    ensures (tries + [t])[..|tries|] == tries
  {
    assert (tries + [t])[..|tries|] == tries;
  }

  lemma LastScore(rule: Rule, scores: Scores, t: Try)
    requires rule.window >= NANOS_PER_MILLI
    ensures Touch(scores, rule.window, t) != map[]
  {
    assert MemberOf(t) in Touch(scores, rule.window, t);
  }

  function KeptEntry(rule: Rule, tries: seq<Try>): Option<Entry> {
    if tries == [] then None else Some(Kept(rule, tries))
  }

  function KeyspaceOf(key: string, rule: Rule, tries: seq<Try>): Keyspace {
    if tries == [] then map[] else map[key := Kept(rule, tries)]
  }

  /** Whether the key is still there or has just expired, the transaction leaves the same set. */
  lemma SameSet(rule: Rule, tries: seq<Try>, t: Try)
    requires rule.window >= NANOS_PER_MILLI && ClocksClose(tries + [t], rule.window)
    ensures Touch(LiveScores(KeptEntry(rule, tries), t.server), rule.window, t) == ScoresAfter(rule, tries + [t])
    ensures ScoresAfter(rule, tries + [t]) != map[]
  {
    KeptPush(rule, tries, t);
    LastScore(rule, ScoresAfter(rule, tries), t);
    if tries != [] && t.server >= Kept(rule, tries).deadline.value {
      ExpiredTouch(rule, tries, t);
    }
  }

  /** So one attempt gives the same key and the same answer. */
  lemma HitUnobservable(key: string, rule: Rule, tries: seq<Try>, t: Try)
    requires rule.window >= NANOS_PER_MILLI && ClocksClose(tries + [t], rule.window)
    ensures AllowRedis(KeyspaceOf(key, rule, tries), key, rule, t)
         == (KeyspaceOf(key, rule, tries + [t]), Grants(rule, tries + [t]))
  {
    var ks := KeyspaceOf(key, rule, tries);
    assert EntryOf(ks, key) == KeptEntry(rule, tries);
    SameSet(rule, tries, t);
    AllowStores(ks, key, rule, t, ScoresAfter(rule, tries + [t]));
    KeyspacePush(key, rule, tries, t);
  }

  lemma KeyspacePush(key: string, rule: Rule, tries: seq<Try>, t: Try)
    ensures KeyspaceOf(key, rule, tries + [t])
         == KeyspaceOf(key, rule, tries)[key := Entry(ScoresAfter(rule, tries + [t]), Some(t.server + rule.window * 2))]
  {
    assert (tries + [t])[|tries|] == t;
  }

  lemma ClosePrefix(tries: seq<Try>, t: Try, window: int)
    requires ClocksClose(tries + [t], window)
    ensures ClocksClose(tries, window)
  {
    forall i | 0 <= i < |tries| ensures Near(tries[i], window) && tries[i] == (tries + [t])[i] {
      assert Near((tries + [t])[i], window);
    }
  }

  lemma {:induction false} OnlyThatKey(key: string, rule: Rule, calls: seq<Call>)
    ensures KeyspaceAfter(key, rule, calls).Keys <= {key}
  {
    if calls != [] {
      OnlyThatKey(key, rule, calls[..|calls| - 1]);
    }
  }

  /** Expiry is unobservable. With every client within half a window of the server's clock,
      after each call the key holds exactly what it would hold had it never expired, and each
      decision is the one the set that never expires gives. */
  lemma {:induction false} ExpiryUnobservable(key: string, rule: Rule, calls: seq<Call>)
    requires rule.window >= NANOS_PER_MILLI && ClocksClose(TriesSince(calls), rule.window)
    ensures KeyspaceAfter(key, rule, calls) == KeyspaceOf(key, rule, TriesSince(calls))
    ensures calls != [] && calls[|calls| - 1].Hit? ==>
      AllowRedis(KeyspaceAfter(key, rule, calls[..|calls| - 1]), key, rule, calls[|calls| - 1].t).1
      == Grants(rule, TriesSince(calls))
  {
    if calls != [] {
      var before, last := calls[..|calls| - 1], calls[|calls| - 1];
      if last.Hit? {
        ClosePrefix(TriesSince(before), last.t, rule.window);
        ExpiryUnobservable(key, rule, before);
        HitUnobservable(key, rule, TriesSince(before), last.t);
      } else {
        OnlyThatKey(key, rule, before);
      }
    }
  }
}
