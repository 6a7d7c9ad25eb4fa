/** The two stores behind one port, on the same attempts: Redis also counts the attempts it
    denied, so it denies more. When exactly, for which windows, and for how long. */
module StoreComparison {
  import opened SlidingWindow
  import opened WindowTheorems
  import opened Text
  import opened RedisWindow
  import opened RedisStore
  import opened RedisTheorems

  lemma CountAttempt(rule: Rule, nows: seq<int>, lo: int, hi: int)
    requires nows != []
    ensures var before, n := nows[..|nows| - 1], nows[|nows| - 1];
      && CountIn(Stamps(nows), lo, hi) == CountIn(Stamps(before), lo, hi) + (if lo <= Stamp(n) < hi then 1 else 0)
      && CountIn(Stamps(Admitted(rule, nows)), lo, hi)
         == CountIn(Stamps(Admitted(rule, before)), lo, hi) + (if AdmitsLast(rule, nows) && lo <= Stamp(n) < hi then 1 else 0)
  {
    var before, n := nows[..|nows| - 1], nows[|nows| - 1];
    assert Stamps(nows) == Stamps(before) + [Stamp(n)];
    CountPush(Stamps(before), Stamp(n), lo, hi);
    CountPush(Stamps(Admitted(rule, before)), Stamp(n), lo, hi);
    if AdmitsLast(rule, nows) {
      assert Stamps(Admitted(rule, nows)) == Stamps(Admitted(rule, before)) + [Stamp(n)];
    }
  }

  lemma {:induction false} AdmittedAreFew(rule: Rule, nows: seq<int>, lo: int, hi: int)
    ensures CountIn(Stamps(Admitted(rule, nows)), lo, hi) <= CountIn(Stamps(nows), lo, hi)
  {
    if nows != [] {
      AdmittedAreFew(rule, nows[..|nows| - 1], lo, hi);
      CountAttempt(rule, nows, lo, hi);
    }
  }

  /** The Redis decision by what was recorded before in the attempt's own window. */
  lemma RecordedClosedForm(rule: Rule, tries: seq<Try>, lo: int, hi: int)
    requires Working(rule) && tries != [] && Sorted(Nows(tries)) && DistinctMembers(tries)
    requires LastWindow(rule, tries, lo, hi) && lo < hi
    ensures Grants(rule, tries) <==> CountIn(Recorded(tries[..|tries| - 1]), lo, hi) < rule.limit
  {
    OrderedSize(rule, tries, lo, hi);
    RecordedPush(tries);
    CountPush(Recorded(tries[..|tries| - 1]), Stamp(tries[|tries| - 1].now), lo, hi);
  }

  lemma WholeCut(n: int, rule: Rule)
    requires rule.window > 0 && rule.window % NANOS_PER_MILLI == 0
    ensures Cut(n, rule.window) == Stamp(n) - WindowMillis(rule) && WindowMillis(rule) >= 1
  {
  }

  /** And the in-memory decision by what was admitted before in the same window. */
  lemma AdmittedClosedForm(rule: Rule, tries: seq<Try>, lo: int, hi: int)
    requires Working(rule) && rule.window % NANOS_PER_MILLI == 0
    requires tries != [] && Sorted(Nows(tries)) && LastWindow(rule, tries, lo, hi)
    ensures AdmitsLast(rule, Nows(tries)) <==> CountIn(Stamps(Admitted(rule, Nows(tries[..|tries| - 1]))), lo, hi) < rule.limit
  {
    RecordedPush(tries);
    WholeCut(tries[|tries| - 1].now, rule);
    InMemoryClosedForm(rule, Nows(tries[..|tries| - 1]), tries[|tries| - 1].now, lo, hi);
  }

  /** Exactly when the two stores decide differently. On the same attempts in time order, with
      distinct members and a whole-millisecond window: when the window of the attempt holds
      `limit` earlier attempts, but fewer than `limit` that the in-memory store admitted. */
  lemma DecisionsDiffer(rule: Rule, tries: seq<Try>, lo: int, hi: int)
    requires Working(rule) && rule.window % NANOS_PER_MILLI == 0
    requires tries != [] && Sorted(Nows(tries)) && DistinctMembers(tries) && LastWindow(rule, tries, lo, hi)
    ensures var before := tries[..|tries| - 1];
      AdmitsLast(rule, Nows(tries)) != Grants(rule, tries)
      <==> CountIn(Recorded(before), lo, hi) >= rule.limit > CountIn(Stamps(Admitted(rule, Nows(before))), lo, hi)
  {
    WholeCut(tries[|tries| - 1].now, rule);
    AdmittedClosedForm(rule, tries, lo, hi);
    RecordedClosedForm(rule, tries, lo, hi);
    AdmittedAreFew(rule, Nows(tries[..|tries| - 1]), lo, hi);
  }

  /** Pointwise domination: then it is Redis that denies. What it grants the in-memory store
      admits. */
  lemma Domination(rule: Rule, tries: seq<Try>)
    requires Working(rule) && rule.window % NANOS_PER_MILLI == 0
    requires tries != [] && Sorted(Nows(tries)) && DistinctMembers(tries)
    requires Grants(rule, tries)
    ensures AdmitsLast(rule, Nows(tries))
  {
    var n := tries[|tries| - 1].now;
    var lo, hi := Stamp(n) - WindowMillis(rule) + 1, Stamp(n) + 1;
    WholeCut(n, rule);
    DecisionsDiffer(rule, tries, lo, hi);
    RecordedClosedForm(rule, tries, lo, hi);
  }

  // ---- Whole histories ----

  /** The same calls on an in-memory bucket. */
  function InMemory(rule: Rule, calls: seq<Call>): seq<BucketOp> {
    if calls == [] then []
    else
      InMemory(rule, calls[..|calls| - 1])
      + [match calls[|calls| - 1] case Hit(t) => Attempt(rule, t.now) case Wipe => Clear]
  }

  lemma {:induction false} SameSince(rule: Rule, calls: seq<Call>)
    ensures FixedRule(InMemory(rule, calls), rule)
    ensures Since(InMemory(rule, calls)) == Nows(TriesSince(calls))
  {
    if calls != [] {
      var before, ops := calls[..|calls| - 1], InMemory(rule, calls);
      SameSince(rule, before);
      assert ops[..|ops| - 1] == InMemory(rule, before);
    }
  }

  lemma NextDecision(rule: Rule, tries: seq<Try>, t: Try, times: seq<int>)
    requires times == TimesAfter(rule, Nows(tries))
    ensures Admit(times, rule, t.now).ok == AdmitsLast(rule, Nows(tries + [t]))
  {
    assert Nows(tries + [t]) == Nows(tries) + [t.now];
    AttemptUnfold(rule, Nows(tries), t.now);
  }

  /** The in-memory decision on one more attempt, from the attempts since the last reset. */
  lemma InMemoryDecision(rule: Rule, calls: seq<Call>, t: Try)
    ensures Admit(Replay(InMemory(rule, calls)), rule, t.now).ok == AdmitsLast(rule, Nows(TriesSince(calls) + [t]))
  {
    SameSince(rule, calls);
    ReplaySince(InMemory(rule, calls), rule);
    NextDecision(rule, TriesSince(calls), t, TimesAfter(rule, Nows(TriesSince(calls))));
  }

  /** Domination over whole histories, with resets and with expiry: when the Redis store, its
      clocks within half a window, lets an attempt through, the in-memory store that has seen
      the same calls lets it through. */
  lemma DominationOverHistories(key: string, rule: Rule, calls: seq<Call>, t: Try)
    requires Working(rule) && rule.window % NANOS_PER_MILLI == 0
    requires var tries := TriesSince(calls) + [t];
      ClocksClose(tries, rule.window) && Sorted(Nows(tries)) && DistinctMembers(tries)
    ensures AllowRedis(KeyspaceAfter(key, rule, calls), key, rule, t).1
      ==> Admit(Replay(InMemory(rule, calls)), rule, t.now).ok
  {
    var tries := TriesSince(calls);
    ClosePrefix(tries, t, rule.window);
    ExpiryUnobservable(key, rule, calls);
    HitUnobservable(key, rule, tries, t);
    InMemoryDecision(rule, calls, t);
    if Grants(rule, tries + [t]) {
      Domination(rule, tries + [t]);
    }
  }

  /** The exact condition over whole histories: what was attempted and what was admitted in
      memory since the last reset, inside the window of the attempt. */
  lemma HistoriesDiffer(key: string, rule: Rule, calls: seq<Call>, t: Try, lo: int, hi: int)
    requires Working(rule) && rule.window % NANOS_PER_MILLI == 0
    requires var tries := TriesSince(calls) + [t];
      ClocksClose(tries, rule.window) && Sorted(Nows(tries)) && DistinctMembers(tries) && LastWindow(rule, tries, lo, hi)
    ensures AllowRedis(KeyspaceAfter(key, rule, calls), key, rule, t).1 != Admit(Replay(InMemory(rule, calls)), rule, t.now).ok
       <==> CountIn(Recorded(TriesSince(calls)), lo, hi) >= rule.limit
            > CountIn(Stamps(Admitted(rule, Nows(TriesSince(calls)))), lo, hi)
  {
    var tries := TriesSince(calls);
    ClosePrefix(tries, t, rule.window);
    ExpiryUnobservable(key, rule, calls);
    HitUnobservable(key, rule, tries, t);
    InMemoryDecision(rule, calls, t);
    KeptPush(rule, tries, t);
    DecisionsDiffer(rule, tries + [t], lo, hi);
  }

  // ---- For which windows the stores ever differ ----

  ghost predicate Ordered(tries: seq<Try>) {
    tries != [] && Sorted(Nows(tries)) && DistinctMembers(tries)
  }

  /** The stores decide alike on every ordered run. */
  ghost predicate AlwaysAgree(rule: Rule) {
    forall tries :: Ordered(tries) ==> (AdmitsLast(rule, Nows(tries)) <==> Grants(rule, tries))
  }

  /** What was attempted at stamp s was admitted, or as many as fit. */
  predicate FillsUp(stamps: seq<int>, log: seq<int>, s: int, limit: int) {
    CountIn(stamps, s, s + 1) <= CountIn(log, s, s + 1) || CountIn(log, s, s + 1) >= limit
  }

  lemma FillStep(stamps: seq<int>, log: seq<int>, y: int, ok: bool, s: int, limit: int)
    requires FillsUp(stamps, log, s, limit) && (s == y ==> (ok <==> CountIn(log, s, s + 1) < limit))
    ensures FillsUp(stamps + [y], if ok then log + [y] else log, s, limit)
  {
    CountPush(stamps, y, s, s + 1);
    CountPush(log, y, s, s + 1);
  }

  lemma StampsOfMore(rule: Rule, nows: seq<int>, n: int)
    ensures Stamps(nows + [n]) == Stamps(nows) + [Stamp(n)]
    ensures Stamps(Admitted(rule, nows + [n]))
         == if AdmitsLast(rule, nows + [n]) then Stamps(Admitted(rule, nows)) + [Stamp(n)] else Stamps(Admitted(rule, nows))
  {
    AttemptUnfold(rule, nows, n);
  }

  lemma OneMilliDecision(rule: Rule, nows: seq<int>, n: int, s: int)
    requires Working(rule) && rule.window == NANOS_PER_MILLI && Sorted(nows + [n])
    ensures s == Stamp(n) ==>
      (AdmitsLast(rule, nows + [n]) <==> CountIn(Stamps(Admitted(rule, nows)), s, s + 1) < rule.limit)
  {
    WholeCut(n, rule);
    if s == Stamp(n) {
      InMemoryClosedForm(rule, nows, n, s, s + 1);
    }
  }

  lemma FillsOn(rule: Rule, nows: seq<int>, n: int, s: int, stamps: seq<int>, log: seq<int>)
    requires Working(rule) && rule.window == NANOS_PER_MILLI && Sorted(nows + [n])
    requires stamps == Stamps(nows) && log == Stamps(Admitted(rule, nows)) && FillsUp(stamps, log, s, rule.limit)
    ensures FillsUp(Stamps(nows + [n]), Stamps(Admitted(rule, nows + [n])), s, rule.limit)
  {
    OneMilliDecision(rule, nows, n, s);
    FillStep(stamps, log, Stamp(n), AdmitsLast(rule, nows + [n]), s, rule.limit);
    StampsOfMore(rule, nows, n);
  }

  /** A window of one millisecond fills up before anyone is denied. */
  lemma {:induction false} OneMilliFills(rule: Rule, nows: seq<int>, s: int)
    requires Working(rule) && rule.window == NANOS_PER_MILLI && Sorted(nows)
    ensures FillsUp(Stamps(nows), Stamps(Admitted(rule, nows)), s, rule.limit)
  {
    if nows == [] {
      assert Stamps(nows) == [];
    } else {
      var before, n := nows[..|nows| - 1], nows[|nows| - 1];
      assert before + [n] == nows;
      OneMilliFills(rule, before, s);
      FillsOn(rule, before, n, s, Stamps(before), Stamps(Admitted(rule, before)));
    }
  }

  predicate FullAbove(times: seq<int>, limit: int, cut: int) {
    |times| == limit && forall i :: 0 <= i < |times| ==> times[i] > cut
  }

  lemma FullDenies(rule: Rule, nows: seq<int>, n: int, times: seq<int>)
    requires Working(rule) && times == TimesAfter(rule, nows) && FullAbove(times, rule.limit, Cut(n, rule.window))
    ensures TimesAfter(rule, nows + [n]) == times && Admitted(rule, nows + [n]) == Admitted(rule, nows)
  {
    AttemptUnfold(rule, nows, n);
    assert Live(times, Cut(n, rule.window)) == times;
  }

  /** A full bucket denies any number of attempts that reach back to none of its entries. */
  lemma {:induction false} DeniedRun(rule: Rule, nows: seq<int>, n: int, k: nat, times: seq<int>)
    requires Working(rule) && times == TimesAfter(rule, nows) && FullAbove(times, rule.limit, Cut(n, rule.window))
    ensures Admitted(rule, nows + seq(k, _ => n)) == Admitted(rule, nows) && TimesAfter(rule, nows + seq(k, _ => n)) == times
  {
    if k == 0 {
      assert nows + seq(k, _ => n) == nows;
    } else {
      DeniedRun(rule, nows, n, k - 1, times);
      OneMore(nows, n, k);
      FullDenies(rule, nows + seq(k - 1, _ => n), n, times);
    }
  }

  /** Both lots and one more attempt, at the moment the first lot leaves the window. */
  function TwoBursts(rule: Rule, second: nat, last: nat): seq<Try>
    requires Working(rule)
  {
    seq(rule.limit, i requires 0 <= i < rule.limit => Try(0, i, 0))
    + seq(rule.limit, i requires 0 <= i < rule.limit => Try(second, rule.limit + i, second))
    + [Try(last, 2 * rule.limit, last)]
  }

  lemma TwoBurstsShape(rule: Rule, second: nat, last: nat)
    requires Working(rule) && second <= last
    ensures var run := TwoBursts(rule, second, last);
      && DistinctMembers(run) && Sorted(Nows(run)) && |run| == 2 * rule.limit + 1 && run[|run| - 1].now == last
      && Nows(run[..|run| - 1]) == seq(rule.limit, _ => 0) + seq(rule.limit, _ => second)
  {
    var run := TwoBursts(rule, second, last);
    forall i, j | 0 <= i < j < |run| ensures MemberOf(run[i]) != MemberOf(run[j]) {
      assert run[i].suffix == i && run[j].suffix == j;
      MemberInjective(Stamp(run[i].now), i, Stamp(run[j].now), j);
    }
  }

  lemma TwoBurstsTimes(window: int, second: int)
    requires window > NANOS_PER_MILLI && window % NANOS_PER_MILLI == 0 && second == window - NANOS_PER_MILLI
    ensures 0 < second && Stamp(0) == 0 && Stamp(second) == window / NANOS_PER_MILLI - 1 >= 1
    ensures Cut(0, window) < 0 && Cut(second, window) < 0 && Stamp(window) == window / NANOS_PER_MILLI
  {
  }

  /** `limit` attempts at one moment and as many again before the window has passed: the
      in-memory store denies the second lot and keeps only the first. */
  lemma OnlyFirstBurst(rule: Rule, second: int, log: seq<int>)
    requires Working(rule) && Stamp(0) == 0 && Cut(0, rule.window) < 0 && Cut(second, rule.window) < 0
    requires log == Admitted(rule, seq(rule.limit, _ => 0) + seq(rule.limit, _ => second))
    ensures forall i :: 0 <= i < |log| ==> log[i] == 0
  {
    var burst := seq(rule.limit, _ => 0);
    Burst(rule, 0, rule.limit);
    DeniedRun(rule, burst, second, rule.limit, TimesAfter(rule, burst));
  }

  lemma TwoBurstsCounts(limit: nat, w: int, stamps: seq<int>, log: seq<int>)
    requires w >= 2 && |stamps| == 2 * limit && forall i :: limit <= i < 2 * limit ==> stamps[i] == w - 1
    requires forall i :: 0 <= i < |log| ==> log[i] == 0
    ensures CountIn(stamps, 1, w + 1) >= limit && CountIn(log, 1, w + 1) == 0
  {
    CountNone(log, 1, w + 1);
    CountAll(stamps[limit..], 1, w + 1);
    CountTail(stamps, limit, 1, w + 1);
  }

  lemma CountsDecide(rule: Rule, run: seq<Try>, nows: seq<int>, lo: int, hi: int)
    requires Working(rule) && rule.window % NANOS_PER_MILLI == 0 && Ordered(run) && LastWindow(rule, run, lo, hi)
    requires nows == Nows(run[..|run| - 1])
    requires CountIn(Stamps(nows), lo, hi) >= rule.limit && CountIn(Stamps(Admitted(rule, nows)), lo, hi) == 0
    ensures AdmitsLast(rule, Nows(run)) != Grants(rule, run)
  {
    DecisionsDiffer(rule, run, lo, hi);
  }

  lemma BurstCounts(rule: Rule, second: int, w: int, nows: seq<int>, stamps: seq<int>, log: seq<int>)
    requires Working(rule) && nows == seq(rule.limit, _ => 0) + seq(rule.limit, _ => second)
    requires Stamp(0) == 0 && Stamp(second) == w - 1 >= 1 && Cut(0, rule.window) < 0 && Cut(second, rule.window) < 0
    requires stamps == Stamps(nows) && log == Stamps(Admitted(rule, nows))
    ensures CountIn(stamps, 1, w + 1) >= rule.limit && CountIn(log, 1, w + 1) == 0
  {
    OnlyFirstBurst(rule, second, Admitted(rule, nows));
    TwoBurstsCounts(rule.limit, w, stamps, log);
  }

  lemma TwoBurstsDiffer(rule: Rule, second: nat, last: nat, w: int, run: seq<Try>)
    requires Working(rule) && rule.window % NANOS_PER_MILLI == 0 && second <= last && w == WindowMillis(rule)
    requires Stamp(0) == 0 && Stamp(second) == w - 1 >= 1 && Stamp(last) == w
    requires Cut(0, rule.window) < 0 && Cut(second, rule.window) < 0
    requires run == TwoBursts(rule, second, last)
    ensures Ordered(run) && AdmitsLast(rule, Nows(run)) != Grants(rule, run)
  {
    TwoBurstsShape(rule, second, last);
    var nows := Nows(run[..|run| - 1]);
    BurstCounts(rule, second, w, nows, Stamps(nows), Stamps(Admitted(rule, nows)));
    CountsDecide(rule, run, nows, 1, w + 1);
  }

  /** The converse of domination fails for every longer window and every limit: a caller who
      keeps trying is kept out of Redis by its own denied attempts. */
  lemma DominationIsStrict(rule: Rule)
    requires Working(rule) && rule.window > NANOS_PER_MILLI && rule.window % NANOS_PER_MILLI == 0
    ensures exists tries :: Ordered(tries) && AdmitsLast(rule, Nows(tries)) && !Grants(rule, tries)
  {
    var second := rule.window - NANOS_PER_MILLI;
    TwoBurstsTimes(rule.window, second);
    var run := TwoBursts(rule, second, rule.window);
    TwoBurstsDiffer(rule, second, rule.window, WindowMillis(rule), run);
    if Grants(rule, run) {
      Domination(rule, run);
    }
  }

  /** Among windows of whole milliseconds the stores agree on every run for one millisecond
      only. */
  lemma AgreeOnlyAtOneMilli(rule: Rule)
    requires Working(rule) && rule.window % NANOS_PER_MILLI == 0
    ensures AlwaysAgree(rule) <==> rule.window == NANOS_PER_MILLI
  {
    if rule.window == NANOS_PER_MILLI {
      forall tries | Ordered(tries)
        ensures AdmitsLast(rule, Nows(tries)) <==> Grants(rule, tries)
      {
        OneMilliAgrees(rule, tries);
      }
    } else {
      DominationIsStrict(rule);
    }
  }

  lemma OneMilliAgrees(rule: Rule, tries: seq<Try>)
    requires Working(rule) && rule.window == NANOS_PER_MILLI
    requires tries != [] && Sorted(Nows(tries)) && DistinctMembers(tries)
    ensures AdmitsLast(rule, Nows(tries)) <==> Grants(rule, tries)
  {
    var before, s := tries[..|tries| - 1], Stamp(tries[|tries| - 1].now);
    RecordedPush(tries);
    SortedStamps(Nows(before), tries[|tries| - 1].now);
    OneMilliFills(rule, Nows(before), s);
    DecisionsDiffer(rule, tries, s, s + 1);
  }

  // ---- For how long ----

  /** Once `limit` attempts have been made, attempts that keep coming less than a window after
      the one `limit` places earlier are denied for as long as they last. */
  lemma Lockout(rule: Rule, tries: seq<Try>)
    requires Working(rule) && Sorted(Nows(tries)) && DistinctMembers(tries) && |tries| > rule.limit
    requires forall k :: rule.limit <= k < |tries| ==>
      Stamp(tries[k].now) - Stamp(tries[k - rule.limit].now) < WindowMillis(rule)
    ensures forall k :: rule.limit < k <= |tries| ==> !Grants(rule, tries[..k])
  {
    forall k | rule.limit < k <= |tries| ensures !Grants(rule, tries[..k]) {
      forall i, j | 0 <= i < j < k ensures Nows(tries[..k])[i] <= Nows(tries[..k])[j] {
        assert Nows(tries)[i] <= Nows(tries)[j];
      }
      ClosedForm(rule, tries[..k]);
    }
  }
}
