/** What one in-memory bucket guarantees in real time. Readings are nanoseconds, but both the
    stamp and the cut are floored to milliseconds, and readings may lock the bucket out of
    order; the exact length of interval for which the limit then holds. */
module RealTimeTheorems {
  import opened SlidingWindow
  import opened WindowTheorems

  /** No reading is more than d nanoseconds later than one that locks the bucket after it. */
  ghost predicate Disordered(nows: seq<int>, d: int) {
    forall i, j :: 0 <= i < j < |nows| ==> nows[i] <= nows[j] + d
  }

  lemma SortedIsDisordered(nows: seq<int>)
    ensures Sorted(nows) <==> Disordered(nows, 0)
  {
  }

  /** The age an admission has reached for certain when it is dropped; one millisecond short of
      the window, both ends included. */
  function CertainAge(rule: Rule): int {
    rule.window - NANOS_PER_MILLI + 1
  }

  lemma DroppedAged(rule: Rule, nows: seq<int>, d: int, i: nat, x: int, last: int)
    requires Working(rule) && Disordered(nows, d) && d >= 0 && nows != [] && last == nows[|nows| - 1]
    requires i < Dropped(rule, nows) <= |Admitted(rule, nows)| && x == Admitted(rule, nows)[i]
    ensures x + CertainAge(rule) - d <= last
  {
    DroppedExpired(rule, nows, i);
    var k :| 0 <= k < |nows| && Stamp(x) <= Cut(nows[k], rule.window);
    ExpiredAge(x, nows[k], rule);
    assert nows[k] <= last + d;
  }

  lemma ExpiredAge(x: int, now: int, rule: Rule)
    requires Stamp(x) <= Cut(now, rule.window)
    ensures x + CertainAge(rule) <= now
  {
    AgeFromStamp(x, now, rule.window);
  }

  lemma AdmissionKeepsRealBound(rule: Rule, nows: seq<int>, d: int, log: seq<int>, length: int)
    requires Working(rule) && Disordered(nows, d) && d >= 0 && nows != [] && AdmitsLast(rule, nows)
    requires log == Admitted(rule, nows[..|nows| - 1]) && length == CertainAge(rule) - d
    requires BoundedIn(log, length, rule.limit)
    ensures BoundedIn(log + [nows[|nows| - 1]], length, rule.limit)
  {
    AdmissionRoom(rule, nows);
    forall i | 0 <= i < Dropped(rule, nows) ensures log[i] + length <= nows[|nows| - 1] {
      DroppedAged(rule, nows, d, i, log[i], nows[|nows| - 1]);
    }
    BoundStep(log, Dropped(rule, nows), nows[|nows| - 1], rule.limit, length);
  }

  /** In real time, for readings out of lock order by at most d nanoseconds, an interval one
      millisecond and d short of the window holds at most `limit` admissions. */
  lemma {:induction false} RealBound(rule: Rule, nows: seq<int>, d: int)
    requires Working(rule) && Disordered(nows, d) && d >= 0
    ensures BoundedIn(Admitted(rule, nows), CertainAge(rule) - d, rule.limit)
  {
    if nows != [] {
      var before := nows[..|nows| - 1];
      RealBound(rule, before, d);
      if AdmitsLast(rule, nows) {
        AdmissionKeepsRealBound(rule, nows, d, Admitted(rule, before), CertainAge(rule) - d);
      }
    }
  }

  // ---- A limit of one ----

  lemma LastRealSpacing(rule: Rule, n: int, times: seq<int>, log: seq<int>)
    requires Working(rule) && rule.limit == 1 && Admit(times, rule, n).ok
    requires times == if log == [] then [] else [Stamp(log[|log| - 1])]
    ensures log != [] ==> log[|log| - 1] + CertainAge(rule) <= n
  {
    if log != [] {
      ExpiredAge(log[|log| - 1], n, rule);
    }
  }

  lemma {:induction false} SingleRealSpacing(rule: Rule, nows: seq<int>)
    requires Working(rule) && rule.limit == 1 && CertainAge(rule) >= 0
    ensures Spaced(Admitted(rule, nows), CertainAge(rule))
  {
    if nows != [] {
      var before, n := nows[..|nows| - 1], nows[|nows| - 1];
      SingleRealSpacing(rule, before);
      if AdmitsLast(rule, nows) {
        OneHeld(rule, before);
        LastRealSpacing(rule, n, TimesAfter(rule, before), Admitted(rule, before));
        SpacedPush(Admitted(rule, before), n, CertainAge(rule));
      }
    }
  }

  // ---- How long an interval of real time may be ----

  /** The longest safe interval of real time. */
  function RealReach(rule: Rule, d: int): int {
    if rule.window < NANOS_PER_MILLI then 0
    else if rule.limit == 1 then CertainAge(rule)
    else if d < CertainAge(rule) then CertainAge(rule) - d
    else 0
  }

  /** The bound for every run of that disorder and every interval of the given length. */
  ghost predicate GuaranteesReal(rule: Rule, d: int, length: int) {
    forall nows :: Disordered(nows, d) ==> BoundedIn(Admitted(rule, nows), length, rule.limit)
  }

  lemma RealReachIsSafe(rule: Rule, nows: seq<int>, d: int, length: int)
    requires Working(rule) && d >= 0 && Disordered(nows, d) && length <= RealReach(rule, d)
    ensures BoundedIn(Admitted(rule, nows), length, rule.limit)
  {
    if length <= 0 {
      NoInterval(Admitted(rule, nows), length, rule.limit);
    } else if rule.limit == 1 {
      SingleRealSpacing(rule, nows);
      SpacedIsBounded(Admitted(rule, nows), CertainAge(rule));
    } else {
      RealBound(rule, nows, d);
    }
  }

  /** Exactly how long. For every rule and every disorder the intervals of real time that hold
      at most `limit` admissions on every run are those up to RealReach. In a sequential run
      rounding costs up to one millisecond of the window; each nanosecond of disorder costs one
      more, unless the limit is one. */
  lemma RealBoundIsExact(rule: Rule, d: int, length: int)
    requires Working(rule) && d >= 0
    ensures GuaranteesReal(rule, d, length) <==> length <= RealReach(rule, d)
  {
    if length <= RealReach(rule, d) {
      forall nows | Disordered(nows, d) ensures BoundedIn(Admitted(rule, nows), length, rule.limit) {
        RealReachIsSafe(rule, nows, d, length);
      }
    } else if rule.window < NANOS_PER_MILLI {
      CrowdBreaks(rule, d, length);
    } else if rule.limit == 1 {
      RoundedPairBreaks(rule, d, length);
    } else {
      RoundedRunBreaks(rule, d, length);
    }
  }

  lemma RoundedTimes(window: int, at: int)
    requires window >= NANOS_PER_MILLI && at == NANOS_PER_MILLI - 1
    ensures Cut(at, window) < Stamp(at) == 0 && Cut(window, window) == 0 && Stamp(window) >= 1
  {
  }

  lemma CutBefore(last: int, window: int)
    requires last <= window
    ensures Cut(last, window) <= 0
  {
  }

  /** A burst in the last nanosecond of a millisecond is forgotten a millisecond early. */
  lemma RoundedPairBreaks(rule: Rule, d: int, length: int)
    requires Working(rule) && rule.limit == 1 && rule.window >= NANOS_PER_MILLI && d >= 0 && length > CertainAge(rule)
    ensures !GuaranteesReal(rule, d, length)
  {
    var at := NANOS_PER_MILLI - 1;
    var run := seq(rule.limit, _ => at) + [rule.window];
    RoundedTimes(rule.window, at);
    BurstThenAdmits(rule, at, rule.window);
    OneTooMany(at, rule.window, rule.limit, length);
    assert Disordered(run, d);
  }

  lemma LateRunBreaksReal(rule: Rule, d: int, length: int, at: int, last: int)
    requires Working(rule) && rule.limit >= 2 && d >= 0 && at <= last <= rule.window <= last + d && last < at + length
    requires Cut(at, rule.window) < Stamp(at) <= Cut(rule.window, rule.window) && Cut(last, rule.window) < Stamp(rule.window)
    ensures !GuaranteesReal(rule, d, length)
  {
    LateRunAdmits(rule, at, rule.window, last);
    LateRunDisorder(rule, at, rule.window, last, d);
    LateRunCount(LateRun(rule, at, rule.window, last), rule.limit, at, length);
  }

  lemma RoundedRunBreaks(rule: Rule, d: int, length: int)
    requires Working(rule) && rule.limit >= 2 && rule.window >= NANOS_PER_MILLI && d >= 0 && length > RealReach(rule, d)
    ensures !GuaranteesReal(rule, d, length)
  {
    var at := NANOS_PER_MILLI - 1;
    var last := if d < CertainAge(rule) then rule.window - d else at;
    RoundedTimes(rule.window, at);
    CutBefore(last, rule.window);
    LateRunBreaksReal(rule, d, length, at, last);
  }

  lemma LateRunDisorder(rule: Rule, first: int, expirer: int, last: int, d: int)
    requires rule.limit >= 0 && d >= 0 && first <= last <= expirer <= last + d
    ensures Disordered(LateRun(rule, first, expirer, last), d)
  {
  }

  /** Below one millisecond an entry made in the last nanosecond of one is expired at once. */
  lemma {:induction false} NeverHeld(rule: Rule, at: int, n: nat)
    requires Working(rule) && Stamp(at) <= Cut(at, rule.window)
    ensures Admitted(rule, seq(n, _ => at)) == seq(n, _ => at)
    ensures TimesAfter(rule, seq(n, _ => at)) == if n == 0 then [] else [Stamp(at)]
  {
    if n > 0 {
      NeverHeld(rule, at, n - 1);
      OneMore([], at, n);
      OneMoreNeverHeld(rule, seq(n - 1, _ => at), at, TimesAfter(rule, seq(n - 1, _ => at)));
    }
  }

  lemma OneMoreNeverHeld(rule: Rule, nows: seq<int>, at: int, times: seq<int>)
    requires Working(rule) && times == TimesAfter(rule, nows)
    requires forall i :: 0 <= i < |times| ==> times[i] <= Cut(at, rule.window)
    ensures Admitted(rule, nows + [at]) == Admitted(rule, nows) + [at] && TimesAfter(rule, nows + [at]) == [Stamp(at)]
  {
    AttemptUnfold(rule, nows, at);
    AllExpired(rule, times, at);
  }

  lemma AllExpired(rule: Rule, times: seq<int>, n: int)
    requires Working(rule) && forall i :: 0 <= i < |times| ==> times[i] <= Cut(n, rule.window)
    ensures Admit(times, rule, n) == Outcome(true, [Stamp(n)])
  {
    assert Live(times, Cut(n, rule.window)) == [];
  }

  lemma CrowdBreaks(rule: Rule, d: int, length: int)
    requires Working(rule) && rule.window < NANOS_PER_MILLI && d >= 0 && length > 0
    ensures !GuaranteesReal(rule, d, length)
  {
    var at := NANOS_PER_MILLI - 1;
    var run := seq(rule.limit + 1, _ => at);
    assert Stamp(at) == 0 && Cut(at, rule.window) == 0;
    NeverHeld(rule, at, rule.limit + 1);
    OneMore([], at, rule.limit + 1);
    OneTooMany(at, at, rule.limit, length);
    assert Disordered(run, d);
  }
}
