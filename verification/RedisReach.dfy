/** For how long an interval the bound over many instances holds: exactly as for the in-memory
    store, the full window for a limit of one and otherwise the window less the skew. */
module RedisReach {
  import opened SlidingWindow
  import opened WindowTheorems
  import opened Text
  import opened RedisWindow
  import opened RedisStore
  import opened RedisTheorems

  // ---- A limit of one ----

  lemma {:induction false} Latest(tries: seq<Try>) returns (m: nat)
    requires tries != []
    ensures m < |tries| && forall i :: 0 <= i < |tries| ==> Stamp(tries[i].now) <= Stamp(tries[m].now)
  {
    m := |tries| - 1;
    if |tries| > 1 {
      var k := Latest(tries[..m]);
      assert forall i :: 0 <= i < m ==> tries[..m][i] == tries[i];
      if Stamp(tries[k].now) > Stamp(tries[m].now) {
        m := k;
      }
    }
  }

  lemma OnlyOne(scores: Scores, a: string, b: string)
    requires |scores| <= 1 && a in scores && b in scores
    ensures a == b
  {
    if a != b {
      assert {a, b} <= scores.Keys;
      CardinalityMonotone({a, b}, scores.Keys);
    }
  }

  /** A grant under a limit of one leaves its own member alone in the set. */
  lemma GrantLeavesOne(rule: Rule, tries: seq<Try>, lo: int, i: nat)
    requires Working(rule) && rule.window >= NANOS_PER_MILLI && rule.limit == 1 && DistinctMembers(tries)
    requires tries != [] && Grants(rule, tries)
    requires i < |tries| && AboveCuts(rule, tries, lo) && lo <= Stamp(tries[i].now)
    ensures i == |tries| - 1
  {
    var last := |tries| - 1;
    SliceIsMembers(rule, tries, lo, Stamp(tries[i].now) + 1);
    assert MemberOf(tries[i]) in MembersIn(tries, lo, Stamp(tries[i].now) + 1);
    assert MemberOf(tries[last]) in ScoresAfter(rule, tries);
    OnlyOne(ScoresAfter(rule, tries), MemberOf(tries[i]), MemberOf(tries[last]));
  }

  /** So whatever was attempted before a grant, granted or not, lies a full window behind it. */
  lemma GrantIsSpaced(rule: Rule, tries: seq<Try>, i: nat)
    requires Working(rule) && rule.window >= NANOS_PER_MILLI && rule.limit == 1 && DistinctMembers(tries)
    requires i < |tries| - 1 && Grants(rule, tries)
    ensures Stamp(tries[i].now) + WindowMillis(rule) <= Stamp(tries[|tries| - 1].now)
  {
    var m := Latest(tries);
    GrantLeavesOne(rule, tries, Stamp(tries[m].now), m);
    if Stamp(tries[i].now) > Stamp(tries[m].now) - WindowMillis(rule) {
      GrantLeavesOne(rule, tries, Stamp(tries[i].now), i);
    }
  }

  lemma {:induction false} GrantedWasTried(rule: Rule, tries: seq<Try>, j: nat) returns (i: nat)
    requires j < |Granted(rule, tries)|
    ensures i < |tries| && Stamp(tries[i].now) == Granted(rule, tries)[j]
  {
    var before := tries[..|tries| - 1];
    if j < |Granted(rule, before)| {
      i := GrantedWasTried(rule, before, j);
    } else {
      i := |tries| - 1;
    }
  }

  lemma GrantFollows(rule: Rule, tries: seq<Try>, log: seq<int>, w: int)
    requires Working(rule) && rule.window >= NANOS_PER_MILLI && rule.limit == 1 && DistinctMembers(tries)
    requires tries != [] && Grants(rule, tries)
    requires log == Granted(rule, tries[..|tries| - 1]) && w == WindowMillis(rule)
    ensures log != [] ==> log[|log| - 1] + w <= Stamp(tries[|tries| - 1].now)
  {
    if log != [] {
      var i := GrantedWasTried(rule, tries[..|tries| - 1], |log| - 1);
      GrantIsSpaced(rule, tries, i);
    }
  }

  lemma {:induction false} SpacedGrants(rule: Rule, tries: seq<Try>)
    requires Working(rule) && rule.window >= NANOS_PER_MILLI && rule.limit == 1 && DistinctMembers(tries)
    ensures Spaced(Granted(rule, tries), WindowMillis(rule))
  {
    if tries != [] {
      var before := tries[..|tries| - 1];
      LastMemberIsFresh(tries, 0, 0);
      SpacedGrants(rule, before);
      if Grants(rule, tries) {
        GrantFollows(rule, tries, Granted(rule, before), WindowMillis(rule));
        SpacedPush(Granted(rule, before), Stamp(tries[|before|].now), WindowMillis(rule));
      }
    }
  }

  /** With a limit of one the full window is met over many instances, whatever their clocks. */
  lemma SingleGrantBound(rule: Rule, tries: seq<Try>)
    requires Working(rule) && rule.window >= NANOS_PER_MILLI && rule.limit == 1 && DistinctMembers(tries)
    ensures BoundedIn(Granted(rule, tries), WindowMillis(rule), rule.limit)
  {
    SpacedGrants(rule, tries);
    SpacedIsBounded(Granted(rule, tries), WindowMillis(rule));
  }

  // ---- Calls on the keyspace ----

  /** Stamps of the attempts since the last reset that the store let through, expiry included. */
  function PassedBy(key: string, rule: Rule, calls: seq<Call>): seq<int> {
    if calls == [] then []
    else
      var before, last := calls[..|calls| - 1], calls[|calls| - 1];
      match last
      case Hit(t) =>
        if AllowRedis(KeyspaceAfter(key, rule, before), key, rule, t).1 then PassedBy(key, rule, before) + [Stamp(t.now)]
        else PassedBy(key, rule, before)
      case Wipe => []
  }

  lemma {:induction false} PassedIsGranted(key: string, rule: Rule, calls: seq<Call>)
    requires rule.window >= NANOS_PER_MILLI && ClocksClose(TriesSince(calls), rule.window)
    ensures PassedBy(key, rule, calls) == Granted(rule, TriesSince(calls))
  {
    if calls != [] && calls[|calls| - 1].Hit? {
      var before, t := calls[..|calls| - 1], calls[|calls| - 1].t;
      ClosePrefix(TriesSince(before), t, rule.window);
      PassedIsGranted(key, rule, before);
      ExpiryUnobservable(key, rule, calls);
      KeptPush(rule, TriesSince(before), t);
    }
  }

  /** What the bound asks of the callers: members kept apart, the server's clock forward with
      every client within half a window of it, stamps out of order by at most d. */
  ghost predicate Fair(calls: seq<Call>, rule: Rule, d: int) {
    var tries := TriesSince(calls);
    ClientsSkewed(tries, d) && DistinctMembers(tries) && ClocksClose(tries, rule.window)
  }

  ghost predicate GuaranteesGrants(key: string, rule: Rule, d: int, length: int) {
    forall calls :: Fair(calls, rule, d) ==> BoundedIn(PassedBy(key, rule, calls), length, rule.limit)
  }

  function HitAll(tries: seq<Try>): seq<Call> {
    seq(|tries|, i requires 0 <= i < |tries| => Hit(tries[i]))
  }

  lemma {:induction false} HitAllTries(tries: seq<Try>)
    ensures TriesSince(HitAll(tries)) == tries
  {
    if tries != [] {
      HitAllTries(tries[..|tries| - 1]);
      assert HitAll(tries)[..|tries| - 1] == HitAll(tries[..|tries| - 1]);
    }
  }

  lemma RunBreaks(key: string, rule: Rule, tries: seq<Try>, d: int, length: int)
    requires rule.window >= NANOS_PER_MILLI
    requires ClientsSkewed(tries, d) && DistinctMembers(tries) && ClocksClose(tries, rule.window)
    requires !BoundedIn(Granted(rule, tries), length, rule.limit)
    ensures !GuaranteesGrants(key, rule, d, length)
  {
    HitAllTries(tries);
    PassedIsGranted(key, rule, HitAll(tries));
    assert Fair(HitAll(tries), rule, d);
  }

  // ---- Runs that break longer intervals ----

  /** In time order the first `limit` attempts are all granted. */
  lemma {:induction false} FirstAreGranted(rule: Rule, tries: seq<Try>)
    requires Working(rule) && Sorted(Nows(tries)) && DistinctMembers(tries) && |tries| <= rule.limit
    ensures Granted(rule, tries) == Recorded(tries)
  {
    if tries == [] {
      assert Recorded(tries) == [];
    } else {
      var nows := Nows(tries[..|tries| - 1]);
      LastMemberIsFresh(tries, 0, 0);
      RecordedPush(tries);
      forall i, j | 0 <= i < j < |nows| ensures nows[i] <= nows[j] {
        assert Nows(tries)[i] <= Nows(tries)[j];
      }
      FirstAreGranted(rule, tries[..|tries| - 1]);
      ClosedForm(rule, tries);
    }
  }

  /** A whole number of milliseconds that fits the window. */
  function WholeWindow(rule: Rule): int {
    WindowMillis(rule) * NANOS_PER_MILLI
  }

  lemma StampOfWhole(q: int)
    ensures Stamp(q * NANOS_PER_MILLI) == q
  {
  }

  lemma HalfOfDouble(h: int)
    ensures 2 * h / 2 == h
  {
  }

  lemma WholeIsEven(q: int, whole: int)
    requires whole == q * NANOS_PER_MILLI
    ensures 2 * (whole / 2) == whole
  {
    var h := q * 500_000;
    assert whole == 2 * h;
    HalfOfDouble(h);
  }

  lemma WholeFits(window: int, q: int)
    requires window >= NANOS_PER_MILLI && q == window / NANOS_PER_MILLI
    ensures 1 <= q && q * NANOS_PER_MILLI <= window
  {
  }

  lemma WholeOrder(p: int, q: int)
    requires 0 <= p <= q
    ensures 0 <= p * NANOS_PER_MILLI <= q * NANOS_PER_MILLI
  {
  }

  lemma WholeWindowFits(window: int, q: int, whole: int, late: int, behind: int)
    requires window >= NANOS_PER_MILLI && q == window / NANOS_PER_MILLI && whole == q * NANOS_PER_MILLI
    requires 0 <= behind <= q && late == (q - behind) * NANOS_PER_MILLI
    ensures 0 <= late <= whole <= window && 2 * (whole / 2) == whole
    ensures Stamp(0) == 0 && Stamp(whole) == q && Stamp(late) == q - behind
  {
    StampOfWhole(0);
    StampOfWhole(q);
    StampOfWhole(q - behind);
    WholeFits(window, q);
    WholeOrder(q - behind, q);
    WholeIsEven(q, whole);
  }

  /** While the server's clock stands at half a window: `limit` attempts of clients half a
      window slow, one of a client half a window fast that expires them, one stamped earlier. */
  function SlowClockRun(rule: Rule, whole: nat, late: nat): seq<Try>
    requires Working(rule)
  {
    seq(rule.limit, i requires 0 <= i < rule.limit => Try(0, i, whole / 2)) + [Try(whole, rule.limit, whole / 2)]
    + [Try(late, rule.limit + 1, whole / 2)]
  }

  lemma SlowClockMembers(rule: Rule, whole: nat, late: nat)
    requires Working(rule)
    ensures DistinctMembers(SlowClockRun(rule, whole, late))
  {
    var run := SlowClockRun(rule, whole, late);
    forall i, j | 0 <= i < j < |run| ensures MemberOf(run[i]) != MemberOf(run[j]) {
      assert run[i].suffix == i && run[j].suffix == j;
      MemberInjective(Stamp(run[i].now), i, Stamp(run[j].now), j);
    }
  }

  lemma SlowClocksClose(rule: Rule, whole: nat, late: nat)
    requires Working(rule) && late <= whole <= rule.window && 2 * (whole / 2) == whole
    ensures ClocksClose(SlowClockRun(rule, whole, late), rule.window)
    ensures ClocksClose(UpToExpirer(rule, whole), rule.window)
  {
  }

  function UpToExpirer(rule: Rule, whole: nat): seq<Try>
    requires Working(rule)
  {
    SlowClockRun(rule, whole, 0)[..rule.limit + 1]
  }

  lemma ExpirerShape(rule: Rule, whole: nat)
    requires Working(rule) && Stamp(0) == 0 && Stamp(whole) == WindowMillis(rule)
    ensures DistinctMembers(UpToExpirer(rule, whole)) && Sorted(Nows(UpToExpirer(rule, whole)))
    ensures Recorded(UpToExpirer(rule, whole)) == seq(rule.limit, _ => 0) + [WindowMillis(rule)]
  {
    SlowClockMembers(rule, whole, 0);
    assert forall i :: 0 <= i <= rule.limit ==> UpToExpirer(rule, whole)[i] == SlowClockRun(rule, whole, 0)[i];
  }

  /** Up to the one that expires them all are granted. */
  lemma ExpirerGranted(rule: Rule, whole: nat)
    requires Working(rule) && Stamp(0) == 0 && Stamp(whole) == WindowMillis(rule)
    ensures Granted(rule, UpToExpirer(rule, whole)) == Recorded(UpToExpirer(rule, whole))
  {
    var expired := UpToExpirer(rule, whole);
    var burst := expired[..rule.limit];
    ExpirerShape(rule, whole);
    assert forall i :: 0 <= i < rule.limit ==> Nows(burst)[i] == Nows(expired)[i];
    FirstAreGranted(rule, burst);
    assert Recorded(expired)[0] == Stamp(expired[0].now) && Recorded(expired)[rule.limit] == Stamp(expired[rule.limit].now);
    ClosedForm(rule, expired);
    RecordedPush(expired);
  }

  /** And then only that one is left. */
  lemma ExpirerAlone(rule: Rule, whole: nat)
    requires Working(rule) && rule.window >= NANOS_PER_MILLI && Stamp(0) == 0 && Stamp(whole) == WindowMillis(rule)
    ensures |ScoresAfter(rule, UpToExpirer(rule, whole))| == 1
  {
    var expired, w := UpToExpirer(rule, whole), WindowMillis(rule);
    ExpirerShape(rule, whole);
    OrderedSet(rule, expired, 1, w + 1);
    forall i | 0 <= i < rule.limit ensures Stamp(expired[i].now) == 0 {
      assert Recorded(expired)[i] == Stamp(expired[i].now);
    }
    assert MembersIn(expired, 1, w + 1) == {MemberOf(expired[rule.limit])};
    SizeOfKeys(ScoresAfter(rule, expired), {MemberOf(expired[rule.limit])});
  }

  lemma SlowClockGrants(rule: Rule, whole: nat, late: nat)
    requires Working(rule) && rule.limit >= 2 && rule.window >= NANOS_PER_MILLI
    requires Stamp(0) == 0 && Stamp(whole) == WindowMillis(rule)
    ensures Granted(rule, SlowClockRun(rule, whole, late)) == Recorded(SlowClockRun(rule, whole, late))
  {
    var run := SlowClockRun(rule, whole, late);
    ExpirerGranted(rule, whole);
    ExpirerAlone(rule, whole);
    assert run[..|run| - 1] == UpToExpirer(rule, whole);
    RecordedPush(run);
    TouchGrowsByOne(ScoresAfter(rule, UpToExpirer(rule, whole)), rule.window, run[|run| - 1]);
  }

  lemma SlowClockSkew(rule: Rule, whole: nat, late: nat, d: int)
    requires Working(rule) && d >= 0
    requires Stamp(0) == 0 && 0 <= Stamp(late) && 0 <= Stamp(whole) <= Stamp(late) + d
    ensures ClientsSkewed(SlowClockRun(rule, whole, late), d) && ClientsSkewed(UpToExpirer(rule, whole), d)
  {
  }

  lemma ExpirerBreaks(key: string, rule: Rule, d: int, length: int, whole: nat)
    requires Working(rule) && rule.limit == 1 && rule.window >= NANOS_PER_MILLI && d >= 0 && length > WindowMillis(rule)
    requires Stamp(0) == 0 && Stamp(whole) == WindowMillis(rule) && whole <= rule.window && 2 * (whole / 2) == whole
    ensures !GuaranteesGrants(key, rule, d, length)
  {
    SlowClocksClose(rule, whole, whole);
    SlowClockSkew(rule, whole, whole, d);
    ExpirerShape(rule, whole);
    ExpirerGranted(rule, whole);
    OneTooMany(0, WindowMillis(rule), rule.limit, length);
    RunBreaks(key, rule, UpToExpirer(rule, whole), d, length);
  }

  lemma LateBreaks(key: string, rule: Rule, d: int, length: int, whole: nat, late: nat)
    requires Working(rule) && rule.limit >= 2 && rule.window >= NANOS_PER_MILLI && d >= 0
    requires Stamp(0) == 0 && Stamp(whole) == WindowMillis(rule) && 2 * (whole / 2) == whole
    requires late <= whole <= rule.window && WindowMillis(rule) - d <= Stamp(late) < length && 0 <= Stamp(late)
    ensures !GuaranteesGrants(key, rule, d, length)
  {
    var run := SlowClockRun(rule, whole, late);
    SlowClocksClose(rule, whole, late);
    SlowClockMembers(rule, whole, late);
    SlowClockSkew(rule, whole, late, d);
    SlowClockGrants(rule, whole, late);
    LateRunCount(Recorded(run), rule.limit, 0, length);
    RunBreaks(key, rule, run, d, length);
  }

  lemma SlowClockBreaks(key: string, rule: Rule, d: int, length: int)
    requires Working(rule) && rule.window >= NANOS_PER_MILLI && d >= 0 && length > Reach(rule, d)
    ensures !GuaranteesGrants(key, rule, d, length)
  {
    var w, whole := WindowMillis(rule), WholeWindow(rule);
    var behind := if d < w then d else w;
    var late := (w - behind) * NANOS_PER_MILLI;
    WholeWindowFits(rule.window, w, whole, late, behind);
    if rule.limit == 1 {
      ExpirerBreaks(key, rule, d, length, whole);
    } else {
      LateBreaks(key, rule, d, length, whole, late);
    }
  }

  lemma ReachIsSafeOnRedis(rule: Rule, tries: seq<Try>, d: int, length: int)
    requires Working(rule) && rule.window >= NANOS_PER_MILLI && d >= 0 && length <= Reach(rule, d)
    requires ClientsSkewed(tries, d) && DistinctMembers(tries)
    ensures BoundedIn(Granted(rule, tries), length, rule.limit)
  {
    if length <= 0 {
      NoInterval(Granted(rule, tries), length, rule.limit);
    } else if rule.limit == 1 {
      SingleGrantBound(rule, tries);
    } else {
      ManyInstancesBound(rule, tries, d);
    }
  }

  /** Over many instances on one Redis, with expiry, the intervals that hold at most `limit`
      of the attempts let through on every run with skew d are exactly those up to Reach. */
  lemma ManyInstancesBoundIsExact(key: string, rule: Rule, d: int, length: int)
    requires Working(rule) && rule.window >= NANOS_PER_MILLI && d >= 0
    ensures GuaranteesGrants(key, rule, d, length) <==> length <= Reach(rule, d)
  {
    if length <= Reach(rule, d) {
      forall calls | Fair(calls, rule, d) ensures BoundedIn(PassedBy(key, rule, calls), length, rule.limit) {
        PassedIsGranted(key, rule, calls);
        ReachIsSafeOnRedis(rule, TriesSince(calls), d, length);
      }
    } else {
      SlowClockBreaks(key, rule, d, length);
    }
  }

  /** The two stores keep the documented window under the same condition: no skew, or a limit
      of one. */
  lemma FullWindowInBothStores(key: string, rule: Rule, d: int)
    requires Working(rule) && rule.window >= NANOS_PER_MILLI && d >= 0
    ensures GuaranteesGrants(key, rule, d, WindowMillis(rule)) <==> rule.limit == 1 || d == 0
    ensures GuaranteesStamps(rule, d, WindowMillis(rule)) <==> rule.limit == 1 || d == 0
  {
    ManyInstancesBoundIsExact(key, rule, d, WindowMillis(rule));
    FullWindowKept(rule, d);
  }
}
