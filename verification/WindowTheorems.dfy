/** What one in-memory bucket guarantees by its stamps: the window bound when stamps come out
    of order, with the exact length of interval for which it holds, and the decision in closed
    form. */
module WindowTheorems {
  import opened SlidingWindow

  // ---- The admitted attempts split into those dropped and those still held ----

  function Dropped(rule: Rule, nows: seq<int>): int {
    if nows == [] then 0
    else
      var before := nows[..|nows| - 1];
      Dropped(rule, before) + TrimCount(TimesAfter(rule, before), Cut(nows[|nows| - 1], rule.window))
  }

  lemma StampsPush(rule: Rule, nows: seq<int>)
    requires nows != []
    ensures var before, n := nows[..|nows| - 1], nows[|nows| - 1];
      Stamps(Admitted(rule, nows))
      == if AdmitsLast(rule, nows) then Stamps(Admitted(rule, before)) + [Stamp(n)] else Stamps(Admitted(rule, before))
  {
  }

  /** One attempt on a list that is a suffix of the log leaves a suffix of the new log. */
  lemma SuffixStep(log: seq<int>, times: seq<int>, drop: nat, rule: Rule, n: int, k: nat, stamp: int, out: Outcome)
    requires Working(rule) && drop <= |log| && times == log[drop..] && |times| <= rule.limit
    requires k == TrimCount(times, Cut(n, rule.window)) && stamp == Stamp(n) && out == Admit(times, rule, n)
    ensures drop + k <= |log| && |out.times| <= rule.limit
    ensures out.times == (if out.ok then log + [stamp] else log)[drop + k..]
  {
    TailOfTail(log, times, drop, k, stamp);
  }

  lemma TailOfTail(log: seq<int>, times: seq<int>, drop: nat, k: nat, y: int)
    requires drop <= |log| && times == log[drop..] && k <= |times|
    ensures times[k..] == log[drop + k..] && times[k..] + [y] == (log + [y])[drop + k..]
  {
  }

  /** The bucket is a suffix of everything it admitted, and never longer than the limit. */
  lemma {:induction false} HeldSuffix(rule: Rule, nows: seq<int>)
    requires Working(rule)
    ensures 0 <= Dropped(rule, nows) <= |Admitted(rule, nows)|
    ensures TimesAfter(rule, nows) == Stamps(Admitted(rule, nows))[Dropped(rule, nows)..]
    ensures |TimesAfter(rule, nows)| <= rule.limit
  {
    if nows != [] {
      var before, n := nows[..|nows| - 1], nows[|nows| - 1];
      var log, times := Stamps(Admitted(rule, before)), TimesAfter(rule, before);
      HeldSuffix(rule, before);
      StampsPush(rule, nows);
      var k, out := TrimCount(times, Cut(n, rule.window)), Admit(times, rule, n);
      SuffixStep(log, times, Dropped(rule, before), rule, n, k, Stamp(n), out);
      assert Dropped(rule, nows) == Dropped(rule, before) + k;
      assert TimesAfter(rule, nows) == out.times && AdmitsLast(rule, nows) == out.ok;
    }
  }

  /** An admission is dropped only by an attempt whose cut has reached it. */
  ghost predicate Expired(x: int, rule: Rule, nows: seq<int>) {
    exists k :: 0 <= k < |nows| && Stamp(x) <= Cut(nows[k], rule.window)
  }

  lemma {:induction false} DroppedExpired(rule: Rule, nows: seq<int>, i: nat)
    requires Working(rule)
    requires i < Dropped(rule, nows) <= |Admitted(rule, nows)|
    ensures Expired(Admitted(rule, nows)[i], rule, nows)
  {
    if nows != [] {
      var before, n := nows[..|nows| - 1], nows[|nows| - 1];
      HeldSuffix(rule, before);
      var x := Admitted(rule, nows)[i];
      if i < Dropped(rule, before) {
        DroppedExpired(rule, before, i);
        var k :| 0 <= k < |before| && Stamp(x) <= Cut(before[k], rule.window);
        assert nows[k] == before[k];
      } else {
        assert TimesAfter(rule, before)[i - Dropped(rule, before)] == Stamp(x);
        assert Stamp(x) <= Cut(nows[|nows| - 1], rule.window);
      }
    }
  }

  lemma {:induction false} AdmittedAreAttempts(rule: Rule, nows: seq<int>, i: nat)
    requires i < |Admitted(rule, nows)|
    ensures Admitted(rule, nows)[i] in nows
  {
    var before := nows[..|nows| - 1];
    if i < |Admitted(rule, before)| {
      AdmittedAreAttempts(rule, before, i);
    }
  }

  // ---- One admission keeps a window bound ----

  /** Every half-open interval no longer than `length` holds at most `limit` elements of s. */
  ghost predicate BoundedIn(s: seq<int>, length: int, limit: int) {
    forall lo, hi :: hi - lo <= length ==> CountIn(s, lo, hi) <= limit
  }

  lemma BoundStep(log: seq<int>, drop: nat, y: int, limit: int, length: int)
    requires drop <= |log| && |log| - drop < limit
    requires forall i :: 0 <= i < drop ==> log[i] + length <= y
    requires BoundedIn(log, length, limit)
    ensures BoundedIn(log + [y], length, limit)
  {
    forall lo, hi | hi - lo <= length ensures CountIn(log + [y], lo, hi) <= limit {
      CountPush(log, y, lo, hi);
      if lo <= y < hi {
        assert log == log[..drop] + log[drop..];
        CountConcat(log[..drop], log[drop..], lo, hi);
        CountNone(log[..drop], lo, hi);
        CountAtMostLength(log[drop..], lo, hi);
      }
    }
  }

  // ---- Stamps that take the lock out of order ----

  function WindowMillis(rule: Rule): int {
    rule.window / NANOS_PER_MILLI
  }

  lemma CutGap(now: int, rule: Rule)
    ensures Cut(now, rule.window) <= Stamp(now) - WindowMillis(rule)
    ensures rule.window % NANOS_PER_MILLI == 0 ==> Cut(now, rule.window) == Stamp(now) - WindowMillis(rule)
    ensures rule.window > 0 ==> Cut(now, rule.window) <= Stamp(now)
  {
  }

  /** Everything dropped so far lies window - d behind the attempt made last. */
  lemma DroppedBehind(rule: Rule, nows: seq<int>, d: int, i: nat)
    requires Working(rule) && Skewed(nows, d) && nows != [] && d >= 0
    requires i < Dropped(rule, nows) <= |Admitted(rule, nows)|
    ensures Stamp(Admitted(rule, nows)[i]) + WindowMillis(rule) - d <= Stamp(nows[|nows| - 1])
  {
    DroppedExpired(rule, nows, i);
    var k :| 0 <= k < |nows| && Stamp(Admitted(rule, nows)[i]) <= Cut(nows[k], rule.window);
    CutGap(nows[k], rule);
  }

  lemma SkewedPrefix(nows: seq<int>, d: int)
    requires nows != [] && Skewed(nows, d)
    ensures Skewed(nows[..|nows| - 1], d)
  {
  }

  /** If no attempt is stamped more than d ms after one that locks the bucket later, any
      half-open interval of stamps d ms shorter than the window holds at most `limit`
      admissions. With d = 0 this is the sliding-window guarantee. */
  lemma {:induction false} SkewBound(rule: Rule, nows: seq<int>, d: int)
    requires Working(rule) && Skewed(nows, d) && d >= 0
    ensures BoundedIn(Stamps(Admitted(rule, nows)), WindowMillis(rule) - d, rule.limit)
  {
    if nows == [] {
      assert Stamps(Admitted(rule, nows)) == [];
    } else {
      SkewedPrefix(nows, d);
      SkewBound(rule, nows[..|nows| - 1], d);
      if AdmitsLast(rule, nows) {
        AdmissionKeepsBound(rule, nows, d);
      }
    }
  }

  lemma AdmissionKeepsBound(rule: Rule, nows: seq<int>, d: int)
    requires Working(rule) && Skewed(nows, d) && d >= 0 && nows != [] && AdmitsLast(rule, nows)
    requires BoundedIn(Stamps(Admitted(rule, nows[..|nows| - 1])), WindowMillis(rule) - d, rule.limit)
    ensures BoundedIn(Stamps(Admitted(rule, nows)), WindowMillis(rule) - d, rule.limit)
  {
    var log, drop, y := Stamps(Admitted(rule, nows[..|nows| - 1])), Dropped(rule, nows), Stamp(nows[|nows| - 1]);
    AdmissionRoom(rule, nows);
    StampsPush(rule, nows);
    forall i | 0 <= i < drop ensures log[i] + (WindowMillis(rule) - d) <= y {
      DroppedBehind(rule, nows, d, i);
    }
    BoundStep(log, drop, y, rule.limit, WindowMillis(rule) - d);
  }

  /** An admission finds fewer than `limit` of the earlier admissions still held. */
  lemma AdmissionRoom(rule: Rule, nows: seq<int>)
    requires Working(rule) && nows != [] && AdmitsLast(rule, nows)
    ensures 0 <= Dropped(rule, nows) <= |Admitted(rule, nows[..|nows| - 1])|
    ensures |Admitted(rule, nows[..|nows| - 1])| - Dropped(rule, nows) < rule.limit
  {
    HeldSuffix(rule, nows[..|nows| - 1]);
  }

  /** The trim loop stops at an entry newer than the cut; what follows is older by at most d. */
  lemma LiveNewer(times: seq<int>, cut: int, d: int)
    requires d >= 0 && forall i, j :: 0 <= i <= j < |times| ==> times[i] <= times[j] + d
    ensures forall x :: x in Live(times, cut) ==> x > cut - d
  {
    var k := TrimCount(times, cut);
    forall i | k <= i < |times| ensures times[i] > cut - d {
      assert times[k] <= times[i] + d;
    }
  }

  lemma LogOrder(rule: Rule, nows: seq<int>, d: int, log: seq<int>)
    requires Skewed(nows, d) && d >= 0 && log == Stamps(Admitted(rule, nows))
    ensures forall i, j :: 0 <= i <= j < |log| ==> log[i] <= log[j] + d
  {
    forall i, j | 0 <= i <= j < |log| ensures log[i] <= log[j] + d {
      StampOrder(rule, nows, d, i, j);
    }
  }

  lemma TailOrder(log: seq<int>, drop: nat, d: int)
    requires drop <= |log| && forall i, j :: 0 <= i <= j < |log| ==> log[i] <= log[j] + d
    ensures forall i, j :: 0 <= i <= j < |log[drop..]| ==> log[drop..][i] <= log[drop..][j] + d
  {
  }

  lemma HeldOrder(rule: Rule, nows: seq<int>, d: int)
    requires Working(rule) && Skewed(nows, d) && d >= 0
    ensures forall i, j :: 0 <= i <= j < |TimesAfter(rule, nows)| ==> TimesAfter(rule, nows)[i] <= TimesAfter(rule, nows)[j] + d
  {
    HeldSuffix(rule, nows);
    LogOrder(rule, nows, d, Stamps(Admitted(rule, nows)));
    TailOrder(Stamps(Admitted(rule, nows)), Dropped(rule, nows), d);
  }

  lemma DenialIsFull(rule: Rule, nows: seq<int>, n: int)
    requires Working(rule) && !AdmitsLast(rule, nows + [n])
    ensures |Live(TimesAfter(rule, nows), Cut(n, rule.window))| == rule.limit
    ensures TimesAfter(rule, nows + [n]) == Live(TimesAfter(rule, nows), Cut(n, rule.window))
  {
    HeldSuffix(rule, nows);
    AttemptUnfold(rule, nows, n);
  }

  /** The other side of the bound. Whatever an attempt finds after trimming is newer than its
      cut less d, and a denial finds exactly `limit` such admissions. */
  lemma SkewHeld(rule: Rule, nows: seq<int>, n: int, d: int)
    requires Working(rule) && Skewed(nows, d) && d >= 0
    ensures forall x :: x in Live(TimesAfter(rule, nows), Cut(n, rule.window)) ==> x > Cut(n, rule.window) - d
    ensures !AdmitsLast(rule, nows + [n]) ==> |Live(TimesAfter(rule, nows), Cut(n, rule.window))| == rule.limit
  {
    HeldOrder(rule, nows, d);
    LiveNewer(TimesAfter(rule, nows), Cut(n, rule.window), d);
    if !AdmitsLast(rule, nows + [n]) {
      DenialIsFull(rule, nows, n);
    }
  }

  /** Admissions inherit the skew of the attempts. */
  lemma {:induction false} StampOrder(rule: Rule, nows: seq<int>, d: int, i: nat, j: nat)
    requires Skewed(nows, d) && d >= 0
    requires i <= j < |Admitted(rule, nows)|
    ensures Stamp(Admitted(rule, nows)[i]) <= Stamp(Admitted(rule, nows)[j]) + d
  {
    var before := nows[..|nows| - 1];
    if j < |Admitted(rule, before)| {
      StampOrder(rule, before, d, i, j);
    } else if i < j {
      AdmittedAreAttempts(rule, before, i);
      var k :| 0 <= k < |before| && before[k] == Admitted(rule, before)[i];
      assert nows[k] == before[k];
    }
  }

  // ---- The decision in closed form ----

  /** How many admissions are gone when an attempt has trimmed its bucket. */
  function Gone(rule: Rule, nows: seq<int>, n: int): int {
    Dropped(rule, nows) + TrimCount(TimesAfter(rule, nows), Cut(n, rule.window))
  }

  lemma LiveIsTail(rule: Rule, nows: seq<int>, n: int)
    requires Working(rule)
    ensures 0 <= Gone(rule, nows, n) <= |Admitted(rule, nows)|
    ensures Live(TimesAfter(rule, nows), Cut(n, rule.window)) == Stamps(Admitted(rule, nows))[Gone(rule, nows, n)..]
  {
    HeldSuffix(rule, nows);
  }

  /** Whatever the trim loop passes over, now or earlier, lies at or before the present cut. */
  lemma GoneIsExpired(rule: Rule, nows: seq<int>, n: int, i: nat)
    requires Working(rule) && Sorted(nows + [n])
    requires i < Gone(rule, nows, n) <= |Admitted(rule, nows)|
    ensures Stamp(Admitted(rule, nows)[i]) <= Cut(n, rule.window)
  {
    HeldSuffix(rule, nows);
    if i < Dropped(rule, nows) {
      DroppedExpired(rule, nows, i);
      var k :| 0 <= k < |nows| && Stamp(Admitted(rule, nows)[i]) <= Cut(nows[k], rule.window);
      assert (nows + [n])[k] <= (nows + [n])[|nows|];
    } else {
      assert TimesAfter(rule, nows)[i - Dropped(rule, nows)] == Stamp(Admitted(rule, nows)[i]);
    }
  }

  lemma LogBelow(rule: Rule, nows: seq<int>, n: int, i: nat)
    requires Sorted(nows + [n]) && i < |Admitted(rule, nows)|
    ensures Stamps(Admitted(rule, nows))[i] <= Stamp(n)
  {
    AdmittedAreAttempts(rule, nows, i);
    var k :| 0 <= k < |nows| && nows[k] == Admitted(rule, nows)[i];
    assert (nows + [n])[k] <= (nows + [n])[|nows|];
  }

  /** In time order an attempt finds exactly the admissions stamped inside its own window. */
  lemma LiveIsWindow(rule: Rule, nows: seq<int>, n: int, lo: int, hi: int)
    requires Working(rule) && Sorted(nows + [n]) && lo == Cut(n, rule.window) + 1 && hi == Stamp(n) + 1
    ensures |Live(TimesAfter(rule, nows), Cut(n, rule.window))| == CountIn(Stamps(Admitted(rule, nows)), lo, hi)
  {
    LiveIsTail(rule, nows, n);
    var log, k := Stamps(Admitted(rule, nows)), Gone(rule, nows, n);
    forall i | 0 <= i < k ensures log[i] < lo {
      GoneIsExpired(rule, nows, n, i);
    }
    forall i | k <= i < |log| ensures lo <= log[i] < hi {
      LeftIsLive(rule, nows, n, i);
    }
    CountSplit(log, k, lo, hi);
  }

  lemma LeftIsLive(rule: Rule, nows: seq<int>, n: int, i: nat)
    requires Working(rule) && Sorted(nows + [n]) && Gone(rule, nows, n) <= i < |Admitted(rule, nows)|
    ensures Cut(n, rule.window) < Stamps(Admitted(rule, nows))[i] <= Stamp(n)
  {
    SortedStamps(nows, n);
    SkewHeld(rule, nows, n, 0);
    LiveIsTail(rule, nows, n);
    LogBelow(rule, nows, n, i);
    var live := Live(TimesAfter(rule, nows), Cut(n, rule.window));
    assert live[i - Gone(rule, nows, n)] in live;
  }

  lemma CountSplit(s: seq<int>, k: nat, lo: int, hi: int)
    requires k <= |s| && (forall i :: 0 <= i < k ==> s[i] < lo) && (forall i :: k <= i < |s| ==> lo <= s[i] < hi)
    ensures CountIn(s, lo, hi) == |s| - k
  {
    assert s == s[..k] + s[k..];
    CountConcat(s[..k], s[k..], lo, hi);
    CountNone(s[..k], lo, hi);
    CountAll(s[k..], lo, hi);
  }

  /** In time order an attempt is admitted exactly when its window holds fewer than `limit`
      earlier admissions. */
  lemma InMemoryClosedForm(rule: Rule, nows: seq<int>, n: int, lo: int, hi: int)
    requires Working(rule) && Sorted(nows + [n]) && lo == Cut(n, rule.window) + 1 && hi == Stamp(n) + 1
    ensures AdmitsLast(rule, nows + [n]) <==> CountIn(Stamps(Admitted(rule, nows)), lo, hi) < rule.limit
  {
    LiveIsWindow(rule, nows, n, lo, hi);
    AttemptUnfold(rule, nows, n);
  }

  // ---- A limit of one ----

  /** A bucket of one admits only when its entry is a window old, and then drops it. */
  lemma SingleStep(times: seq<int>, rule: Rule, n: int)
    requires Working(rule) && rule.limit == 1 && |times| == 1
    ensures Admit(times, rule, n).ok ==> times[0] + WindowMillis(rule) <= Stamp(n)
    ensures TrimCount(times, Cut(n, rule.window)) == if Admit(times, rule, n).ok then 1 else 0
  {
    CutGap(n, rule);
  }

  lemma {:induction false} OneDropped(rule: Rule, nows: seq<int>)
    requires Working(rule) && rule.limit == 1 && nows != []
    ensures |Admitted(rule, nows)| >= 1 && Dropped(rule, nows) == |Admitted(rule, nows)| - 1
  {
    var before := nows[..|nows| - 1];
    if before != [] {
      OneDropped(rule, before);
      HeldSuffix(rule, before);
      SingleStep(TimesAfter(rule, before), rule, nows[|nows| - 1]);
    }
  }

  lemma OneHeld(rule: Rule, nows: seq<int>)
    requires Working(rule) && rule.limit == 1
    ensures var log := Stamps(Admitted(rule, nows)); TimesAfter(rule, nows) == if log == [] then [] else [log[|log| - 1]]
  {
    if nows != [] {
      OneDropped(rule, nows);
      HeldSuffix(rule, nows);
    }
  }

  /** Elements in order with at least w between any two. */
  ghost predicate Spaced(s: seq<int>, w: int) {
    forall i, j :: 0 <= i < j < |s| ==> s[i] + w <= s[j]
  }

  lemma SpacedPush(s: seq<int>, y: int, w: int)
    requires Spaced(s, w) && w >= 0 && (s != [] ==> s[|s| - 1] + w <= y)
    ensures Spaced(s + [y], w)
  {
  }

  /** A limit of one is the exception: whatever the order of the stamps, consecutive
      admissions are a full window apart. */
  lemma {:induction false} SingleSpacing(rule: Rule, nows: seq<int>)
    requires Working(rule) && rule.limit == 1
    ensures Spaced(Stamps(Admitted(rule, nows)), WindowMillis(rule))
  {
    if nows != [] {
      var before, n := nows[..|nows| - 1], nows[|nows| - 1];
      SingleSpacing(rule, before);
      StampsPush(rule, nows);
      if AdmitsLast(rule, nows) {
        var log, w := Stamps(Admitted(rule, before)), WindowMillis(rule);
        OneHeld(rule, before);
        LastSpacing(rule, n, TimesAfter(rule, before), log, w);
        SpacedPush(log, Stamp(n), w);
      }
    }
  }

  lemma LastSpacing(rule: Rule, n: int, times: seq<int>, log: seq<int>, w: int)
    requires Working(rule) && rule.limit == 1 && Admit(times, rule, n).ok && w == WindowMillis(rule)
    requires times == if log == [] then [] else [log[|log| - 1]]
    ensures w >= 0 && (log != [] ==> log[|log| - 1] + w <= Stamp(n))
  {
    if log != [] {
      SingleStep(times, rule, n);
    }
  }

  lemma {:induction false} SpacedIsBounded(s: seq<int>, length: int)
    requires length >= 0 && Spaced(s, length)
    ensures BoundedIn(s, length, 1)
  {
    if s != [] {
      var before := s[..|s| - 1];
      SpacedIsBounded(before, length);
      BoundStep(before, |before|, s[|s| - 1], 1, length);
      assert s == before + [s[|s| - 1]];
    }
  }

  /** With a limit of one the full window is met under any skew. */
  lemma SingleBound(rule: Rule, nows: seq<int>)
    requires Working(rule) && rule.limit == 1
    ensures BoundedIn(Stamps(Admitted(rule, nows)), WindowMillis(rule), rule.limit)
  {
    SingleSpacing(rule, nows);
    SpacedIsBounded(Stamps(Admitted(rule, nows)), WindowMillis(rule));
  }

  // ---- How long an interval may be ----

  /** The bound for every run with skew d and every interval of the given length. */
  ghost predicate GuaranteesStamps(rule: Rule, d: int, length: int) {
    forall nows :: Skewed(nows, d) ==> BoundedIn(Stamps(Admitted(rule, nows)), length, rule.limit)
  }

  lemma OneMore(s: seq<int>, x: int, n: nat)
    requires n > 0
    ensures s + seq(n, _ => x) == s + seq(n - 1, _ => x) + [x]
    ensures seq(n, _ => x) == seq(n - 1, _ => x) + [x]
  {
  }

  lemma RoomIsTaken(times: seq<int>, rule: Rule, n: int)
    requires Working(rule) && |times| < rule.limit && forall i :: 0 <= i < |times| ==> times[i] > Cut(n, rule.window)
    ensures Admit(times, rule, n) == Outcome(true, times + [Stamp(n)])
  {
    assert Live(times, Cut(n, rule.window)) == times;
  }

  /** A burst at one moment is admitted up to the limit. */
  lemma {:induction false} Burst(rule: Rule, at: int, n: nat)
    requires Working(rule) && Cut(at, rule.window) < Stamp(at) && n <= rule.limit
    ensures Admitted(rule, seq(n, _ => at)) == seq(n, _ => at)
    ensures TimesAfter(rule, seq(n, _ => at)) == seq(n, _ => Stamp(at))
  {
    if n > 0 {
      var before := seq(n - 1, _ => at);
      Burst(rule, at, n - 1);
      OneMore([], at, n);
      OneMore([], Stamp(at), n);
      AttemptUnfold(rule, before, at);
      RoomIsTaken(TimesAfter(rule, before), rule, at);
    }
  }

  /** `limit` attempts at `first`, then one that expires them all, then one at `last`. */
  function LateRun(rule: Rule, first: int, expirer: int, last: int): seq<int>
    requires rule.limit >= 0
  {
    seq(rule.limit, _ => first) + [expirer] + [last]
  }

  lemma LateRunAdmits(rule: Rule, first: int, expirer: int, last: int)
    requires Working(rule) && rule.limit >= 2
    requires Cut(first, rule.window) < Stamp(first) <= Cut(expirer, rule.window)
    requires Cut(last, rule.window) < Stamp(expirer)
    ensures Admitted(rule, LateRun(rule, first, expirer, last)) == LateRun(rule, first, expirer, last)
  {
    var burst := seq(rule.limit, _ => first);
    Burst(rule, first, rule.limit);
    AttemptUnfold(rule, burst, expirer);
    assert Live(TimesAfter(rule, burst), Cut(expirer, rule.window)) == [];
    AttemptUnfold(rule, burst + [expirer], last);
    assert Live([Stamp(expirer)], Cut(last, rule.window)) == [Stamp(expirer)];
  }

  /** The longest interval of stamps that is safe under skew d. */
  function Reach(rule: Rule, d: int): int {
    if rule.limit == 1 then WindowMillis(rule)
    else if d < WindowMillis(rule) then WindowMillis(rule) - d
    else 0
  }

  lemma {:induction false} NoInterval(s: seq<int>, length: int, limit: nat)
    requires length <= 0
    ensures BoundedIn(s, length, limit)
  {
    forall lo, hi | hi - lo <= length ensures CountIn(s, lo, hi) <= limit {
      CountNone(s, lo, hi);
    }
  }

  lemma ReachIsSafe(rule: Rule, nows: seq<int>, d: int, length: int)
    requires Working(rule) && d >= 0 && Skewed(nows, d) && length <= Reach(rule, d)
    ensures BoundedIn(Stamps(Admitted(rule, nows)), length, rule.limit)
  {
    if length <= 0 {
      NoInterval(Stamps(Admitted(rule, nows)), length, rule.limit);
    } else if rule.limit == 1 {
      SingleBound(rule, nows);
    } else {
      SkewBound(rule, nows, d);
    }
  }

  /** Exactly how long an interval may be. For every rule and every skew, the intervals of
      stamps that hold at most `limit` admissions on every run are those up to Reach: the full
      window for a limit of one, otherwise the window less the skew. */
  lemma SkewBoundIsExact(rule: Rule, d: int, length: int)
    requires Working(rule) && d >= 0
    ensures GuaranteesStamps(rule, d, length) <==> length <= Reach(rule, d)
  {
    if length <= Reach(rule, d) {
      forall nows | Skewed(nows, d) ensures BoundedIn(Stamps(Admitted(rule, nows)), length, rule.limit) {
        ReachIsSafe(rule, nows, d, length);
      }
    } else if rule.limit == 1 {
      PairBreaks(rule, d, length);
    } else {
      LateRunBreaks(rule, d, length);
    }
  }

  /** So the documented window is kept on every run exactly when stamps cannot be out of order
      or the limit is one. */
  lemma FullWindowKept(rule: Rule, d: int)
    requires Working(rule) && rule.window >= NANOS_PER_MILLI && d >= 0
    ensures GuaranteesStamps(rule, d, WindowMillis(rule)) <==> rule.limit == 1 || d == 0
  {
    SkewBoundIsExact(rule, d, WindowMillis(rule));
  }

  lemma LateRunTimes(window: int, last: int, behind: int)
    requires window > 0 && 0 <= behind <= window / NANOS_PER_MILLI
    requires last == (window / NANOS_PER_MILLI - behind) * NANOS_PER_MILLI
    ensures Stamp(0) == 0 && Stamp(window) == window / NANOS_PER_MILLI && Stamp(last) == window / NANOS_PER_MILLI - behind
    ensures Cut(0, window) < 0 && Cut(window, window) == 0 && Cut(last, window) < window / NANOS_PER_MILLI
  {
  }

  lemma LateRunBreaks(rule: Rule, d: int, length: int)
    requires Working(rule) && rule.limit >= 2 && d >= 0 && length > Reach(rule, d)
    ensures !GuaranteesStamps(rule, d, length)
  {
    var behind := if d < WindowMillis(rule) then d else WindowMillis(rule);
    var last := (WindowMillis(rule) - behind) * NANOS_PER_MILLI;
    var run := LateRun(rule, 0, rule.window, last);
    LateRunTimes(rule.window, last, behind);
    LateRunAdmits(rule, 0, rule.window, last);
    LateRunSkew(rule, rule.window, last, d);
    LateRunCount(Stamps(run), rule.limit, 0, length);
  }

  /** Two attempts a window apart show that a limit of one covers no more than the window. */
  lemma PairBreaks(rule: Rule, d: int, length: int)
    requires Working(rule) && rule.limit == 1 && d >= 0 && length > WindowMillis(rule)
    ensures !GuaranteesStamps(rule, d, length)
  {
    var run := seq(rule.limit, _ => 0) + [rule.window];
    LateRunTimes(rule.window, WindowMillis(rule) * NANOS_PER_MILLI, 0);
    BurstThenAdmits(rule, 0, rule.window);
    assert Stamps(run) == seq(rule.limit, _ => 0) + [WindowMillis(rule)];
    OneTooMany(0, WindowMillis(rule), rule.limit, length);
  }

  lemma LateRunSkew(rule: Rule, expirer: int, last: int, d: int)
    requires rule.limit >= 0 && d >= 0
    requires 0 <= Stamp(expirer) <= Stamp(last) + d && 0 <= Stamp(last)
    ensures Skewed(LateRun(rule, 0, expirer, last), d)
  {
    assert Stamp(0) == 0;
  }

  /** An interval that reaches from the burst past the last attempt holds too much. */
  lemma LateRunCount(run: seq<int>, limit: nat, at: int, length: int)
    requires |run| == limit + 2
    requires forall i :: 0 <= i < limit ==> at <= run[i] < at + length
    requires at <= run[limit + 1] < at + length
    ensures !BoundedIn(run, length, limit)
  {
    var burst := run[..limit];
    CountAll(burst, at, at + length);
    CountPush(burst, run[limit], at, at + length);
    CountPush(burst + [run[limit]], run[limit + 1], at, at + length);
    assert run == burst + [run[limit]] + [run[limit + 1]];
    assert (at + length) - at <= length && CountIn(run, at, at + length) > limit;
  }

  // ---- Real time: both the stamp and the cut are floored to milliseconds ----

  /** What keeping or dropping an entry says about its real age in nanoseconds. */
  lemma AgeFromStamp(x: int, now: int, window: int)
    ensures Stamp(x) > Cut(now, window) ==> now - x < window
    ensures Stamp(x) <= Cut(now, window) ==> now - x > window - NANOS_PER_MILLI
  {
  }

  /** A denial is witnessed by exactly `limit` admissions, the latest ones, all younger in
      real time than the window. */
  lemma DenialWitness(rule: Rule, nows: seq<int>, n: int)
    requires Working(rule) && Sorted(nows + [n])
    requires !AdmitsLast(rule, nows + [n])
    ensures |Admitted(rule, nows)| >= rule.limit
    ensures forall i :: |Admitted(rule, nows)| - rule.limit <= i < |Admitted(rule, nows)| ==>
      n - Admitted(rule, nows)[i] < rule.window
    ensures TimesAfter(rule, nows + [n]) == Stamps(Admitted(rule, nows)[|Admitted(rule, nows)| - rule.limit..])
  {
    DenialIsFull(rule, nows, n);
    LiveIsTail(rule, nows, n);
    var log := Admitted(rule, nows);
    forall i | |log| - rule.limit <= i < |log| ensures n - log[i] < rule.window {
      LeftIsLive(rule, nows, n, i);
      AgeFromStamp(log[i], n, rule.window);
    }
  }

  lemma SortedIsUnskewed(nows: seq<int>)
    requires Sorted(nows)
    ensures Skewed(nows, 0)
  {
  }

  lemma SortedStamps(nows: seq<int>, n: int)
    requires Sorted(nows + [n])
    ensures Skewed(nows, 0) && Skewed(nows + [n], 0) && Sorted(nows)
  {
    forall i, j | 0 <= i < j < |nows| ensures nows[i] <= nows[j] {
      assert (nows + [n])[i] <= (nows + [n])[j];
    }
  }

  /** A full burst and one attempt that expires all of it are all admitted. */
  lemma BurstThenAdmits(rule: Rule, first: int, last: int)
    requires Working(rule)
    requires Cut(first, rule.window) < Stamp(first) <= Cut(last, rule.window)
    ensures Admitted(rule, seq(rule.limit, _ => first) + [last]) == seq(rule.limit, _ => first) + [last]
  {
    var burst := seq(rule.limit, _ => first);
    Burst(rule, first, rule.limit);
    AttemptUnfold(rule, burst, last);
    assert Live(TimesAfter(rule, burst), Cut(last, rule.window)) == [];
  }

  lemma OneTooMany(at: int, last: int, limit: nat, length: int)
    requires at <= last < at + length
    ensures !BoundedIn(seq(limit, _ => at) + [last], length, limit)
  {
    var burst := seq(limit, _ => at);
    CountAll(burst, at, at + length);
    CountPush(burst, last, at, at + length);
    assert (at + length) - at <= length && CountIn(burst + [last], at, at + length) > limit;
  }
}
