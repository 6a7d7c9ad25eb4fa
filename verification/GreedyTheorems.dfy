/** Admitting whenever the window has room: no other choice of admissions that respects the
    window bound ever gets ahead; and when `Allow` respects that bound itself. */
module GreedyTheorems {
  import opened SlidingWindow
  import opened WindowTheorems
  import opened RealTimeTheorems

  // ---- Any policy that denies only when its window is full ----

  /** What some other policy admits, one choice per attempt; the attempts by their stamps or by
      their clock readings. */
  function Chosen(attempts: seq<int>, choice: seq<bool>): seq<int>
    requires |choice| == |attempts|
  {
    if attempts == [] then []
    else
      var before := Chosen(attempts[..|attempts| - 1], choice[..|attempts| - 1]);
      if choice[|attempts| - 1] then before + [attempts[|attempts| - 1]] else before
  }

  lemma {:induction false} ChosenSorted(attempts: seq<int>, choice: seq<bool>, top: int)
    requires |choice| == |attempts| && Sorted(attempts)
    requires forall i :: 0 <= i < |attempts| ==> attempts[i] <= top
    ensures Sorted(Chosen(attempts, choice))
    ensures forall x :: x in Chosen(attempts, choice) ==> x <= top
  {
    if attempts != [] {
      var before := attempts[..|attempts| - 1];
      ChosenSorted(before, choice[..|before|], attempts[|before|]);
      var theirs := Chosen(before, choice[..|before|]);
      assert forall i :: 0 <= i < |theirs| ==> theirs[i] in theirs;
    }
  }

  /** The policy is at least as far as the other one, admission by admission. */
  ghost predicate Ahead(ours: seq<int>, theirs: seq<int>) {
    |ours| >= |theirs| && forall m :: 0 <= m < |theirs| ==> ours[m] <= theirs[m]
  }

  /** `limit` recent admissions and one more break the bound of the window. */
  lemma FullWindow(theirs: seq<int>, y: int, limit: nat, length: int)
    requires Sorted(theirs) && forall x :: x in theirs ==> x <= y
    requires |theirs| >= limit >= 1 && theirs[|theirs| - limit] > y - length && length > 0
    ensures !BoundedIn(theirs + [y], length, limit)
  {
    var k := |theirs| - limit;
    forall i | 0 <= i < |theirs[k..]| ensures y - length + 1 <= theirs[k..][i] < y + 1 {
      assert theirs[k] <= theirs[k + i];
      assert theirs[k + i] in theirs;
    }
    CountAll(theirs[k..], y - length + 1, y + 1);
    CountTail(theirs, k, y - length + 1, y + 1);
    CountPush(theirs, y, y - length + 1, y + 1);
    assert (y + 1) - (y - length + 1) <= length && CountIn(theirs + [y], y - length + 1, y + 1) > limit;
  }

  lemma BoundedPrefix(s: seq<int>, k: nat, length: int, limit: int)
    requires k <= |s| && BoundedIn(s, length, limit)
    ensures BoundedIn(s[..k], length, limit)
  {
    forall lo, hi | hi - lo <= length ensures CountIn(s[..k], lo, hi) <= limit {
      CountHead(s, k, lo, hi);
    }
  }

  /** When the admission `limit` places back is still inside the window, a policy that is not
      ahead and respects the bound must deny. */
  lemma DenialForced(ours: seq<int>, theirs: seq<int>, y: int, limit: nat, span: int)
    requires Sorted(theirs) && forall x :: x in theirs ==> x <= y
    requires Ahead(ours, theirs) && |ours| >= limit >= 1
    requires ours[|ours| - limit] > y - span && span > 0
    requires BoundedIn(theirs + [y], span, limit)
    ensures |theirs| < |ours|
  {
    if |theirs| == |ours| {
      FullWindow(theirs, y, limit, span);
    }
  }

  /** The admission `limit` places back is still inside the window that ends with y. */
  predicate FullAt(log: seq<int>, y: int, limit: nat, span: int)
    requires limit >= 1
  {
    |log| >= limit && log[|log| - limit] > y - span
  }

  ghost predicate DeniesOnlyWhenFull(attempts: seq<int>, decisions: seq<bool>, limit: nat, span: int)
    requires |decisions| == |attempts| && limit >= 1
  {
    forall k :: 0 <= k < |attempts| && !decisions[k] ==>
      FullAt(Chosen(attempts[..k], decisions[..k]), attempts[k], limit, span)
  }

  /** One attempt, admission against admission. */
  lemma PolicyStep(ours: seq<int>, theirs: seq<int>, y: int, admitted: bool, chosen: bool, limit: nat, span: int)
    requires Ahead(ours, theirs) && Sorted(theirs) && forall x :: x in theirs ==> x <= y
    requires forall i :: 0 <= i < |ours| ==> ours[i] <= y
    requires limit >= 1 && span > 0 && (!admitted ==> FullAt(ours, y, limit, span))
    requires chosen ==> BoundedIn(theirs + [y], span, limit)
    ensures Ahead(if admitted then ours + [y] else ours, if chosen then theirs + [y] else theirs)
  {
    if chosen && !admitted {
      DenialForced(ours, theirs, y, limit, span);
    }
  }

  lemma FullPrefix(attempts: seq<int>, decisions: seq<bool>, limit: nat, span: int)
    requires attempts != [] && |decisions| == |attempts| && limit >= 1
    requires DeniesOnlyWhenFull(attempts, decisions, limit, span)
    ensures DeniesOnlyWhenFull(attempts[..|attempts| - 1], decisions[..|attempts| - 1], limit, span)
  {
    var before, past := attempts[..|attempts| - 1], decisions[..|attempts| - 1];
    forall k | 0 <= k < |before| && !past[k] ensures FullAt(Chosen(before[..k], past[..k]), before[k], limit, span) {
      assert before[..k] == attempts[..k] && past[..k] == decisions[..k] && !decisions[k];
    }
  }

  lemma FullPush(attempts: seq<int>, decisions: seq<bool>, y: int, admitted: bool, limit: nat, span: int)
    requires |decisions| == |attempts| && limit >= 1 && DeniesOnlyWhenFull(attempts, decisions, limit, span)
    requires !admitted ==> FullAt(Chosen(attempts, decisions), y, limit, span)
    ensures DeniesOnlyWhenFull(attempts + [y], decisions + [admitted], limit, span)
  {
    var all, policy := attempts + [y], decisions + [admitted];
    forall k | 0 <= k < |all| && !policy[k] ensures FullAt(Chosen(all[..k], policy[..k]), all[k], limit, span) {
      if k < |attempts| {
        assert all[..k] == attempts[..k] && policy[..k] == decisions[..k];
      } else {
        assert all[..k] == attempts && policy[..k] == decisions;
      }
    }
  }

  /** Such a policy stays ahead: on ordered attempts, any choice that puts at most `limit` into
      each window has admitted no more, and its m-th admission comes no earlier. */
  lemma {:induction false} GreedyStaysAhead(attempts: seq<int>, decisions: seq<bool>, choice: seq<bool>, limit: nat, span: int)
    requires |decisions| == |choice| == |attempts| && Sorted(attempts) && limit >= 1 && span > 0
    requires DeniesOnlyWhenFull(attempts, decisions, limit, span)
    requires BoundedIn(Chosen(attempts, choice), span, limit)
    ensures Ahead(Chosen(attempts, decisions), Chosen(attempts, choice))
  {
    if attempts != [] {
      var last := |attempts| - 1;
      var before, y := attempts[..last], attempts[last];
      var ours, theirs, all := Chosen(before, decisions[..last]), Chosen(before, choice[..last]), Chosen(attempts, choice);
      FullPrefix(attempts, decisions, limit, span);
      assert all[..|theirs|] == theirs;
      BoundedPrefix(all, |theirs|, span, limit);
      GreedyStaysAhead(before, decisions[..last], choice[..last], limit, span);
      ChosenSorted(before, choice[..last], y);
      ChosenSorted(before, decisions[..last], y);
      assert forall i :: 0 <= i < |ours| ==> ours[i] in ours;
      PolicyStep(ours, theirs, y, decisions[last], choice[last], limit, span);
    }
  }

  lemma {:induction false} ChosenPrefix(attempts: seq<int>, choice: seq<bool>, k: nat)
    requires |choice| == |attempts| && k <= |attempts|
    ensures Chosen(attempts[..k], choice[..k]) <= Chosen(attempts, choice)
  {
    if k == |attempts| {
      assert attempts[..k] == attempts && choice[..k] == choice;
    } else {
      var last := |attempts| - 1;
      ChosenPrefix(attempts[..last], choice[..last], k);
      assert attempts[..last][..k] == attempts[..k] && choice[..last][..k] == choice[..k];
    }
  }

  // ---- `Allow` is one ----

  /** The window in milliseconds, rounded up: as many stamps as the cut can leave. */
  function WindowMillisUp(rule: Rule): int {
    (rule.window + NANOS_PER_MILLI - 1) / NANOS_PER_MILLI
  }

  lemma CutReach(n: int, rule: Rule)
    ensures Cut(n, rule.window) >= Stamp(n) - WindowMillisUp(rule)
    ensures rule.window > 0 ==> WindowMillisUp(rule) > 0
    ensures rule.window % NANOS_PER_MILLI == 0 ==> WindowMillisUp(rule) == WindowMillis(rule)
  {
  }

  /** What a policy is compared on: admissions by stamps, or by readings of the clock. */
  datatype Scale = ByStamp | ByReading

  function Scaled(scale: Scale, nows: seq<int>): seq<int> {
    if scale.ByStamp? then Stamps(nows) else nows
  }

  /** The window on that scale. */
  function Span(scale: Scale, rule: Rule): int {
    if scale.ByStamp? then WindowMillisUp(rule) else rule.window
  }

  lemma AdmittedPush(scale: Scale, rule: Rule, nows: seq<int>, n: int, y: int)
    requires [y] == Scaled(scale, [n])
    ensures Scaled(scale, nows + [n]) == Scaled(scale, nows) + [y] && |Scaled(scale, nows)| == |nows|
    ensures Scaled(scale, Admitted(rule, nows + [n]))
         == if AdmitsLast(rule, nows + [n]) then Scaled(scale, Admitted(rule, nows)) + [y] else Scaled(scale, Admitted(rule, nows))
  {
    assert Scaled(scale, [n])[0] == y;
    AttemptUnfold(rule, nows, n);
  }

  /** A denial: the admission `limit` places back is still inside the window. */
  lemma DenialIsRecent(scale: Scale, rule: Rule, nows: seq<int>, n: int, ours: seq<int>, y: int, span: int)
    requires Working(rule) && Sorted(nows + [n]) && !AdmitsLast(rule, nows + [n])
    requires ours == Scaled(scale, Admitted(rule, nows)) && [y] == Scaled(scale, [n]) && span == Span(scale, rule)
    ensures FullAt(ours, y, rule.limit, span)
  {
    DenialWitness(rule, nows, n);
    CutReach(n, rule);
    if scale.ByStamp? {
      DenialLive(rule, nows, n);
      assert Scaled(scale, [n])[0] == Stamp(n);
    }
  }

  lemma DenialLive(rule: Rule, nows: seq<int>, n: int)
    requires Working(rule) && Sorted(nows + [n]) && !AdmitsLast(rule, nows + [n])
    ensures |Admitted(rule, nows)| >= rule.limit
    ensures Stamps(Admitted(rule, nows))[|Admitted(rule, nows)| - rule.limit] > Cut(n, rule.window)
  {
    SortedStamps(nows, n);
    SkewHeld(rule, nows, n, 0);
    LiveIsTail(rule, nows, n);
    LeftIsLive(rule, nows, n, |Admitted(rule, nows)| - rule.limit);
  }

  lemma SortedOn(scale: Scale, nows: seq<int>)
    requires Sorted(nows)
    ensures Sorted(Scaled(scale, nows))
  {
    forall i, j | 0 <= i < j < |nows| ensures Scaled(scale, nows)[i] <= Scaled(scale, nows)[j] {
      assert nows[i] <= nows[j];
    }
  }

  function Decisions(rule: Rule, nows: seq<int>): (decisions: seq<bool>)
    ensures |decisions| == |nows|
  {
    if nows == [] then [] else Decisions(rule, nows[..|nows| - 1]) + [AdmitsLast(rule, nows)]
  }

  lemma {:induction false} AdmittedIsChosen(scale: Scale, rule: Rule, nows: seq<int>)
    ensures Scaled(scale, Admitted(rule, nows)) == Chosen(Scaled(scale, nows), Decisions(rule, nows))
  {
    if nows != [] {
      var before, n := nows[..|nows| - 1], nows[|nows| - 1];
      var y := if scale.ByStamp? then Stamp(n) else n;
      assert before + [n] == nows && Scaled(scale, [n]) == [y];
      AdmittedIsChosen(scale, rule, before);
      AdmittedPush(scale, rule, before, n, y);
    }
  }

  lemma LastDenial(scale: Scale, rule: Rule, nows: seq<int>, ours: seq<int>, y: int, span: int)
    requires Working(rule) && Sorted(nows) && nows != [] && !AdmitsLast(rule, nows)
    requires ours == Scaled(scale, Admitted(rule, nows[..|nows| - 1])) && [y] == Scaled(scale, [nows[|nows| - 1]])
    requires span == Span(scale, rule)
    ensures FullAt(ours, y, rule.limit, span)
  {
    assert nows[..|nows| - 1] + [nows[|nows| - 1]] == nows;
    DenialIsRecent(scale, rule, nows[..|nows| - 1], nows[|nows| - 1], ours, y, span);
  }

  lemma {:induction false} AllowDeniesOnlyWhenFull(scale: Scale, rule: Rule, nows: seq<int>)
    requires Working(rule) && Sorted(nows)
    ensures |Scaled(scale, nows)| == |nows|
    ensures DeniesOnlyWhenFull(Scaled(scale, nows), Decisions(rule, nows), rule.limit, Span(scale, rule))
  {
    if nows != [] {
      var before, n := nows[..|nows| - 1], nows[|nows| - 1];
      var y := if scale.ByStamp? then Stamp(n) else n;
      assert before + [n] == nows && Scaled(scale, [n]) == [y];
      AllowDeniesOnlyWhenFull(scale, rule, before);
      AdmittedIsChosen(scale, rule, before);
      AdmittedPush(scale, rule, before, n, y);
      if !AdmitsLast(rule, nows) {
        LastDenial(scale, rule, nows, Scaled(scale, Admitted(rule, before)), y, Span(scale, rule));
      }
      FullPush(Scaled(scale, before), Decisions(rule, before), y, AdmitsLast(rule, nows), rule.limit, Span(scale, rule));
    }
  }

  lemma GreedyRun(scale: Scale, rule: Rule, nows: seq<int>, choice: seq<bool>)
    requires Working(rule) && Sorted(nows)
    requires |choice| == |nows| && BoundedIn(Chosen(Scaled(scale, nows), choice), Span(scale, rule), rule.limit)
    ensures Ahead(Scaled(scale, Admitted(rule, nows)), Chosen(Scaled(scale, nows), choice))
  {
    AllowDeniesOnlyWhenFull(scale, rule, nows);
    SortedOn(scale, nows);
    CutReach(0, rule);
    GreedyStaysAhead(Scaled(scale, nows), Decisions(rule, nows), choice, rule.limit, Span(scale, rule));
    AdmittedIsChosen(scale, rule, nows);
  }

  /** Greedy optimality in every prefix of the run. On non-decreasing arrivals a choice of
      admissions with at most `limit` in each window has admitted no more than `Allow`, and its
      m-th admission is no earlier. By stamps the window a policy is held to is rounded up to
      milliseconds, which changes nothing for whole-millisecond windows; by clock readings it
      is the window itself. */
  lemma GreedyIsOptimal(scale: Scale, rule: Rule, nows: seq<int>, choice: seq<bool>, k: nat)
    requires Working(rule) && Sorted(nows)
    requires |choice| == |nows| && BoundedIn(Chosen(Scaled(scale, nows), choice), Span(scale, rule), rule.limit)
    requires k <= |nows|
    ensures Ahead(Scaled(scale, Admitted(rule, nows[..k])), Chosen(Scaled(scale, nows[..k]), choice[..k]))
  {
    var all := Chosen(Scaled(scale, nows), choice);
    ChosenPrefix(Scaled(scale, nows), choice, k);
    assert Scaled(scale, nows)[..k] == Scaled(scale, nows[..k]);
    var theirs := Chosen(Scaled(scale, nows[..k]), choice[..k]);
    BoundedPrefix(all, |theirs|, Span(scale, rule), rule.limit);
    assert all[..|theirs|] == theirs;
    assert Sorted(nows[..k]);
    GreedyRun(scale, rule, nows[..k], choice[..k]);
  }

  // ---- When `Allow` is one of its own rivals ----

  /** On every ordered run `Allow` keeps the bound its rivals are held to. */
  ghost predicate Feasible(scale: Scale, rule: Rule) {
    forall nows :: Sorted(nows) ==> BoundedIn(Scaled(scale, Admitted(rule, nows)), Span(scale, rule), rule.limit)
  }

  lemma SortedRunBound(rule: Rule, nows: seq<int>)
    requires Working(rule) && Sorted(nows)
    ensures BoundedIn(Stamps(Admitted(rule, nows)), WindowMillis(rule), rule.limit)
  {
    SortedIsUnskewed(nows);
    SkewBound(rule, nows, 0);
  }

  lemma UpIsMore(window: int)
    requires window > 0 && window % NANOS_PER_MILLI != 0
    ensures (window + NANOS_PER_MILLI - 1) / NANOS_PER_MILLI > window / NANOS_PER_MILLI
  {
  }

  lemma StampsOfBurst(n: nat, first: int, last: int, a: int, b: int)
    requires a == Stamp(first) && b == Stamp(last)
    ensures Stamps(seq(n, _ => first) + [last]) == seq(n, _ => a) + [b]
  {
  }

  lemma NotFeasible(rule: Rule, nows: seq<int>, stamps: seq<int>, up: int)
    requires Sorted(nows) && Admitted(rule, nows) == nows && stamps == Stamps(nows) && up == Span(ByStamp, rule)
    requires !BoundedIn(stamps, up, rule.limit)
    ensures !Feasible(ByStamp, rule)
  {
  }

  lemma BurstAndOne(rule: Rule, first: int, last: int, nows: seq<int>)
    requires Working(rule) && first <= last && Cut(first, rule.window) < Stamp(first) <= Cut(last, rule.window)
    requires nows == seq(rule.limit, _ => first) + [last]
    ensures Sorted(nows) && Admitted(rule, nows) == nows
  {
    BurstThenAdmits(rule, first, last);
  }

  lemma BurstAndOneBreak(rule: Rule, w: int, up: int, nows: seq<int>, stamps: seq<int>)
    requires Working(rule) && 0 <= w < up && up == Span(ByStamp, rule)
    requires Sorted(nows) && Admitted(rule, nows) == nows && stamps == Stamps(nows) == seq(rule.limit, _ => 0) + [w]
    ensures !Feasible(ByStamp, rule)
  {
    OneTooMany(0, w, rule.limit, up);
    NotFeasible(rule, nows, stamps, up);
  }

  /** A window that is not whole milliseconds: a burst and one attempt a window later lie
      within the window rounded up. */
  lemma PartMilliBreaks(rule: Rule)
    requires Working(rule) && rule.window % NANOS_PER_MILLI != 0
    ensures !Feasible(ByStamp, rule)
  {
    LateRunTimes(rule.window, WindowMillis(rule) * NANOS_PER_MILLI, 0);
    UpIsMore(rule.window);
    var w := WindowMillis(rule);
    var nows, stamps := seq(rule.limit, _ => 0) + [rule.window], seq(rule.limit, _ => 0) + [w];
    BurstAndOne(rule, 0, rule.window, nows);
    StampsOfBurst(rule.limit, 0, rule.window, 0, w);
    BurstAndOneBreak(rule, w, WindowMillisUp(rule), nows, stamps);
  }

  lemma RoundingBreaks(rule: Rule)
    requires Working(rule)
    ensures !Feasible(ByReading, rule)
  {
    RealBoundIsExact(rule, 0, rule.window);
    var nows :| Disordered(nows, 0) && !BoundedIn(Admitted(rule, nows), rule.window, rule.limit);
    SortedIsDisordered(nows);
  }

  /** `Allow` keeps the bound its rivals are held to, and so is optimal among them, exactly by
      stamps and for windows of whole milliseconds. Otherwise it is at least as far as every
      rival by admitting more than the bound lets a rival admit. */
  lemma GreedyIsFeasible(scale: Scale, rule: Rule)
    requires Working(rule)
    ensures Feasible(scale, rule) <==> scale.ByStamp? && rule.window % NANOS_PER_MILLI == 0
  {
    if scale.ByReading? {
      RoundingBreaks(rule);
    } else if rule.window % NANOS_PER_MILLI == 0 {
      CutReach(0, rule);
      forall nows | Sorted(nows) ensures BoundedIn(Stamps(Admitted(rule, nows)), Span(scale, rule), rule.limit) {
        SortedRunBound(rule, nows);
      }
    } else {
      PartMilliBreaks(rule);
    }
  }
}
