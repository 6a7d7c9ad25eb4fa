/** One bucket in Redis: a sorted set into which every attempt, admitted or not, is recorded. */
module RedisWindow {
  import opened SlidingWindow
  import opened WindowTheorems
  import opened Text

  /** A sorted set: each member with its score. */
  type Scores = map<string, int>

  /** One call of `Allow`: the client's clock in nanoseconds, the random suffix, and the
      server's own clock, which only the expiry of the key looks at. */
  datatype Try = Try(now: nat, suffix: nat, server: int)

  function ZAdd(scores: Scores, member: string, score: int): Scores {
    scores[member := score]
  }

  function ZRemRangeByScore(scores: Scores, lo: int, hi: int): Scores {
    map m | m in scores && !(lo <= scores[m] <= hi) :: scores[m]
  }

  /** Duration.Milliseconds, which truncates toward zero. */
  function Milliseconds(d: int): int {
    if d >= 0 then d / NANOS_PER_MILLI else -((-d) / NANOS_PER_MILLI)
  }

  function MemberOf(t: Try): string {
    Member(Stamp(t.now), t.suffix)
  }

  /** The set after the transaction of one attempt. */
  function Touch(scores: Scores, window: int, t: Try): Scores {
    ZRemRangeByScore(ZAdd(scores, MemberOf(t), Stamp(t.now)), 0, Stamp(t.now) - Milliseconds(window))
  }

  function ScoresAfter(rule: Rule, tries: seq<Try>): Scores {
    if tries == [] then map[]
    else Touch(ScoresAfter(rule, tries[..|tries| - 1]), rule.window, tries[|tries| - 1])
  }

  /** The decision on the last attempt. */
  predicate Grants(rule: Rule, tries: seq<Try>)
    requires tries != []
  {
    |ScoresAfter(rule, tries)| <= rule.limit
  }

  function Nows(tries: seq<Try>): (nows: seq<int>)
    ensures |nows| == |tries|
    ensures forall i :: 0 <= i < |tries| ==> nows[i] == tries[i].now
  {
    seq(|tries|, i requires 0 <= i < |tries| => tries[i].now)
  }

  /** Stamps of the attempts that were granted. */
  function Granted(rule: Rule, tries: seq<Try>): seq<int> {
    if tries == [] then []
    else
      var before := Granted(rule, tries[..|tries| - 1]);
      if Grants(rule, tries) then before + [Stamp(tries[|tries| - 1].now)] else before
  }

  /** The random suffixes have kept the members apart. */
  ghost predicate DistinctMembers(tries: seq<Try>) {
    forall i, j :: 0 <= i < j < |tries| ==> MemberOf(tries[i]) != MemberOf(tries[j])
  }

  // ---- What the set holds ----

  /** Members with a score in [lo, hi). */
  function Slice(scores: Scores, lo: int, hi: int): set<string> {
    set m | m in scores && lo <= scores[m] < hi
  }

  /** Members of the attempts stamped in [lo, hi). */
  function MembersIn(tries: seq<Try>, lo: int, hi: int): set<string> {
    set i | 0 <= i < |tries| && lo <= Stamp(tries[i].now) < hi :: MemberOf(tries[i])
  }

  /** Every score is the stamp its member was built from. */
  lemma {:induction false} ScoresAreStamps(rule: Rule, tries: seq<Try>, m: string)
    requires m in ScoresAfter(rule, tries)
    ensures exists i :: 0 <= i < |tries| && MemberOf(tries[i]) == m && Stamp(tries[i].now) == ScoresAfter(rule, tries)[m]
  {
    var before, last := tries[..|tries| - 1], |tries| - 1;
    if m == MemberOf(tries[last]) {
      assert ScoresAfter(rule, tries)[m] == Stamp(tries[last].now);
    } else {
      ScoresAreStamps(rule, before, m);
      var i :| 0 <= i < |before| && MemberOf(before[i]) == m && Stamp(before[i].now) == ScoresAfter(rule, before)[m];
      assert tries[i] == before[i];
    }
  }

  /** lo lies above every cut made so far. */
  ghost predicate AboveCuts(rule: Rule, tries: seq<Try>, lo: int) {
    lo >= 0 && forall i :: 0 <= i < |tries| ==> lo > Stamp(tries[i].now) - WindowMillis(rule)
  }

  /** Above the cuts the set is exactly what was recorded: ZCARD counts distinct
      (milliseconds, suffix) pairs, whatever order the stamps came in. */
  lemma {:induction false} SliceIsMembers(rule: Rule, tries: seq<Try>, lo: int, hi: int)
    requires rule.window > 0 && AboveCuts(rule, tries, lo)
    ensures Slice(ScoresAfter(rule, tries), lo, hi) == MembersIn(tries, lo, hi)
  {
    if tries != [] {
      var before, t := tries[..|tries| - 1], tries[|tries| - 1];
      assert forall i :: 0 <= i < |before| ==> before[i] == tries[i];
      SliceIsMembers(rule, before, lo, hi);
      MembersPush(before, t, lo, hi);
      assert before + [t] == tries;
      SliceTouch(rule, ScoresAfter(rule, before), t, lo, hi) by {
        forall m | m in ScoresAfter(rule, before) && m == MemberOf(t) ensures ScoresAfter(rule, before)[m] == Stamp(t.now) {
          ScoreOfMember(rule, before, t);
        }
      }
    }
  }

  /** A member's text fixes its score. */
  lemma ScoreOfMember(rule: Rule, tries: seq<Try>, t: Try)
    requires MemberOf(t) in ScoresAfter(rule, tries)
    ensures ScoresAfter(rule, tries)[MemberOf(t)] == Stamp(t.now)
  {
    ScoresAreStamps(rule, tries, MemberOf(t));
    var i :| 0 <= i < |tries| && MemberOf(tries[i]) == MemberOf(t)
          && Stamp(tries[i].now) == ScoresAfter(rule, tries)[MemberOf(t)];
    MemberInjective(Stamp(tries[i].now), tries[i].suffix, Stamp(t.now), t.suffix);
  }

  lemma SliceTouch(rule: Rule, scores: Scores, t: Try, lo: int, hi: int)
    requires rule.window > 0 && lo > Stamp(t.now) - WindowMillis(rule)
    requires MemberOf(t) in scores ==> scores[MemberOf(t)] == Stamp(t.now)
    ensures Slice(Touch(scores, rule.window, t), lo, hi)
         == Slice(scores, lo, hi) + if lo <= Stamp(t.now) < hi then {MemberOf(t)} else {}
  {
  }

  lemma MembersPush(tries: seq<Try>, t: Try, lo: int, hi: int)
    ensures MembersIn(tries + [t], lo, hi)
         == MembersIn(tries, lo, hi) + if lo <= Stamp(t.now) < hi then {MemberOf(t)} else {}
  {
    var all := tries + [t];
    forall m ensures m in MembersIn(all, lo, hi)
        <==> m in MembersIn(tries, lo, hi) || (lo <= Stamp(t.now) < hi && m == MemberOf(t)) {
      if m in MembersIn(tries, lo, hi) {
        var i :| 0 <= i < |tries| && lo <= Stamp(tries[i].now) < hi && MemberOf(tries[i]) == m;
        assert all[i] == tries[i];
      }
      if lo <= Stamp(t.now) < hi && m == MemberOf(t) {
        assert all[|tries|] == t;
      }
    }
  }

  // ---- What the set holds, whatever the order of the stamps ----

  /** No attempt from i on, itself included, has made a cut that reaches attempt i. */
  ghost predicate Survives(rule: Rule, tries: seq<Try>, i: int) {
    0 <= i < |tries| && forall j :: i <= j < |tries| ==> Stamp(tries[i].now) > Stamp(tries[j].now) - WindowMillis(rule)
  }

  lemma SurvivesPush(rule: Rule, tries: seq<Try>, t: Try, i: int)
    ensures Survives(rule, tries + [t], i) <==>
      || (Survives(rule, tries, i) && Stamp(tries[i].now) > Stamp(t.now) - WindowMillis(rule))
      || (i == |tries| && WindowMillis(rule) > 0)
  {
    var all := tries + [t];
    assert all[|tries|] == t && forall j :: 0 <= j < |tries| ==> all[j] == tries[j];
  }

  /** One transaction on one member. */
  lemma TouchMember(scores: Scores, rule: Rule, t: Try, m: string)
    requires rule.window > 0 && (m in scores ==> scores[m] >= 0)
    ensures m in Touch(scores, rule.window, t) <==>
      if m == MemberOf(t) then WindowMillis(rule) > 0 else m in scores && scores[m] > Stamp(t.now) - WindowMillis(rule)
  {
  }

  ghost predicate HasSurvivor(rule: Rule, tries: seq<Try>, m: string) {
    exists i :: Survives(rule, tries, i) && MemberOf(tries[i]) == m
  }

  lemma SurvivorPush(rule: Rule, tries: seq<Try>, t: Try, m: string)
    ensures m == MemberOf(t) && WindowMillis(rule) > 0 ==> HasSurvivor(rule, tries + [t], m)
    ensures HasSurvivor(rule, tries + [t], m) ==>
      (m == MemberOf(t) && WindowMillis(rule) > 0)
      || exists i :: Survives(rule, tries, i) && MemberOf(tries[i]) == m && Stamp(tries[i].now) > Stamp(t.now) - WindowMillis(rule)
    ensures (exists i :: Survives(rule, tries, i) && MemberOf(tries[i]) == m && Stamp(tries[i].now) > Stamp(t.now) - WindowMillis(rule))
      ==> HasSurvivor(rule, tries + [t], m)
  {
    var all := tries + [t];
    if m == MemberOf(t) && WindowMillis(rule) > 0 {
      SurvivesPush(rule, tries, t, |tries|);
      assert Survives(rule, all, |tries|) && all[|tries|] == t;
    }
    if HasSurvivor(rule, all, m) {
      var i :| Survives(rule, all, i) && MemberOf(all[i]) == m;
      SurvivesPush(rule, tries, t, i);
    }
    if i :| Survives(rule, tries, i) && MemberOf(tries[i]) == m && Stamp(tries[i].now) > Stamp(t.now) - WindowMillis(rule) {
      SurvivesPush(rule, tries, t, i);
      assert Survives(rule, all, i) && all[i] == tries[i];
    }
  }

  /** The exact content of the set: a member is there exactly when some attempt with that
      member has not been reached by its own or a later cut, in whatever order stamps come. */
  lemma {:induction false} ExactSet(rule: Rule, tries: seq<Try>, m: string)
    requires rule.window > 0
    ensures m in ScoresAfter(rule, tries) <==> HasSurvivor(rule, tries, m)
  {
    if tries != [] {
      var before, t := tries[..|tries| - 1], tries[|tries| - 1];
      assert before + [t] == tries;
      ExactSet(rule, before, m);
      SurvivorPush(rule, before, t, m);
      ExactStep(rule, before, t, m);
    }
  }

  lemma ExactStep(rule: Rule, tries: seq<Try>, t: Try, m: string)
    requires rule.window > 0 && (m in ScoresAfter(rule, tries) <==> HasSurvivor(rule, tries, m))
    ensures m in Touch(ScoresAfter(rule, tries), rule.window, t) <==>
      || (m == MemberOf(t) && WindowMillis(rule) > 0)
      || exists i :: Survives(rule, tries, i) && MemberOf(tries[i]) == m && Stamp(tries[i].now) > Stamp(t.now) - WindowMillis(rule)
  {
    var scores := ScoresAfter(rule, tries);
    if m in scores {
      var i :| Survives(rule, tries, i) && MemberOf(tries[i]) == m;
      ScoreOfMember(rule, tries, tries[i]);
    }
    TouchMember(scores, rule, t, m);
    if i :| Survives(rule, tries, i) && MemberOf(tries[i]) == m && Stamp(tries[i].now) > Stamp(t.now) - WindowMillis(rule) {
      ScoreOfMember(rule, tries, tries[i]);
      if m == MemberOf(t) {
        MemberInjective(Stamp(tries[i].now), tries[i].suffix, Stamp(t.now), t.suffix);
        SelfSurvives(rule, tries, i);
      }
    }
  }

  lemma SelfSurvives(rule: Rule, tries: seq<Try>, i: int)
    requires Survives(rule, tries, i)
    ensures WindowMillis(rule) > 0
  {
    assert Stamp(tries[i].now) > Stamp(tries[i].now) - WindowMillis(rule);
  }

  ghost function Survivors(rule: Rule, tries: seq<Try>): set<int> {
    set i | 0 <= i < |tries| && Survives(rule, tries, i)
  }

  ghost predicate PlacesIn(places: set<int>, n: nat) {
    forall i :: i in places ==> 0 <= i < n
  }

  ghost function MembersAt(tries: seq<Try>, places: set<int>): set<string>
    requires PlacesIn(places, |tries|)
  {
    set i | i in places :: MemberOf(tries[i])
  }

  lemma AnyOf<T>(s: set<T>) returns (x: T)
    requires s != {}
    ensures x in s
  {
    x :| x in s;
  }

  lemma OneMoreMember(tries: seq<Try>, places: set<int>, i: int, rest: set<int>)
    requires DistinctMembers(tries) && PlacesIn(places, |tries|) && i in places && rest == places - {i}
    ensures PlacesIn(rest, |tries|) && MemberOf(tries[i]) !in MembersAt(tries, rest)
    ensures MembersAt(tries, places) == MembersAt(tries, rest) + {MemberOf(tries[i])}
  {
  }

  lemma {:induction false} AsManyMembers(tries: seq<Try>, places: set<int>)
    requires DistinctMembers(tries) && PlacesIn(places, |tries|)
    ensures |MembersAt(tries, places)| == |places|
    decreases |places|
  {
    if |places| == 0 {
      assert MembersAt(tries, places) == {};
    } else {
      var i := AnyOf(places);
      OneMoreMember(tries, places, i, places - {i});
      AsManyMembers(tries, places - {i});
    }
  }

  /** So the decision for any order of the stamps: an attempt is granted exactly when at most
      `limit` attempts, itself included, have not been reached by a cut. */
  lemma DecisionInAnyOrder(rule: Rule, tries: seq<Try>)
    requires rule.window > 0 && tries != [] && DistinctMembers(tries)
    ensures Grants(rule, tries) <==> |Survivors(rule, tries)| <= rule.limit
  {
    var places := Survivors(rule, tries);
    forall m ensures m in ScoresAfter(rule, tries) <==> m in MembersAt(tries, places) {
      ExactSet(rule, tries, m);
      if HasSurvivor(rule, tries, m) {
        var i :| Survives(rule, tries, i) && MemberOf(tries[i]) == m;
        assert i in places;
      }
    }
    AsManyMembers(tries, places);
    SizeOfKeys(ScoresAfter(rule, tries), MembersAt(tries, places));
  }

  function Recorded(tries: seq<Try>): seq<int> {
    Stamps(Nows(tries))
  }

  lemma RecordedPush(tries: seq<Try>)
    requires tries != []
    ensures Recorded(tries) == Recorded(tries[..|tries| - 1]) + [Stamp(tries[|tries| - 1].now)]
    ensures Nows(tries) == Nows(tries[..|tries| - 1]) + [tries[|tries| - 1].now]
  {
  }

  lemma LastMemberIsFresh(tries: seq<Try>, lo: int, hi: int)
    requires tries != [] && DistinctMembers(tries)
    ensures DistinctMembers(tries[..|tries| - 1])
    ensures MemberOf(tries[|tries| - 1]) !in MembersIn(tries[..|tries| - 1], lo, hi)
  {
    var before := tries[..|tries| - 1];
    assert forall i :: 0 <= i < |before| ==> before[i] == tries[i];
  }

  lemma CountRecorded(tries: seq<Try>, t: Try, lo: int, hi: int)
    ensures CountIn(Recorded(tries + [t]), lo, hi) == CountIn(Recorded(tries), lo, hi) + if lo <= Stamp(t.now) < hi then 1 else 0
  {
    assert Recorded(tries + [t]) == Recorded(tries) + [Stamp(t.now)];
    CountPush(Recorded(tries), Stamp(t.now), lo, hi);
  }

  /** With distinct members, members are as many as attempts. */
  lemma {:induction false} MembersCount(tries: seq<Try>, lo: int, hi: int)
    requires DistinctMembers(tries)
    ensures |MembersIn(tries, lo, hi)| == CountIn(Recorded(tries), lo, hi)
  {
    if tries == [] {
      assert MembersIn(tries, lo, hi) == {} && Recorded(tries) == [];
    } else {
      var before, t := tries[..|tries| - 1], tries[|tries| - 1];
      LastMemberIsFresh(tries, lo, hi);
      MembersCount(before, lo, hi);
      MembersPush(before, t, lo, hi);
      CountRecorded(before, t, lo, hi);
      assert before + [t] == tries;
    }
  }

  // ---- Many instances ----

  lemma {:induction false} GrantedAreRecorded(rule: Rule, tries: seq<Try>, lo: int, hi: int)
    ensures CountIn(Granted(rule, tries), lo, hi) <= CountIn(Recorded(tries), lo, hi)
  {
    if tries != [] {
      var before, t := tries[..|tries| - 1], tries[|tries| - 1];
      GrantedAreRecorded(rule, before, lo, hi);
      RecordedPush(tries);
      CountPush(Recorded(before), Stamp(t.now), lo, hi);
      CountPush(Granted(rule, before), Stamp(t.now), lo, hi);
    }
  }

  lemma SliceAtMost(scores: Scores, lo: int, hi: int)
    ensures |Slice(scores, lo, hi)| <= |scores|
  {
    assert Slice(scores, lo, hi) <= scores.Keys;
    CardinalityMonotone(Slice(scores, lo, hi), scores.Keys);
  }

  lemma {:induction false} CardinalityMonotone<T>(a: set<T>, b: set<T>)
    requires a <= b
    ensures |a| <= |b|
  {
    if a != {} {
      var x :| x in a;
      CardinalityMonotone(a - {x}, b - {x});
    }
  }

  lemma TouchGrowsByOne(scores: Scores, window: int, t: Try)
    ensures |Touch(scores, window, t)| <= |scores| + 1
  {
    var touched := Touch(scores, window, t);
    assert touched.Keys <= scores.Keys + {MemberOf(t)};
    CardinalityMonotone(touched.Keys, scores.Keys + {MemberOf(t)});
    assert |scores.Keys + {MemberOf(t)}| <= |scores.Keys| + 1;
  }

  /** No client's stamp runs more than d ms ahead of one that is executed later. */
  ghost predicate ClientsSkewed(tries: seq<Try>, d: int) {
    Skewed(Nows(tries), d)
  }

  /** A grant sees every attempt of the interval its own stamp lies in. */
  lemma GrantRoom(rule: Rule, tries: seq<Try>, d: int, lo: int, hi: int)
    requires Working(rule) && ClientsSkewed(tries, d) && d >= 0 && DistinctMembers(tries)
    requires tries != [] && Grants(rule, tries)
    requires hi - lo <= WindowMillis(rule) - d && lo <= Stamp(tries[|tries| - 1].now) < hi && lo >= 0
    ensures CountIn(Recorded(tries), lo, hi) <= rule.limit
  {
    var nows := Nows(tries);
    forall i | 0 <= i < |tries| ensures lo > Stamp(tries[i].now) - WindowMillis(rule) {
      assert Stamp(nows[i]) <= Stamp(nows[|tries| - 1]) + d;
    }
    SliceIsMembers(rule, tries, lo, hi);
    MembersCount(tries, lo, hi);
    SliceAtMost(ScoresAfter(rule, tries), lo, hi);
  }

  lemma {:induction false} CountFromZero(s: seq<int>, lo: int, hi: int)
    requires lo < 0 && forall i :: 0 <= i < |s| ==> s[i] >= 0
    ensures CountIn(s, lo, hi) == CountIn(s, 0, hi)
  {
    if s != [] {
      CountFromZero(s[..|s| - 1], lo, hi);
    }
  }

  lemma GrantedPush(rule: Rule, tries: seq<Try>, lo: int, hi: int)
    requires tries != [] && Grants(rule, tries)
    ensures CountIn(Granted(rule, tries), lo, hi)
         == CountIn(Granted(rule, tries[..|tries| - 1]), lo, hi) + if lo <= Stamp(tries[|tries| - 1].now) < hi then 1 else 0
  {
    CountPush(Granted(rule, tries[..|tries| - 1]), Stamp(tries[|tries| - 1].now), lo, hi);
  }

  lemma GrantKeepsBound(rule: Rule, tries: seq<Try>, d: int, lo: int, hi: int)
    requires Working(rule) && ClientsSkewed(tries, d) && d >= 0 && DistinctMembers(tries)
    requires tries != [] && Grants(rule, tries) && hi - lo <= WindowMillis(rule) - d
    requires CountIn(Granted(rule, tries[..|tries| - 1]), lo, hi) <= rule.limit
    ensures CountIn(Granted(rule, tries), lo, hi) <= rule.limit
  {
    GrantedPush(rule, tries, lo, hi);
    if lo <= Stamp(tries[|tries| - 1].now) < hi {
      var lo' := if lo < 0 then 0 else lo;
      GrantedAreRecorded(rule, tries, lo, hi);
      if lo < 0 {
        CountFromZero(Recorded(tries), lo, hi);
      }
      GrantRoom(rule, tries, d, lo', hi);
    }
  }

  /** The window guarantee over any number of service instances on one Redis. With atomic
      transactions, distinct members and clients whose stamps are out of execution order by at
      most d ms, every interval no longer than window - d holds at most `limit` grants. */
  lemma {:induction false} ManyInstancesBound(rule: Rule, tries: seq<Try>, d: int)
    requires Working(rule) && ClientsSkewed(tries, d) && d >= 0 && DistinctMembers(tries)
    ensures BoundedIn(Granted(rule, tries), WindowMillis(rule) - d, rule.limit)
  {
    if tries != [] {
      LastMemberIsFresh(tries, 0, 0);
      SkewedPrefix(Nows(tries), d);
      RecordedPush(tries);
      assert Nows(tries)[..|tries| - 1] == Nows(tries[..|tries| - 1]);
      ManyInstancesBound(rule, tries[..|tries| - 1], d);
      if Grants(rule, tries) {
        forall lo, hi | hi - lo <= WindowMillis(rule) - d ensures CountIn(Granted(rule, tries), lo, hi) <= rule.limit {
          GrantKeepsBound(rule, tries, d, lo, hi);
        }
      }
    }
  }

  /** A denial is witnessed by more than `limit` recorded attempts, the denied one included,
      all newer than that client's own cut. */
  lemma RedisDenialWitness(rule: Rule, tries: seq<Try>)
    requires Working(rule) && tries != [] && !Grants(rule, tries)
    ensures |ScoresAfter(rule, tries)| >= rule.limit + 1
    ensures forall m :: m in ScoresAfter(rule, tries) ==>
      ScoresAfter(rule, tries)[m] > Stamp(tries[|tries| - 1].now) - WindowMillis(rule)
    ensures forall m :: m in ScoresAfter(rule, tries) ==> exists i ::
      0 <= i < |tries| && MemberOf(tries[i]) == m && Stamp(tries[i].now) == ScoresAfter(rule, tries)[m]
  {
    forall m | m in ScoresAfter(rule, tries)
      ensures ScoresAfter(rule, tries)[m] > Stamp(tries[|tries| - 1].now) - WindowMillis(rule)
      ensures exists i :: 0 <= i < |tries| && MemberOf(tries[i]) == m && Stamp(tries[i].now) == ScoresAfter(rule, tries)[m]
    {
      ScoresAreStamps(rule, tries, m);
    }
  }

  // ---- The decision in closed form ----

  /** In a sorted list at most `limit` elements reach lo exactly when the one `limit` places
      before the last does not. */
  lemma SortedCount(s: seq<int>, lo: int, hi: int, limit: nat)
    requires Sorted(s) && forall i :: 0 <= i < |s| ==> s[i] < hi
    ensures CountIn(s, lo, hi) <= limit <==> |s| <= limit || s[|s| - 1 - limit] < lo
  {
    if |s| <= limit {
      CountAtMostLength(s, lo, hi);
    } else if s[|s| - 1 - limit] < lo {
      FewReach(s, |s| - limit, lo, hi);
    } else {
      ManyReach(s, |s| - 1 - limit, lo, hi);
    }
  }

  lemma FewReach(s: seq<int>, k: nat, lo: int, hi: int)
    requires 0 < k <= |s| && Sorted(s) && s[k - 1] < lo
    ensures CountIn(s, lo, hi) <= |s| - k
  {
    assert s == s[..k] + s[k..];
    CountConcat(s[..k], s[k..], lo, hi);
    forall i | 0 <= i < k ensures s[..k][i] < lo {
      assert s[i] <= s[k - 1];
    }
    CountNone(s[..k], lo, hi);
    CountAtMostLength(s[k..], lo, hi);
  }

  lemma ManyReach(s: seq<int>, k: nat, lo: int, hi: int)
    requires k < |s| && Sorted(s) && s[k] >= lo && forall i :: 0 <= i < |s| ==> s[i] < hi
    ensures CountIn(s, lo, hi) >= |s| - k
  {
    forall i | 0 <= i < |s| - k ensures lo <= s[k..][i] < hi {
      assert s[k] <= s[k + i];
    }
    CountAll(s[k..], lo, hi);
    CountTail(s, k, lo, hi);
  }

  /** [lo, hi) is the window that ends with the last attempt. */
  ghost predicate LastWindow(rule: Rule, tries: seq<Try>, lo: int, hi: int)
    requires tries != []
  {
    lo == Stamp(tries[|tries| - 1].now) - WindowMillis(rule) + 1 && hi == Stamp(tries[|tries| - 1].now) + 1
  }

  /** With attempts in time order the set after one is what was recorded inside its window. */
  lemma OrderedSet(rule: Rule, tries: seq<Try>, lo: int, hi: int)
    requires rule.window > 0 && tries != [] && Sorted(Nows(tries)) && LastWindow(rule, tries, lo, hi)
    ensures ScoresAfter(rule, tries).Keys == MembersIn(tries, lo, hi)
  {
    var scores := ScoresAfter(rule, tries);
    forall m | m in scores ensures 0 <= scores[m] && lo <= scores[m] < hi {
      ScoresAreStamps(rule, tries, m);
      var i :| 0 <= i < |tries| && MemberOf(tries[i]) == m && Stamp(tries[i].now) == scores[m];
      assert Nows(tries)[i] <= Nows(tries)[|tries| - 1];
    }
    var lo' := if lo < 0 then 0 else lo;
    forall i | 0 <= i < |tries| ensures lo' > Stamp(tries[i].now) - WindowMillis(rule) {
      assert Nows(tries)[i] <= Nows(tries)[|tries| - 1];
    }
    SliceIsMembers(rule, tries, lo', hi);
    assert Slice(scores, lo', hi) == scores.Keys;
    assert MembersIn(tries, lo', hi) == MembersIn(tries, lo, hi);
  }

  lemma OrderedSize(rule: Rule, tries: seq<Try>, lo: int, hi: int)
    requires rule.window > 0 && tries != [] && Sorted(Nows(tries)) && DistinctMembers(tries)
    requires LastWindow(rule, tries, lo, hi)
    ensures |ScoresAfter(rule, tries)| == CountIn(Recorded(tries), lo, hi)
  {
    OrderedSet(rule, tries, lo, hi);
    MembersCount(tries, lo, hi);
    SizeOfKeys(ScoresAfter(rule, tries), MembersIn(tries, lo, hi));
  }

  lemma SizeOfKeys(scores: Scores, members: set<string>)
    requires scores.Keys == members
    ensures |scores| == |members|
  {
  }

  /** Attempt k since the last reset, counted from 0 and whatever became of the earlier ones,
      is granted exactly when k < limit or the attempt `limit` places earlier is at least a
      window old. */
  lemma ClosedForm(rule: Rule, tries: seq<Try>)
    requires Working(rule) && tries != [] && Sorted(Nows(tries)) && DistinctMembers(tries)
    ensures var k := |tries| - 1;
      Grants(rule, tries) <==>
        k < rule.limit || Stamp(tries[k - rule.limit].now) <= Stamp(tries[k].now) - WindowMillis(rule)
  {
    var s, k := Recorded(tries), |tries| - 1;
    ClosedFormAt(rule, tries, s, s[k] - WindowMillis(rule) + 1, s[k] + 1);
  }

  lemma ClosedFormAt(rule: Rule, tries: seq<Try>, s: seq<int>, lo: int, hi: int)
    requires Working(rule) && tries != [] && Sorted(Nows(tries)) && DistinctMembers(tries)
    requires s == Recorded(tries) && LastWindow(rule, tries, lo, hi)
    ensures Grants(rule, tries) <==> |s| <= rule.limit || s[|s| - 1 - rule.limit] < lo
  {
    RecordedSorted(tries);
    OrderedSize(rule, tries, lo, hi);
    SortedCount(s, lo, hi, rule.limit);
  }

  lemma RecordedSorted(tries: seq<Try>)
    requires tries != [] && Sorted(Nows(tries))
    ensures Sorted(Recorded(tries))
    ensures forall i :: 0 <= i < |tries| ==> Recorded(tries)[i] < Stamp(tries[|tries| - 1].now) + 1
  {
    var s := Recorded(tries);
    forall i, j | 0 <= i < j < |s| ensures s[i] <= s[j] {
      assert Nows(tries)[i] <= Nows(tries)[j];
    }
  }
}
