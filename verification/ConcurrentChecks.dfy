/** Checks that run at the same time on the in-memory store: each is three calls of one thread,
    interleaved with everything other threads do. The quota of every login, password hash and
    IP holds for the checks answered true. */
module ConcurrentChecks {
  import opened SlidingWindow
  import opened WindowTheorems
  import opened Text
  import opened BucketSteps
  import opened BucketProgress
  import opened BucketSchedules
  import opened Limits
  import opened Pipeline

  /** A check by the places in the trace at which its three calls took effect. */
  datatype CheckAt = CheckAt(req: Request, login: nat, password: nat, ip: nat)

  function PlaceOf(c: CheckAt, lt: LimitType): nat {
    match lt
    case Login => c.login
    case Password => c.password
    case Ip => c.ip
  }

  /** At place p a call on a bucket took effect and was let through. */
  predicate LetAt(trace: seq<Label>, p: nat, bucket: string) {
    && p < |trace| && trace[p].Take? && trace[p].ok
    && trace[p].job.key == bucket && trace[p].job.op.Attempt?
  }

  /** Between two places a thread makes no other call. */
  ghost predicate NextCall(trace: seq<Label>, p: nat, q: nat)
    requires p < |trace| && q < |trace|
  {
    && p < q && trace[p].tid == trace[q].tid
    && forall k :: p < k < q && trace[k].tid == trace[p].tid ==> !trace[k].Take?
  }

  /** One thread's calls for the login, the hash and the IP, one after the other, all let through:
      then, and only then, the check is answered true by the limiters. */
  ghost predicate AnsweredTrue(trace: seq<Label>, c: CheckAt) {
    && LetAt(trace, c.login, BucketKey(Name(Login), c.req.login))
    && LetAt(trace, c.password, BucketKey(Name(Password), c.req.hash))
    && LetAt(trace, c.ip, BucketKey(Name(Ip), c.req.ip))
    && NextCall(trace, c.login, c.password) && NextCall(trace, c.password, c.ip)
  }

  lemma LetAtType(trace: seq<Label>, c: CheckAt, lt: LimitType)
    requires AnsweredTrue(trace, c)
    ensures LetAt(trace, PlaceOf(c, lt), BucketKey(Name(lt), KeyOf(c.req, lt)))
  {
  }

  lemma SameCalls(trace: seq<Label>, p: nat, q: nat, q': nat)
    requires p < |trace| && q < |trace| && q' < |trace| && trace[q].Take? && trace[q'].Take?
    requires NextCall(trace, p, q) && NextCall(trace, p, q')
    ensures q == q'
  {
  }

  lemma SameCallers(trace: seq<Label>, p: nat, p': nat, q: nat)
    requires p < |trace| && p' < |trace| && q < |trace| && trace[p].Take? && trace[p'].Take?
    requires NextCall(trace, p, q) && NextCall(trace, p', q)
    ensures p == p'
  {
  }

  /** A call belongs to one check: checks that share the place of a type are the same. */
  lemma CallsAreNotShared(trace: seq<Label>, c: CheckAt, c': CheckAt, lt: LimitType)
    requires AnsweredTrue(trace, c) && AnsweredTrue(trace, c') && PlaceOf(c, lt) == PlaceOf(c', lt)
    ensures c == c'
  {
    match lt {
      case Login =>
        SameCalls(trace, c.login, c.password, c'.password);
        SameCalls(trace, c.password, c.ip, c'.ip);
      case Password =>
        SameCallers(trace, c.login, c'.login, c.password);
        SameCalls(trace, c.password, c.ip, c'.ip);
      case Ip =>
        SameCallers(trace, c.password, c'.password, c.ip);
        SameCallers(trace, c.login, c'.login, c.password);
    }
    OneBucketEach(Login, c.req.login, Login, c'.req.login);
    OneBucketEach(Password, c.req.hash, Password, c'.req.hash);
    OneBucketEach(Ip, c.req.ip, Ip, c'.req.ip);
  }

  /** No reset of the bucket has taken effect at p or later. */
  ghost predicate Unreset(trace: seq<Label>, p: nat, bucket: string) {
    forall k :: p <= k < |trace| && trace[k].Take? && trace[k].job.key == bucket ==> trace[k].job.op.Attempt?
  }

  /** Places, in order, of calls on a bucket let through since its last reset. */
  ghost predicate LetPlaces(trace: seq<Label>, places: seq<nat>, bucket: string) {
    && (forall i :: 0 <= i < |places| ==> LetAt(trace, places[i], bucket) && Unreset(trace, places[i], bucket))
    && (forall i, j :: 0 <= i < j < |places| ==> places[i] < places[j])
  }

  function StampsAt(trace: seq<Label>, places: seq<nat>): (stamps: seq<int>)
    requires forall i :: 0 <= i < |places| ==> places[i] < |trace| && trace[places[i]].Take? && trace[places[i]].job.op.Attempt?
    ensures |stamps| == |places|
  {
    seq(|places|, i requires 0 <= i < |places| => Stamp(trace[places[i]].job.op.now))
  }

  lemma LetPlacesPrefix(trace: seq<Label>, places: seq<nat>, bucket: string)
    requires trace != [] && LetPlaces(trace, places, bucket)
    requires places == [] || places[|places| - 1] < |trace| - 1
    ensures LetPlaces(trace[..|trace| - 1], places, bucket)
    ensures StampsAt(trace[..|trace| - 1], places) == StampsAt(trace, places)
  {
    var before := trace[..|trace| - 1];
    forall i | 0 <= i < |places| ensures LetAt(before, places[i], bucket) && Unreset(before, places[i], bucket) {
      assert LetAt(trace, places[i], bucket) && Unreset(trace, places[i], bucket);
    }
  }

  lemma LetThroughPush(trace: seq<Label>, bucket: string, lo: int, hi: int)
    requires trace != []
    requires var last := trace[|trace| - 1]; last.Take? && last.job.key == bucket ==> last.job.op.Attempt?
    ensures CountIn(Stamps(LetThrough(trace, bucket)), lo, hi)
         == CountIn(Stamps(LetThrough(trace[..|trace| - 1], bucket)), lo, hi)
            + if LetAt(trace, |trace| - 1, bucket) && lo <= Stamp(trace[|trace| - 1].job.op.now) < hi then 1 else 0
  {
    var before, last := LetThrough(trace[..|trace| - 1], bucket), trace[|trace| - 1];
    if LetAt(trace, |trace| - 1, bucket) {
      assert Stamps(before + [last.job.op.now]) == Stamps(before) + [Stamp(last.job.op.now)];
      CountPush(Stamps(before), Stamp(last.job.op.now), lo, hi);
    }
  }

  /** Calls picked out of those let through are no more than all of them. */
  lemma {:induction false} PickedAreLetThrough(trace: seq<Label>, places: seq<nat>, bucket: string, lo: int, hi: int)
    requires LetPlaces(trace, places, bucket)
    ensures CountIn(StampsAt(trace, places), lo, hi) <= CountIn(Stamps(LetThrough(trace, bucket)), lo, hi)
  {
    if places != [] {
      var last, picked := |trace| - 1, |places| - 1;
      assert LetAt(trace, places[picked], bucket) && Unreset(trace, places[picked], bucket);
      LetThroughPush(trace, bucket, lo, hi);
      if places[picked] == last {
        var earlier := places[..picked];
        LetPlacesPrefix(trace, earlier, bucket);
        PickedAreLetThrough(trace[..last], earlier, bucket, lo, hi);
        assert StampsAt(trace, places) == StampsAt(trace, earlier) + [Stamp(trace[last].job.op.now)];
        CountPush(StampsAt(trace, earlier), Stamp(trace[last].job.op.now), lo, hi);
      } else {
        LetPlacesPrefix(trace, places, bucket);
        PickedAreLetThrough(trace[..last], places, bucket, lo, hi);
      }
    }
  }

  function PlacesOf(checks: seq<CheckAt>, lt: LimitType): (places: seq<nat>)
    ensures |places| == |checks|
  {
    seq(|checks|, i requires 0 <= i < |checks| => PlaceOf(checks[i], lt))
  }

  /** Checks of a run answered true that name a key, since its bucket was last reset, in the
      order in which they took the bucket's lock. */
  ghost predicate TrueSinceReset(trace: seq<Label>, checks: seq<CheckAt>, lt: LimitType, key: string) {
    && (forall i :: 0 <= i < |checks| ==>
          AnsweredTrue(trace, checks[i]) && KeyOf(checks[i].req, lt) == key
          && Unreset(trace, PlaceOf(checks[i], lt), BucketKey(Name(lt), key)))
    && (forall i, j :: 0 <= i < j < |checks| ==> PlaceOf(checks[i], lt) < PlaceOf(checks[j], lt))
  }

  lemma ChecksAreLetThrough(trace: seq<Label>, checks: seq<CheckAt>, lt: LimitType, key: string)
    requires TrueSinceReset(trace, checks, lt, key)
    ensures LetPlaces(trace, PlacesOf(checks, lt), BucketKey(Name(lt), key))
  {
    forall i | 0 <= i < |checks| ensures LetAt(trace, PlacesOf(checks, lt)[i], BucketKey(Name(lt), key)) {
      LetAtType(trace, checks[i], lt);
    }
  }

  /** The guarantee of the service for checks that run concurrently. On every schedule, for
      each login, password hash and IP whose calls are stamped at most d ms out of order, every
      interval of stamps up to Reach holds at most the configured number of the checks answered
      true since the last reset. */
  lemma ConcurrentServiceBound(moves: seq<Move>, limits: Limits, checks: seq<CheckAt>, lt: LimitType, key: string, d: int)
    requires Configured(limits) && d >= 0 && TrueSinceReset(Exec(moves).trace, checks, lt, key)
    requires OneRule(moves, BucketKey(Name(lt), key), limits[lt]) && Skewed(Locked(moves, BucketKey(Name(lt), key)), d)
    ensures LetPlaces(Exec(moves).trace, PlacesOf(checks, lt), BucketKey(Name(lt), key))
    ensures BoundedIn(StampsAt(Exec(moves).trace, PlacesOf(checks, lt)), Reach(limits[lt], d), limits[lt].limit)
  {
    var trace, bucket := Exec(moves).trace, BucketKey(Name(lt), key);
    ChecksAreLetThrough(trace, checks, lt, key);
    ThreadsLetThrough(moves, bucket, limits[lt]);
    ReachIsSafe(limits[lt], Locked(moves, bucket), d, Reach(limits[lt], d));
    forall lo, hi | hi - lo <= Reach(limits[lt], d)
      ensures CountIn(StampsAt(trace, PlacesOf(checks, lt)), lo, hi) <= limits[lt].limit
    {
      PickedAreLetThrough(trace, PlacesOf(checks, lt), bucket, lo, hi);
    }
  }
}
