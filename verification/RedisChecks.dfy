/** Checks of many instances on one Redis: each is three transactions of its client, with the
    transactions of all other clients in between. The quota of every login, password hash and
    IP holds for the checks answered true. */
module RedisChecks {
  import opened SlidingWindow
  import opened WindowTheorems
  import opened Buckets
  import opened Text
  import opened BucketSteps
  import opened BucketProgress
  import opened RedisStore
  import opened RedisTheorems
  import opened RedisReach
  import opened Limits
  import opened ConcurrentChecks

  /** One transaction of a client: the attempt of a limiter, or the reset of a key. */
  datatype Tx = Tx(client: nat, key: string, rule: Rule, call: Call)

  function KeyspaceStep(ks: Keyspace, tx: Tx): Keyspace {
    match tx.call
    case Hit(t) => AllowRedis(ks, tx.key, tx.rule, t).0
    case Wipe => ResetRedis(ks, tx.key)
  }

  /** The keyspace after transactions of any clients on any keys, in the order executed. */
  function SharedKeyspace(txs: seq<Tx>): Keyspace {
    if txs == [] then map[] else KeyspaceStep(SharedKeyspace(txs[..|txs| - 1]), txs[|txs| - 1])
  }

  function AnswerTo(ks: Keyspace, tx: Tx): bool {
    match tx.call
    case Hit(t) => AllowRedis(ks, tx.key, tx.rule, t).1
    case Wipe => true
  }

  function JobOfCall(tx: Tx): KeyedOp {
    match tx.call
    case Hit(t) => KeyedOp(tx.key, Attempt(tx.rule, t.now))
    case Wipe => KeyedOp(tx.key, Clear)
  }

  /** The run as a trace: each transaction takes effect when it is executed. */
  function TraceOf(txs: seq<Tx>): (trace: seq<Label>)
    ensures |trace| == |txs|
  {
    if txs == [] then []
    else
      var before, last := txs[..|txs| - 1], txs[|txs| - 1];
      TraceOf(before) + [Take(last.client, JobOfCall(last), AnswerTo(SharedKeyspace(before), last))]
  }

  /** What was done to one key. */
  function CallsOn(txs: seq<Tx>, key: string): seq<Call> {
    if txs == [] then []
    else
      var before, last := CallsOn(txs[..|txs| - 1], key), txs[|txs| - 1];
      if last.key == key then before + [last.call] else before
  }

  ghost predicate RuleFor(txs: seq<Tx>, key: string, rule: Rule) {
    forall i :: 0 <= i < |txs| && txs[i].key == key ==> txs[i].rule == rule
  }

  /** On its own key a transaction does what it would do in a keyspace of that key alone, and
      it leaves other keys as they are. */
  lemma StepOnKey(ks: Keyspace, own: Keyspace, tx: Tx, key: string)
    requires EntryOf(ks, key) == EntryOf(own, key)
    ensures tx.key != key ==> EntryOf(KeyspaceStep(ks, tx), key) == EntryOf(ks, key)
    ensures tx.key == key ==>
      EntryOf(KeyspaceStep(ks, tx), key) == EntryOf(KeyspaceStep(own, tx), key) && AnswerTo(ks, tx) == AnswerTo(own, tx)
  {
    match tx.call
    case Hit(t) =>
      RedisIsLocal(ks, tx.key, tx.rule, t, key);
      RedisIsLocal(own, tx.key, tx.rule, t, key);
    case Wipe =>
  }

  lemma CallsOnPush(txs: seq<Tx>, key: string)
    requires txs != [] && txs[|txs| - 1].key == key
    ensures var calls := CallsOn(txs, key); calls != [] && calls[..|calls| - 1] == CallsOn(txs[..|txs| - 1], key)
    ensures var calls := CallsOn(txs, key); calls[|calls| - 1] == txs[|txs| - 1].call
  {
  }

  /** Keys are isolated: what a key holds depends on its own calls only. */
  lemma {:induction false} KeyIsOwnCalls(txs: seq<Tx>, key: string, rule: Rule)
    requires RuleFor(txs, key, rule)
    ensures EntryOf(SharedKeyspace(txs), key) == EntryOf(KeyspaceAfter(key, rule, CallsOn(txs, key)), key)
  {
    if txs != [] {
      var before, last := txs[..|txs| - 1], txs[|txs| - 1];
      KeyIsOwnCalls(before, key, rule);
      StepOnKey(SharedKeyspace(before), KeyspaceAfter(key, rule, CallsOn(before, key)), last, key);
      if last.key == key {
        CallsOnPush(txs, key);
      }
    }
  }

  lemma TraceOfPush(txs: seq<Tx>)
    requires txs != []
    ensures var trace, last := TraceOf(txs), txs[|txs| - 1];
      && trace[..|trace| - 1] == TraceOf(txs[..|txs| - 1])
      && trace[|trace| - 1] == Take(last.client, JobOfCall(last), AnswerTo(SharedKeyspace(txs[..|txs| - 1]), last))
  {
  }

  /** What a trace shows as let through on a key is what the key's own store lets through. */
  lemma {:induction false} TraceShowsPassed(txs: seq<Tx>, key: string, rule: Rule)
    requires RuleFor(txs, key, rule)
    ensures Stamps(LetThrough(TraceOf(txs), key)) == PassedBy(key, rule, CallsOn(txs, key))
  {
    if txs != [] {
      var before, last := txs[..|txs| - 1], txs[|txs| - 1];
      TraceShowsPassed(before, key, rule);
      TraceOfPush(txs);
      if last.key == key {
        KeyIsOwnCalls(before, key, rule);
        StepOnKey(SharedKeyspace(before), KeyspaceAfter(key, rule, CallsOn(before, key)), last, key);
        CallsOnPush(txs, key);
        PassedPush(key, rule, LetThrough(TraceOf(before), key), last, AnswerTo(SharedKeyspace(before), last));
      }
    }
  }

  lemma PassedPush(key: string, rule: Rule, log: seq<int>, tx: Tx, ok: bool)
    ensures tx.call.Hit? ==> Stamps(log + [tx.call.t.now]) == Stamps(log) + [Stamp(tx.call.t.now)]
    ensures Stamps([]) == []
  {
  }

  /** The guarantee of the service over many instances, whose checks interleave transaction by
      transaction. For each login, password hash and IP, with distinct members, clients' clocks
      within half a window of the server's and stamps out of order by at most d, every interval
      up to Reach holds at most the configured number of the checks answered true since the
      last reset. */
  lemma SharedServiceBound(txs: seq<Tx>, limits: Limits, checks: seq<CheckAt>, lt: LimitType, key: string, d: int)
    requires Configured(limits) && limits[lt].window >= NANOS_PER_MILLI && d >= 0
    requires TrueSinceReset(TraceOf(txs), checks, lt, key)
    requires RuleFor(txs, BucketKey(Name(lt), key), limits[lt])
    requires Fair(CallsOn(txs, BucketKey(Name(lt), key)), limits[lt], d)
    ensures LetPlaces(TraceOf(txs), PlacesOf(checks, lt), BucketKey(Name(lt), key))
    ensures BoundedIn(StampsAt(TraceOf(txs), PlacesOf(checks, lt)), Reach(limits[lt], d), limits[lt].limit)
  {
    var trace, bucket, rule := TraceOf(txs), BucketKey(Name(lt), key), limits[lt];
    ChecksAreLetThrough(trace, checks, lt, key);
    TraceShowsPassed(txs, bucket, rule);
    PassedIsGranted(bucket, rule, CallsOn(txs, bucket));
    ReachIsSafeOnRedis(rule, TriesSince(CallsOn(txs, bucket)), d, Reach(rule, d));
    forall lo, hi | hi - lo <= Reach(rule, d)
      ensures CountIn(StampsAt(trace, PlacesOf(checks, lt)), lo, hi) <= rule.limit
    {
      PickedAreLetThrough(trace, PlacesOf(checks, lt), bucket, lo, hi);
    }
  }
}
