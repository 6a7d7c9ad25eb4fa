/** Limiters over either store: which bucket a limiter touches, and that it touches no other. */
module Limits {
  import opened Wrappers
  import opened SlidingWindow
  import opened Buckets
  import opened Text
  import opened RedisWindow
  import opened RedisStore

  datatype LimitType = Login | Password | Ip

  /** The type's name in bucket keys. */
  function Name(lt: LimitType): string {
    match lt
    case Login => "login"
    case Password => "password"
    case Ip => "ip"
  }

  /** One rule per limit type, as the configuration gives them. */
  type Limits = map<LimitType, Rule>

  function LimitsFromConfig(loginAttempts: int, passwordAttempts: int, ipAttempts: int, window: int): Limits {
    map[Login := Rule(loginAttempts, window), Password := Rule(passwordAttempts, window), Ip := Rule(ipAttempts, window)]
  }

  ghost predicate Configured(limits: Limits) {
    forall lt: LimitType :: lt in limits && Working(limits[lt])
  }

  lemma ConfiguredByPositives(loginAttempts: int, passwordAttempts: int, ipAttempts: int, window: int)
    ensures Configured(LimitsFromConfig(loginAttempts, passwordAttempts, ipAttempts, window))
       <==> loginAttempts > 0 && passwordAttempts > 0 && ipAttempts > 0 && window > 0
  {
    var limits := LimitsFromConfig(loginAttempts, passwordAttempts, ipAttempts, window);
    if loginAttempts > 0 && passwordAttempts > 0 && ipAttempts > 0 && window > 0 {
      forall lt: LimitType ensures lt in limits && Working(limits[lt]) {
        match lt
        case Login =>
        case Password =>
        case Ip =>
      }
    }
    if Configured(limits) {
      assert Working(limits[Login]) && Working(limits[Password]) && Working(limits[Ip]);
    }
  }

  /** The store behind the limiters: the process's own memory or Redis. */
  datatype Store = Memory(buckets: Buckets) | Redis(keys: Keyspace)

  function StoreAllow(store: Store, key: string, rule: Rule, t: Try): (Store, bool) {
    match store
    case Memory(b) => var r := AllowAt(b, key, rule, t.now); (Memory(r.0), r.1)
    case Redis(ks) => var r := AllowRedis(ks, key, rule, t); (Redis(r.0), r.1)
  }

  function StoreReset(store: Store, key: string): Store {
    match store
    case Memory(b) => Memory(ResetAt(b, key))
    case Redis(ks) => Redis(ResetRedis(ks, key))
  }

  /** LimitChecker.Allow; a type without a limiter denies. */
  function AllowType(store: Store, limits: Limits, lt: LimitType, key: string, t: Try): (Store, bool) {
    if lt in limits then StoreAllow(store, BucketKey(Name(lt), key), limits[lt], t) else (store, false)
  }

  function ResetType(store: Store, limits: Limits, lt: LimitType, key: string): Store {
    if lt in limits then StoreReset(store, BucketKey(Name(lt), key)) else store
  }

  // ---- One bucket of a store ----

  datatype Content = Times(times: seq<int>) | Zset(entry: Option<Entry>)

  function ContentOf(store: Store, key: string): Content {
    match store
    case Memory(b) => Times(Bucket(b, key))
    case Redis(ks) => Zset(EntryOf(ks, key))
  }

  function Empty(store: Store): Content {
    if store.Memory? then Times([]) else Zset(None)
  }

  /** What a call does to its own bucket, as a function of that bucket alone. */
  function AllowOn(c: Content, rule: Rule, t: Try): (Content, bool) {
    match c
    case Times(times) => var out := Admit(times, rule, t.now); (Times(out.times), out.ok)
    case Zset(entry) => var r := AllowEntry(entry, rule, t); (Zset(r.0), r.1)
  }

  /** A call depends on and changes only the bucket of its key. */
  lemma AllowIsLocal(store: Store, key: string, rule: Rule, t: Try, other: string)
    ensures var r := StoreAllow(store, key, rule, t);
      && r.1 == AllowOn(ContentOf(store, key), rule, t).1
      && ContentOf(r.0, other) == if other == key then AllowOn(ContentOf(store, key), rule, t).0 else ContentOf(store, other)
    ensures StoreAllow(store, key, rule, t).0.Memory? == store.Memory?
  {
    if store.Redis? {
      RedisIsLocal(store.keys, key, rule, t, other);
    }
  }

  lemma ResetIsLocal(store: Store, key: string, other: string)
    ensures ContentOf(StoreReset(store, key), other) == if other == key then Empty(store) else ContentOf(store, other)
    ensures StoreReset(store, key).Memory? == store.Memory?
  {
  }

  /** Each (type, key) pair has a bucket of its own. */
  lemma OneBucketEach(lt: LimitType, key: string, lt': LimitType, key': string)
    ensures BucketKey(Name(lt), key) == BucketKey(Name(lt'), key') <==> lt == lt' && key == key'
  {
    BucketKeyInjective(Name(lt), key, Name(lt'), key');
    NamesDiffer(lt, lt');
  }

  lemma NamesDiffer(lt: LimitType, lt': LimitType)
    ensures Name(lt) == Name(lt') <==> lt == lt'
  {
    assert |Name(Login)| == 5 && |Name(Password)| == 8 && |Name(Ip)| == 2;
  }

  // ---- Sequences of calls through limiters ----

  datatype LimiterCall = Allow(lt: LimitType, key: string, t: Try) | Reset(lt: LimitType, key: string)

  function Do(store: Store, limits: Limits, call: LimiterCall): Store {
    match call
    case Allow(lt, key, t) => AllowType(store, limits, lt, key, t).0
    case Reset(lt, key) => ResetType(store, limits, lt, key)
  }

  function DoAll(store: Store, limits: Limits, calls: seq<LimiterCall>): Store {
    if calls == [] then store else Do(DoAll(store, limits, calls[..|calls| - 1]), limits, calls[|calls| - 1])
  }

  /** Bucket isolation in both stores: whatever is done under other (type, key) pairs, colons
      in keys included, leaves the bucket and every future decision of this pair unchanged. */
  lemma {:induction false} BucketIsolation(store: Store, limits: Limits, calls: seq<LimiterCall>, lt: LimitType, key: string, t: Try)
    requires forall i :: 0 <= i < |calls| ==> calls[i].lt != lt || calls[i].key != key
    ensures ContentOf(DoAll(store, limits, calls), BucketKey(Name(lt), key)) == ContentOf(store, BucketKey(Name(lt), key))
    ensures AllowType(DoAll(store, limits, calls), limits, lt, key, t).1 == AllowType(store, limits, lt, key, t).1
  {
    if calls != [] {
      var before, last := calls[..|calls| - 1], calls[|calls| - 1];
      BucketIsolation(store, limits, before, lt, key, t);
      OneBucketEach(lt, key, last.lt, last.key);
      DoIsLocal(DoAll(store, limits, before), limits, last, BucketKey(Name(lt), key));
    }
    if lt in limits {
      AllowIsLocal(DoAll(store, limits, calls), BucketKey(Name(lt), key), limits[lt], t, BucketKey(Name(lt), key));
      AllowIsLocal(store, BucketKey(Name(lt), key), limits[lt], t, BucketKey(Name(lt), key));
    }
  }

  lemma DoIsLocal(store: Store, limits: Limits, call: LimiterCall, other: string)
    requires other != BucketKey(Name(call.lt), call.key)
    ensures ContentOf(Do(store, limits, call), other) == ContentOf(store, other)
  {
    if call.lt in limits {
      match call
      case Allow(lt, key, t) => AllowIsLocal(store, BucketKey(Name(lt), key), limits[lt], t, other);
      case Reset(lt, key) => ResetIsLocal(store, BucketKey(Name(lt), key), other);
    }
  }
}
