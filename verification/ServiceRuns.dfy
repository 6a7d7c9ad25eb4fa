/** Whole runs of the service: how many checks each login, password and IP can get through,
    and what a reset gives back. */
module ServiceRuns {
  import opened Ipv4
  import opened SubnetLists
  import opened SlidingWindow
  import opened WindowTheorems
  import opened RedisWindow
  import opened RedisStore
  import opened RedisTheorems
  import opened Limits
  import opened Pipeline

  /** The service between requests. */
  datatype Service = Service(store: Store, white: Nets, black: Nets)

  datatype ServiceOp =
    | Check(req: Request, addr: Addr, at: Ticks)
    | ResetBuckets(req: Request)
    | ListsChange(white: Nets, black: Nets)

  ghost function Perform(s: Service, limits: Limits, op: ServiceOp): Service {
    match op
    case Check(req, addr, at) =>
      if Decide(s.white, s.black, addr) == Continue then s.(store := CheckLimits(s.store, limits, req, at).0) else s
    case ResetBuckets(req) => s.(store := ResetAll(s.store, limits, req))
    case ListsChange(white, black) => s.(white := white, black := black)
  }

  /** The answer to a check. */
  ghost predicate Answer(s: Service, limits: Limits, req: Request, addr: Addr, at: Ticks) {
    match Decide(s.white, s.black, addr)
    case Deny => false
    case Allow => true
    case Continue => CheckLimits(s.store, limits, req, at).1
  }

  ghost function Run(s: Service, limits: Limits, ops: seq<ServiceOp>): Service {
    if ops == [] then s else Perform(Run(s, limits, ops[..|ops| - 1]), limits, ops[|ops| - 1])
  }

  ghost predicate Limited(s: Service, op: ServiceOp) {
    op.Check? && Decide(s.white, s.black, op.addr) == Continue
  }

  /** The attempts on one bucket since its last reset. */
  ghost function Arrivals(s: Service, limits: Limits, ops: seq<ServiceOp>, lt: LimitType, key: string): seq<Try>
    requires Configured(limits)
  {
    if ops == [] then []
    else
      var before, last := ops[..|ops| - 1], ops[|ops| - 1];
      var earlier, now := Arrivals(s, limits, before, lt, key), Run(s, limits, before);
      if last.ResetBuckets? && KeyOf(last.req, lt) == key then []
      else if Limited(now, last) && KeyOf(last.req, lt) == key && Reaches(now.store, limits, last.req, last.at, lt) then
        earlier + [TickOf(last.at, lt)]
      else earlier
  }

  /** Stamps of the checks on one bucket since its last reset that went through the limiters
      and were answered true. */
  ghost function Passed(s: Service, limits: Limits, ops: seq<ServiceOp>, lt: LimitType, key: string): seq<int>
  {
    if ops == [] then []
    else
      var before, last := ops[..|ops| - 1], ops[|ops| - 1];
      var earlier, now := Passed(s, limits, before, lt, key), Run(s, limits, before);
      if last.ResetBuckets? && KeyOf(last.req, lt) == key then []
      else if Limited(now, last) && KeyOf(last.req, lt) == key && Answer(now, limits, last.req, last.addr, last.at) then
        earlier + [Stamp(TickOf(last.at, lt).now)]
      else earlier
  }

  // ---- A bucket is the replay of its arrivals, in either store ----

  /** A bucket holds what its store makes of the given attempts. */
  predicate Holds(c: Content, rule: Rule, tries: seq<Try>) {
    match c
    case Times(times) => times == TimesAfter(rule, Nows(tries))
    case Zset(entry) => entry == KeptEntry(rule, tries)
  }

  /** What Redis needs of the clocks; memory needs nothing. */
  ghost predicate Timely(c: Content, rule: Rule, tries: seq<Try>) {
    c.Zset? ==> rule.window >= NANOS_PER_MILLI && ClocksClose(tries, rule.window)
  }

  predicate Admits(c: Content, rule: Rule, tries: seq<Try>)
    requires tries != []
  {
    if c.Times? then AdmitsLast(rule, Nows(tries)) else Grants(rule, tries)
  }

  lemma TimesPush(rule: Rule, tries: seq<Try>, t: Try, times: seq<int>)
    requires times == TimesAfter(rule, Nows(tries))
    ensures Admit(times, rule, t.now).times == TimesAfter(rule, Nows(tries + [t]))
    ensures Admit(times, rule, t.now).ok <==> AdmitsLast(rule, Nows(tries + [t]))
  {
    assert Nows(tries + [t]) == Nows(tries) + [t.now];
    AttemptUnfold(rule, Nows(tries), t.now);
  }

  lemma ZsetPush(rule: Rule, tries: seq<Try>, t: Try)
    requires rule.window >= NANOS_PER_MILLI && ClocksClose(tries + [t], rule.window)
    ensures AllowEntry(KeptEntry(rule, tries), rule, t) == (KeptEntry(rule, tries + [t]), Grants(rule, tries + [t]))
  {
    SameSet(rule, tries, t);
    assert (tries + [t])[|tries|] == t;
  }

  lemma HoldsPush(c: Content, rule: Rule, tries: seq<Try>, t: Try)
    requires Holds(c, rule, tries) && Timely(c, rule, tries + [t])
    ensures Holds(AllowOn(c, rule, t).0, rule, tries + [t])
    ensures AllowOn(c, rule, t).1 <==> Admits(c, rule, tries + [t])
    ensures AllowOn(c, rule, t).0.Times? == c.Times?
  {
    match c
    case Times(times) => TimesPush(rule, tries, t, times);
    case Zset(_) => ZsetPush(rule, tries, t);
  }

  lemma TimelyPrefix(c: Content, rule: Rule, tries: seq<Try>, t: Try)
    requires Timely(c, rule, tries + [t])
    ensures Timely(c, rule, tries)
  {
    if c.Zset? {
      ClosePrefix(tries, t, rule.window);
    }
  }

  predicate EmptyStore(s: Service) {
    s.store == Memory(map[]) || s.store == Redis(map[])
  }

  lemma {:induction false} RunKeepsStore(s: Service, limits: Limits, ops: seq<ServiceOp>)
    requires Configured(limits)
    ensures Run(s, limits, ops).store.Memory? == s.store.Memory?
  {
    if ops != [] {
      RunKeepsStore(s, limits, ops[..|ops| - 1]);
      var now, last := Run(s, limits, ops[..|ops| - 1]), ops[|ops| - 1];
      if last.Check? {
        CheckEffect(now.store, limits, last.req, last.at, Login, "");
      } else if last.ResetBuckets? {
        ResetEffect(now.store, limits, last.req, Login, "");
      }
    }
  }

  lemma {:induction false} BucketIsArrivals(s: Service, limits: Limits, ops: seq<ServiceOp>, lt: LimitType, key: string)
    requires EmptyStore(s) && Configured(limits)
    requires Timely(Empty(s.store), limits[lt], Arrivals(s, limits, ops, lt, key))
    ensures Holds(BucketOf(Run(s, limits, ops).store, lt, key), limits[lt], Arrivals(s, limits, ops, lt, key))
  {
    RunKeepsStore(s, limits, ops);
    if ops != [] {
      var before, last := ops[..|ops| - 1], ops[|ops| - 1];
      RunKeepsStore(s, limits, before);
      var now := Run(s, limits, before);
      if last.ResetBuckets? {
        ResetEffect(now.store, limits, last.req, lt, key);
      }
      if !(last.ResetBuckets? && KeyOf(last.req, lt) == key) {
        var earlier := Arrivals(s, limits, before, lt, key);
        if Arrivals(s, limits, ops, lt, key) != earlier {
          TimelyPrefix(Empty(s.store), limits[lt], earlier, TickOf(last.at, lt));
        }
        BucketIsArrivals(s, limits, before, lt, key);
        if Limited(now, last) {
          CheckEffect(now.store, limits, last.req, last.at, lt, key);
          if Arrivals(s, limits, ops, lt, key) != earlier {
            HoldsPush(BucketOf(now.store, lt, key), limits[lt], earlier, TickOf(last.at, lt));
          }
        }
      }
    }
  }

  // ---- The bound of the whole service ----

  /** Stamps of the attempts the store lets through. */
  function LetIn(c: Content, rule: Rule, tries: seq<Try>): seq<int> {
    if c.Times? then Stamps(Admitted(rule, Nows(tries))) else Granted(rule, tries)
  }

  lemma LetInOneMore(c: Content, rule: Rule, tries: seq<Try>, t: Try)
    ensures LetIn(c, rule, tries + [t])
         == if Admits(c, rule, tries + [t]) then LetIn(c, rule, tries) + [Stamp(t.now)] else LetIn(c, rule, tries)
  {
    if c.Times? {
      assert Nows(tries + [t]) == Nows(tries) + [t.now];
      AttemptUnfold(rule, Nows(tries), t.now);
    } else {
      assert (tries + [t])[..|tries|] == tries;
    }
  }

  lemma LetInPush(c: Content, rule: Rule, tries: seq<Try>, t: Try, lo: int, hi: int)
    ensures CountIn(LetIn(c, rule, tries + [t]), lo, hi)
         == CountIn(LetIn(c, rule, tries), lo, hi)
            + if Admits(c, rule, tries + [t]) && lo <= Stamp(t.now) < hi then 1 else 0
  {
    LetInOneMore(c, rule, tries, t);
    CountPush(LetIn(c, rule, tries), Stamp(t.now), lo, hi);
  }

  /** A check that is answered true through the limiters was let in by the bucket of each type. */
  lemma {:induction false} PassedAreLetIn(s: Service, limits: Limits, ops: seq<ServiceOp>, lt: LimitType, key: string, lo: int, hi: int)
    requires EmptyStore(s) && Configured(limits)
    requires Timely(Empty(s.store), limits[lt], Arrivals(s, limits, ops, lt, key))
    ensures CountIn(Passed(s, limits, ops, lt, key), lo, hi)
         <= CountIn(LetIn(Empty(s.store), limits[lt], Arrivals(s, limits, ops, lt, key)), lo, hi)
  {
    if ops != [] {
      var before, last := ops[..|ops| - 1], ops[|ops| - 1];
      var now := Run(s, limits, before);
      if last.ResetBuckets? && KeyOf(last.req, lt) == key {
      } else if Limited(now, last) && KeyOf(last.req, lt) == key {
        CheckEffect(now.store, limits, last.req, last.at, lt, key);
        if Reaches(now.store, limits, last.req, last.at, lt) {
          TimelyPrefix(Empty(s.store), limits[lt], Arrivals(s, limits, before, lt, key), TickOf(last.at, lt));
          OneMoreLetIn(s, limits, before, last, lt, key, lo, hi);
          CountPush(Passed(s, limits, before, lt, key), Stamp(TickOf(last.at, lt).now), lo, hi);
        }
        PassedAreLetIn(s, limits, before, lt, key, lo, hi);
      } else {
        PassedAreLetIn(s, limits, before, lt, key, lo, hi);
      }
    }
  }

  lemma OneMoreLetIn(s: Service, limits: Limits, before: seq<ServiceOp>, last: ServiceOp, lt: LimitType, key: string, lo: int, hi: int)
    requires EmptyStore(s) && Configured(limits) && last.Check? && KeyOf(last.req, lt) == key
    requires var tries := Arrivals(s, limits, before, lt, key);
      Timely(Empty(s.store), limits[lt], tries + [TickOf(last.at, lt)])
    ensures var tries, t := Arrivals(s, limits, before, lt, key), TickOf(last.at, lt);
      CountIn(LetIn(Empty(s.store), limits[lt], tries + [t]), lo, hi)
      == CountIn(LetIn(Empty(s.store), limits[lt], tries), lo, hi)
         + if Passes(Run(s, limits, before).store, limits, last.req, last.at, lt) && lo <= Stamp(t.now) < hi then 1 else 0
  {
    var tries, t := Arrivals(s, limits, before, lt, key), TickOf(last.at, lt);
    TimelyPrefix(Empty(s.store), limits[lt], tries, t);
    RunKeepsStore(s, limits, before);
    BucketIsArrivals(s, limits, before, lt, key);
    HoldsPush(BucketOf(Run(s, limits, before).store, lt, key), limits[lt], tries, t);
    LetInPush(Empty(s.store), limits[lt], tries, t, lo, hi);
  }

  /** The guarantee of the service in memory mode. Over any sequence of checks, resets and list
      changes, for each login, password hash and IP: of the checks since its last reset that
      went through the limiters, at most the configured number in any window were answered
      true; with d = 0 for clocks that do not go back. */
  lemma WholeServiceBound(s: Service, limits: Limits, ops: seq<ServiceOp>, lt: LimitType, key: string, d: int)
    requires s.store == Memory(map[]) && Configured(limits) && d >= 0
    requires Skewed(Nows(Arrivals(s, limits, ops, lt, key)), d)
    ensures BoundedIn(Passed(s, limits, ops, lt, key), WindowMillis(limits[lt]) - d, limits[lt].limit)
  {
    SkewBound(limits[lt], Nows(Arrivals(s, limits, ops, lt, key)), d);
    forall lo, hi | hi - lo <= WindowMillis(limits[lt]) - d
      ensures CountIn(Passed(s, limits, ops, lt, key), lo, hi) <= limits[lt].limit
    {
      PassedAreLetIn(s, limits, ops, lt, key, lo, hi);
    }
  }

  /** In the configuration's own terms: LoginAttempts for a login, PasswordAttempts for a
      password hash, IPAttempts for an IP. */
  lemma ConfiguredBounds(s: Service, loginAttempts: int, passwordAttempts: int, ipAttempts: int, window: int,
                         ops: seq<ServiceOp>, req: Request)
    requires s.store == Memory(map[])
    requires var limits := LimitsFromConfig(loginAttempts, passwordAttempts, ipAttempts, window);
      && Configured(limits)
      && Sorted(Nows(Arrivals(s, limits, ops, Login, req.login)))
      && Sorted(Nows(Arrivals(s, limits, ops, Password, req.hash)))
      && Sorted(Nows(Arrivals(s, limits, ops, Ip, req.ip)))
    ensures var limits := LimitsFromConfig(loginAttempts, passwordAttempts, ipAttempts, window);
      && BoundedIn(Passed(s, limits, ops, Login, req.login), window / NANOS_PER_MILLI, loginAttempts)
      && BoundedIn(Passed(s, limits, ops, Password, req.hash), window / NANOS_PER_MILLI, passwordAttempts)
      && BoundedIn(Passed(s, limits, ops, Ip, req.ip), window / NANOS_PER_MILLI, ipAttempts)
  {
    var limits := LimitsFromConfig(loginAttempts, passwordAttempts, ipAttempts, window);
    SortedIsUnskewed(Nows(Arrivals(s, limits, ops, Login, req.login)));
    SortedIsUnskewed(Nows(Arrivals(s, limits, ops, Password, req.hash)));
    SortedIsUnskewed(Nows(Arrivals(s, limits, ops, Ip, req.ip)));
    WholeServiceBound(s, limits, ops, Login, req.login, 0);
    WholeServiceBound(s, limits, ops, Password, req.hash, 0);
    WholeServiceBound(s, limits, ops, Ip, req.ip, 0);
  }

  /** The same guarantee on Redis, for distinct members and clients' clocks within half a
      window of the server's. */
  lemma WholeServiceBoundOnRedis(s: Service, limits: Limits, ops: seq<ServiceOp>, lt: LimitType, key: string, d: int)
    requires s.store == Redis(map[]) && Configured(limits) && d >= 0
    requires var tries := Arrivals(s, limits, ops, lt, key);
      ClientsSkewed(tries, d) && DistinctMembers(tries) && Timely(Empty(s.store), limits[lt], tries)
    ensures BoundedIn(Passed(s, limits, ops, lt, key), WindowMillis(limits[lt]) - d, limits[lt].limit)
  {
    ManyInstancesBound(limits[lt], Arrivals(s, limits, ops, lt, key), d);
    forall lo, hi | hi - lo <= WindowMillis(limits[lt]) - d
      ensures CountIn(Passed(s, limits, ops, lt, key), lo, hi) <= limits[lt].limit
    {
      PassedAreLetIn(s, limits, ops, lt, key, lo, hi);
    }
  }

  /** Answers from the lists, and changes of the lists, change no bucket. */
  lemma ListsChargeNothing(s: Service, limits: Limits, op: ServiceOp)
    requires op.ListsChange? || ByLists(s, op)
    ensures Perform(s, limits, op).store == s.store
    ensures op.Check? ==> (Answer(s, limits, op.req, op.addr, op.at) <==> Covered(s.white, op.addr))
  {
  }

  ghost predicate ByLists(s: Service, op: ServiceOp) {
    op.Check? && Decide(s.white, s.black, op.addr) != Continue
  }

  /** A run with every check that the lists answered taken out. */
  ghost function WithoutListed(s: Service, limits: Limits, ops: seq<ServiceOp>): seq<ServiceOp> {
    if ops == [] then []
    else
      var before, last := ops[..|ops| - 1], ops[|ops| - 1];
      if ByLists(Run(s, limits, before), last) then WithoutListed(s, limits, before)
      else WithoutListed(s, limits, before) + [last]
  }

  ghost predicate NoneListed(s: Service, limits: Limits, ops: seq<ServiceOp>) {
    ops != [] ==>
      NoneListed(s, limits, ops[..|ops| - 1]) && !ByLists(Run(s, limits, ops[..|ops| - 1]), ops[|ops| - 1])
  }

  /** The answers of the limiters, in order. */
  ghost function LimiterAnswers(s: Service, limits: Limits, ops: seq<ServiceOp>): seq<bool> {
    if ops == [] then []
    else
      var before, last := ops[..|ops| - 1], ops[|ops| - 1];
      var earlier, now := LimiterAnswers(s, limits, before), Run(s, limits, before);
      if Limited(now, last) then earlier + [Answer(now, limits, last.req, last.addr, last.at)] else earlier
  }

  lemma RunPush(s: Service, limits: Limits, ops: seq<ServiceOp>, op: ServiceOp)
    ensures Run(s, limits, ops + [op]) == Perform(Run(s, limits, ops), limits, op)
    ensures var now := Run(s, limits, ops);
      LimiterAnswers(s, limits, ops + [op])
      == LimiterAnswers(s, limits, ops) + if Limited(now, op) then [Answer(now, limits, op.req, op.addr, op.at)] else []
    ensures NoneListed(s, limits, ops + [op]) <==> NoneListed(s, limits, ops) && !ByLists(Run(s, limits, ops), op)
  {
    assert (ops + [op])[..|ops|] == ops;
  }

  /** Answers from the lists are free. Taking every check that the lists answered out of a run
      changes neither the state it ends in, buckets included, nor any answer of the limiters. */
  lemma {:induction false} ListedChecksAreFree(s: Service, limits: Limits, ops: seq<ServiceOp>)
    ensures var rest := WithoutListed(s, limits, ops);
      && NoneListed(s, limits, rest)
      && Run(s, limits, rest) == Run(s, limits, ops)
      && LimiterAnswers(s, limits, rest) == LimiterAnswers(s, limits, ops)
  {
    if ops != [] {
      var before, last := ops[..|ops| - 1], ops[|ops| - 1];
      ListedChecksAreFree(s, limits, before);
      assert before + [last] == ops;
      RunPush(s, limits, before, last);
      if ByLists(Run(s, limits, before), last) {
        ListsChargeNothing(Run(s, limits, before), limits, last);
      } else {
        RunPush(s, limits, WithoutListed(s, limits, before), last);
      }
    }
  }

  /** The answer to a check, from the two lists and the buckets as they are: true on the
      whitelist; otherwise off the blacklist and let through by all three limiters. */
  lemma AnswerIsTrueWhen(s: Service, limits: Limits, req: Request, addr: Addr, at: Ticks)
    requires Configured(limits)
    ensures Answer(s, limits, req, addr, at) <==>
      Covered(s.white, addr) || (!Covered(s.black, addr) && forall lt: LimitType :: Passes(s.store, limits, req, at, lt))
  {
    CheckEffect(s.store, limits, req, at, Login, req.login);
    assert Reaches(s.store, limits, req, at, Ip) <==>
      Passes(s.store, limits, req, at, Login) && Passes(s.store, limits, req, at, Password);
    if Passes(s.store, limits, req, at, Login) && Passes(s.store, limits, req, at, Password) && Passes(s.store, limits, req, at, Ip) {
      forall lt: LimitType ensures Passes(s.store, limits, req, at, lt) {
        match lt
        case Login =>
        case Password =>
        case Ip =>
      }
    }
  }

  /** [lo, hi) is the window that ends now. */
  predicate WindowAt(rule: Rule, now: int, lo: int, hi: int) {
    lo == Cut(now, rule.window) + 1 && hi == Stamp(now) + 1
  }

  /** Of the attempts at these readings, the only ones a bucket has seen since its last reset,
      fewer than `limit` were admitted inside the window that ends now. */
  ghost predicate WindowHasRoom(rule: Rule, nows: seq<int>, now: int) {
    forall lo, hi :: WindowAt(rule, now, lo, hi) ==> CountIn(Stamps(Admitted(rule, nows)), lo, hi) < rule.limit
  }

  lemma AdmitsNext(rule: Rule, nows: seq<int>, n: int, times: seq<int>)
    requires times == TimesAfter(rule, nows)
    ensures Admit(times, rule, n).ok == AdmitsLast(rule, nows + [n])
  {
    AttemptUnfold(rule, nows, n);
  }

  lemma CountDecides(rule: Rule, nows: seq<int>, n: int, lo: int, hi: int)
    requires Working(rule) && Sorted(nows + [n]) && WindowAt(rule, n, lo, hi)
    ensures AdmitsLast(rule, nows + [n]) <==> CountIn(Stamps(Admitted(rule, nows)), lo, hi) < rule.limit
  {
    InMemoryClosedForm(rule, nows, n, lo, hi);
  }

  lemma SomeWindow(rule: Rule, n: int) returns (lo: int, hi: int)
    ensures WindowAt(rule, n, lo, hi)
  {
    lo, hi := Cut(n, rule.window) + 1, Stamp(n) + 1;
  }

  lemma RoomDecides(rule: Rule, nows: seq<int>, n: int)
    requires Working(rule) && Sorted(nows + [n])
    ensures AdmitsLast(rule, nows + [n]) <==> WindowHasRoom(rule, nows, n)
  {
    var lo, hi := SomeWindow(rule, n);
    CountDecides(rule, nows, n, lo, hi);
    forall lo', hi' | WindowAt(rule, n, lo', hi') ensures lo' == lo && hi' == hi {
    }
  }

  lemma MemoryBucket(s: Service, limits: Limits, ops: seq<ServiceOp>, lt: LimitType, key: string, times: seq<int>)
    requires s.store == Memory(map[]) && Configured(limits)
    requires times == TimesAfter(limits[lt], Nows(Arrivals(s, limits, ops, lt, key)))
    ensures BucketOf(Run(s, limits, ops).store, lt, key) == Times(times)
  {
    RunKeepsStore(s, limits, ops);
    BucketIsArrivals(s, limits, ops, lt, key);
  }

  lemma PassesByTimes(store: Store, limits: Limits, req: Request, at: Ticks, lt: LimitType, times: seq<int>)
    requires lt in limits && BucketOf(store, lt, KeyOf(req, lt)) == Times(times)
    ensures Passes(store, limits, req, at, lt) <==> Admit(times, limits[lt], TickOf(at, lt).now).ok
  {
  }

  lemma PassesByCount(s: Service, limits: Limits, ops: seq<ServiceOp>, req: Request, at: Ticks, lt: LimitType)
    requires s.store == Memory(map[]) && Configured(limits)
    requires Sorted(Nows(Arrivals(s, limits, ops, lt, KeyOf(req, lt))) + [TickOf(at, lt).now])
    ensures Passes(Run(s, limits, ops).store, limits, req, at, lt) <==>
      WindowHasRoom(limits[lt], Nows(Arrivals(s, limits, ops, lt, KeyOf(req, lt))), TickOf(at, lt).now)
  {
    var nows := Nows(Arrivals(s, limits, ops, lt, KeyOf(req, lt)));
    var times := TimesAfter(limits[lt], nows);
    MemoryBucket(s, limits, ops, lt, KeyOf(req, lt), times);
    PassesByTimes(Run(s, limits, ops).store, limits, req, at, lt, times);
    AdmitsNext(limits[lt], nows, TickOf(at, lt).now, times);
    RoomDecides(limits[lt], nows, TickOf(at, lt).now);
  }

  /** Both sides of the guarantee, in the configuration's own numbers. After any run in memory
      mode a check that the lists leave to the limiters is answered true exactly when the
      window of its login holds fewer than LoginAttempts admissions, that of its password hash
      fewer than PasswordAttempts and that of its IP fewer than IPAttempts. */
  lemma ConfiguredAnswer(s: Service, loginAttempts: int, passwordAttempts: int, ipAttempts: int, window: int,
                         ops: seq<ServiceOp>, req: Request, addr: Addr, at: Ticks)
    requires s.store == Memory(map[])
    requires var limits := LimitsFromConfig(loginAttempts, passwordAttempts, ipAttempts, window);
      && Configured(limits) && Limited(Run(s, limits, ops), ServiceOp.Check(req, addr, at))
      && Sorted(Nows(Arrivals(s, limits, ops, Login, req.login)) + [at.login.now])
      && Sorted(Nows(Arrivals(s, limits, ops, Password, req.hash)) + [at.password.now])
      && Sorted(Nows(Arrivals(s, limits, ops, Ip, req.ip)) + [at.ip.now])
    ensures var limits := LimitsFromConfig(loginAttempts, passwordAttempts, ipAttempts, window);
      Answer(Run(s, limits, ops), limits, req, addr, at) <==>
      && WindowHasRoom(Rule(loginAttempts, window), Nows(Arrivals(s, limits, ops, Login, req.login)), at.login.now)
      && WindowHasRoom(Rule(passwordAttempts, window), Nows(Arrivals(s, limits, ops, Password, req.hash)), at.password.now)
      && WindowHasRoom(Rule(ipAttempts, window), Nows(Arrivals(s, limits, ops, Ip, req.ip)), at.ip.now)
  {
    AnswerByCounts(s, LimitsFromConfig(loginAttempts, passwordAttempts, ipAttempts, window), ops, req, addr, at);
  }

  ghost predicate HasRoom(s: Service, limits: Limits, ops: seq<ServiceOp>, req: Request, at: Ticks, lt: LimitType)
    requires Configured(limits)
  {
    WindowHasRoom(limits[lt], Nows(Arrivals(s, limits, ops, lt, KeyOf(req, lt))), TickOf(at, lt).now)
  }

  lemma AnswerByCounts(s: Service, limits: Limits, ops: seq<ServiceOp>, req: Request, addr: Addr, at: Ticks)
    requires s.store == Memory(map[]) && Configured(limits) && Limited(Run(s, limits, ops), ServiceOp.Check(req, addr, at))
    requires Sorted(Nows(Arrivals(s, limits, ops, Login, req.login)) + [at.login.now])
    requires Sorted(Nows(Arrivals(s, limits, ops, Password, req.hash)) + [at.password.now])
    requires Sorted(Nows(Arrivals(s, limits, ops, Ip, req.ip)) + [at.ip.now])
    ensures Answer(Run(s, limits, ops), limits, req, addr, at) <==>
      HasRoom(s, limits, ops, req, at, Login) && HasRoom(s, limits, ops, req, at, Password) && HasRoom(s, limits, ops, req, at, Ip)
  {
    PassesByCount(s, limits, ops, req, at, Login);
    PassesByCount(s, limits, ops, req, at, Password);
    PassesByCount(s, limits, ops, req, at, Ip);
    ThreePasses(Run(s, limits, ops), limits, req, addr, at);
  }

  lemma ThreePasses(s: Service, limits: Limits, req: Request, addr: Addr, at: Ticks)
    requires Configured(limits) && Decide(s.white, s.black, addr) == Continue
    ensures Answer(s, limits, req, addr, at) <==>
      Passes(s.store, limits, req, at, Login) && Passes(s.store, limits, req, at, Password) && Passes(s.store, limits, req, at, Ip)
  {
    CheckEffect(s.store, limits, req, at, Login, req.login);
  }

  // ---- What a reset gives back ----

  function ChecksAfter(store: Store, limits: Limits, req: Request, ats: seq<Ticks>): Store {
    if ats == [] then store
    else CheckLimits(ChecksAfter(store, limits, req, ats[..|ats| - 1]), limits, req, ats[|ats| - 1]).0
  }

  /** The answer to the last of some consecutive checks of one request. */
  predicate LastPasses(store: Store, limits: Limits, req: Request, ats: seq<Ticks>)
    requires ats != []
  {
    CheckLimits(ChecksAfter(store, limits, req, ats[..|ats| - 1]), limits, req, ats[|ats| - 1]).1
  }

  function Size(c: Content): nat {
    match c
    case Times(times) => |times|
    case Zset(entry) => if entry.Some? then |entry.value.scores| else 0
  }

  /** A bucket with room admits, whatever the time, and grows by at most one. */
  lemma RoomAdmits(c: Content, rule: Rule, t: Try)
    requires Working(rule) && Size(c) < rule.limit
    ensures AllowOn(c, rule, t).1 && Size(AllowOn(c, rule, t).0) <= Size(c) + 1
  {
    if c.Zset? {
      TouchGrowsByOne(if c.entry.Some? then c.entry.value.scores else map[], rule.window, t);
      TouchGrowsByOne(map[], rule.window, t);
    }
  }

  lemma RoomPassesType(store: Store, limits: Limits, req: Request, at: Ticks, n: nat, lt: LimitType)
    requires Configured(limits) && n < limits[lt].limit && Size(BucketOf(store, lt, KeyOf(req, lt))) <= n
    ensures Passes(store, limits, req, at, lt)
    ensures Size(Charged(store, limits, req, at, lt, KeyOf(req, lt))) <= n + 1
  {
    RoomAdmits(BucketOf(store, lt, KeyOf(req, lt)), limits[lt], TickOf(at, lt));
  }

  /** Three buckets with room let a check through and have at most one entry more. */
  lemma RoomPasses(store: Store, limits: Limits, req: Request, at: Ticks, n: nat, lt: LimitType)
    requires Configured(limits)
    requires n < limits[Login].limit && n < limits[Password].limit && n < limits[Ip].limit
    requires Size(BucketOf(store, Login, req.login)) <= n
    requires Size(BucketOf(store, Password, req.hash)) <= n && Size(BucketOf(store, Ip, req.ip)) <= n
    ensures CheckLimits(store, limits, req, at).1
    ensures Size(BucketOf(CheckLimits(store, limits, req, at).0, lt, KeyOf(req, lt))) <= n + 1
  {
    RoomPassesType(store, limits, req, at, n, Login);
    RoomPassesType(store, limits, req, at, n, Password);
    RoomPassesType(store, limits, req, at, n, Ip);
    CheckEffect(store, limits, req, at, lt, KeyOf(req, lt));
  }

  lemma {:induction false} QuotaLasts(store: Store, limits: Limits, req: Request, ats: seq<Ticks>, lt: LimitType)
    requires Configured(limits)
    requires |ats| <= limits[Login].limit && |ats| <= limits[Password].limit && |ats| <= limits[Ip].limit
    ensures Size(BucketOf(ChecksAfter(ResetAll(store, limits, req), limits, req, ats), lt, KeyOf(req, lt))) <= |ats|
    ensures ats != [] ==> LastPasses(ResetAll(store, limits, req), limits, req, ats)
  {
    if ats == [] {
      ResetEffect(store, limits, req, lt, KeyOf(req, lt));
    } else {
      var before := ats[..|ats| - 1];
      QuotaLasts(store, limits, req, before, Login);
      QuotaLasts(store, limits, req, before, Password);
      QuotaLasts(store, limits, req, before, Ip);
      RoomPasses(ChecksAfter(ResetAll(store, limits, req), limits, req, before), limits, req, ats[|ats| - 1], |before|, lt);
    }
  }

  lemma QuotaOfStore(store: Store, limits: Limits, req: Request, ats: seq<Ticks>, k: nat)
    requires Configured(limits) && 0 < k <= |ats|
    requires |ats| <= limits[Login].limit && |ats| <= limits[Password].limit && |ats| <= limits[Ip].limit
    ensures LastPasses(ResetAll(store, limits, req), limits, req, ats[..k])
  {
    QuotaLasts(store, limits, req, ats[..k], Login);
  }

  function TicksOf(ats: seq<Ticks>, lt: LimitType): (tries: seq<Try>)
    ensures |tries| == |ats|
  {
    if ats == [] then [] else TicksOf(ats[..|ats| - 1], lt) + [TickOf(ats[|ats| - 1], lt)]
  }

  lemma {:induction false} HoldsAfterChecks(store: Store, limits: Limits, req: Request, ats: seq<Ticks>, lt: LimitType)
    requires Configured(limits) && Timely(Empty(store), limits[lt], TicksOf(ats, lt))
    requires |ats| <= limits[Login].limit && |ats| <= limits[Password].limit && |ats| <= limits[Ip].limit
    ensures var c := BucketOf(ChecksAfter(ResetAll(store, limits, req), limits, req, ats), lt, KeyOf(req, lt));
      Holds(c, limits[lt], TicksOf(ats, lt)) && c.Times? == store.Memory?
  {
    ResetEffect(store, limits, req, lt, KeyOf(req, lt));
    if ats != [] {
      var before, at := ats[..|ats| - 1], ats[|ats| - 1];
      var now := ChecksAfter(ResetAll(store, limits, req), limits, req, before);
      TimelyPrefix(Empty(store), limits[lt], TicksOf(before, lt), TickOf(at, lt));
      HoldsAfterChecks(store, limits, req, before, lt);
      QuotaLasts(store, limits, req, ats, lt);
      CheckEffect(now, limits, req, at, lt, KeyOf(req, lt));
      HoldsPush(BucketOf(now, lt, KeyOf(req, lt)), limits[lt], TicksOf(before, lt), TickOf(at, lt));
    }
  }

  /** All attempts lie inside one window. */
  ghost predicate InOneWindow(rule: Rule, tries: seq<Try>) {
    forall i, j :: 0 <= i < |tries| && 0 <= j < |tries| ==> Stamp(tries[j].now) - Stamp(tries[i].now) < WindowMillis(rule)
  }

  /** Stamps less than w apart. */
  ghost predicate CloseTogether(stamps: seq<int>, w: int) {
    forall i, j :: 0 <= i < |stamps| && 0 <= j < |stamps| ==> stamps[i] > stamps[j] - w
  }

  ghost predicate NewerThan(stamps: seq<int>, cut: int) {
    forall i :: 0 <= i < |stamps| ==> stamps[i] > cut
  }

  lemma CloseTogetherPrefix(stamps: seq<int>, y: int, w: int)
    requires CloseTogether(stamps + [y], w)
    ensures CloseTogether(stamps, w) && NewerThan(stamps, y - w)
  {
    var all := stamps + [y];
    assert all[|stamps|] == y && forall i :: 0 <= i < |stamps| ==> all[i] == stamps[i];
  }

  lemma NothingTrimmed(rule: Rule, n: int, times: seq<int>, w: int)
    requires NewerThan(times, Stamp(n) - w) && w == WindowMillis(rule)
    ensures Live(times, Cut(n, rule.window)) == times
  {
    CutGap(n, rule);
  }

  lemma {:induction false} NoneExpires(rule: Rule, nows: seq<int>, stamps: seq<int>, w: int)
    requires Working(rule) && |nows| <= rule.limit && stamps == Stamps(nows) && w == WindowMillis(rule) && CloseTogether(stamps, w)
    ensures TimesAfter(rule, nows) == stamps
  {
    if nows != [] {
      var before, n := nows[..|nows| - 1], nows[|nows| - 1];
      assert stamps == Stamps(before) + [Stamp(n)];
      CloseTogetherPrefix(Stamps(before), Stamp(n), w);
      NoneExpires(rule, before, Stamps(before), w);
      NothingTrimmed(rule, n, Stamps(before), w);
    }
  }

  lemma WindowCloseTogether(rule: Rule, tries: seq<Try>, stamps: seq<int>, w: int)
    requires InOneWindow(rule, tries) && stamps == Recorded(tries) && w == WindowMillis(rule)
    ensures CloseTogether(stamps, w)
  {
    forall i, j | 0 <= i < |stamps| && 0 <= j < |stamps| ensures stamps[i] > stamps[j] - w {
      assert Stamp(tries[j].now) - Stamp(tries[i].now) < w;
    }
  }

  lemma FullLive(rule: Rule, n: int, times: seq<int>)
    requires Working(rule) && |times| == rule.limit && Live(times, Cut(n, rule.window)) == times
    ensures !Admit(times, rule, n).ok
  {
  }

  lemma FullTimesDeny(rule: Rule, nows: seq<int>, n: int, w: int)
    requires Working(rule) && |nows| == rule.limit && w == WindowMillis(rule) && CloseTogether(Stamps(nows) + [Stamp(n)], w)
    ensures !AdmitsLast(rule, nows + [n])
  {
    CloseTogetherPrefix(Stamps(nows), Stamp(n), w);
    NoneExpires(rule, nows, Stamps(nows), w);
    NothingTrimmed(rule, n, Stamps(nows), w);
    FullLive(rule, n, Stamps(nows));
    AttemptUnfold(rule, nows, n);
  }

  /** `limit` attempts inside the window leave no room, in either store. */
  lemma FullBucketDenies(c: Content, rule: Rule, tries: seq<Try>)
    requires Working(rule) && |tries| == rule.limit + 1 && InOneWindow(rule, tries)
    requires c.Zset? ==> Sorted(Nows(tries)) && DistinctMembers(tries)
    ensures !Admits(c, rule, tries)
  {
    if c.Times? {
      var nows, n := Nows(tries)[..rule.limit], tries[rule.limit].now;
      assert nows + [n] == Nows(tries);
      assert Stamps(nows) + [Stamp(n)] == Recorded(tries);
      WindowCloseTogether(rule, tries, Recorded(tries), WindowMillis(rule));
      FullTimesDeny(rule, nows, n, WindowMillis(rule));
    } else {
      ClosedForm(rule, tries);
      assert Stamp(tries[rule.limit].now) - Stamp(tries[0].now) < WindowMillis(rule);
    }
  }

  lemma OneRefusalDenies(store: Store, limits: Limits, req: Request, at: Ticks, lt: LimitType)
    requires Configured(limits) && !Passes(store, limits, req, at, lt)
    ensures !CheckLimits(store, limits, req, at).1
  {
    CheckEffect(store, limits, req, at, lt, KeyOf(req, lt));
  }

  lemma OneMoreThanQuota(store: Store, limits: Limits, req: Request, ats: seq<Ticks>, lt: LimitType)
    requires Configured(limits) && |ats| == limits[lt].limit + 1
    requires limits[lt].limit <= limits[Login].limit
    requires limits[lt].limit <= limits[Password].limit && limits[lt].limit <= limits[Ip].limit
    requires InOneWindow(limits[lt], TicksOf(ats, lt)) && Timely(Empty(store), limits[lt], TicksOf(ats, lt))
    requires store.Redis? ==> Sorted(Nows(TicksOf(ats, lt))) && DistinctMembers(TicksOf(ats, lt))
    ensures !LastPasses(ResetAll(store, limits, req), limits, req, ats)
  {
    var before, at := ats[..|ats| - 1], ats[|ats| - 1];
    var now := ChecksAfter(ResetAll(store, limits, req), limits, req, before);
    TimelyPrefix(Empty(store), limits[lt], TicksOf(before, lt), TickOf(at, lt));
    HoldsAfterChecks(store, limits, req, before, lt);
    var c := BucketOf(now, lt, KeyOf(req, lt));
    HoldsPush(c, limits[lt], TicksOf(before, lt), TickOf(at, lt));
    FullBucketDenies(c, limits[lt], TicksOf(ats, lt));
    OneRefusalDenies(now, limits, req, at, lt);
  }

  // ---- The same for the service's answers ----

  /** A reset of the three buckets and then checks of the same login, password and IP. */
  function ResetThenChecks(req: Request, addr: Addr, ats: seq<Ticks>): seq<ServiceOp> {
    [ResetBuckets(req)] + seq(|ats|, i requires 0 <= i < |ats| => ServiceOp.Check(req, addr, ats[i]))
  }

  lemma {:induction false} RunIsChecks(s: Service, limits: Limits, req: Request, addr: Addr, ats: seq<Ticks>)
    requires Decide(s.white, s.black, addr) == Continue
    ensures Run(s, limits, ResetThenChecks(req, addr, ats)) == s.(store := ChecksAfter(ResetAll(s.store, limits, req), limits, req, ats))
  {
    var ops := ResetThenChecks(req, addr, ats);
    if ats == [] {
      assert ops == [ResetBuckets(req)] && ops[..0] == [];
      assert Run(s, limits, []) == s;
    } else {
      RunIsChecks(s, limits, req, addr, ats[..|ats| - 1]);
      assert ops[..|ops| - 1] == ResetThenChecks(req, addr, ats[..|ats| - 1]);
    }
  }

  /** A reset restores the full quota in both stores: from any state and at any times, the next
      min(N, M, K) consecutive checks of the same login, password and IP that the lists leave
      to the limiters are answered true. */
  lemma ResetRestoresQuota(s: Service, limits: Limits, req: Request, addr: Addr, ats: seq<Ticks>, k: nat)
    requires Configured(limits) && k < |ats| && Decide(s.white, s.black, addr) == Continue
    requires |ats| <= limits[Login].limit && |ats| <= limits[Password].limit && |ats| <= limits[Ip].limit
    ensures Answer(Run(s, limits, ResetThenChecks(req, addr, ats[..k])), limits, req, addr, ats[k])
  {
    RunIsChecks(s, limits, req, addr, ats[..k]);
    QuotaOfStore(s.store, limits, req, ats, k + 1);
    assert ats[..k + 1][..k] == ats[..k];
  }

  /** And no more than the quota: when a type's limit is the smallest and its limit + 1 checks
      after the reset all fall inside one window, the last is answered false. */
  lemma OneMoreIsDenied(s: Service, limits: Limits, req: Request, addr: Addr, ats: seq<Ticks>, lt: LimitType)
    requires Configured(limits) && |ats| == limits[lt].limit + 1 && Decide(s.white, s.black, addr) == Continue
    requires limits[lt].limit <= limits[Login].limit
    requires limits[lt].limit <= limits[Password].limit && limits[lt].limit <= limits[Ip].limit
    requires InOneWindow(limits[lt], TicksOf(ats, lt)) && Timely(Empty(s.store), limits[lt], TicksOf(ats, lt))
    requires s.store.Redis? ==> Sorted(Nows(TicksOf(ats, lt))) && DistinctMembers(TicksOf(ats, lt))
    ensures var last := |ats| - 1; !Answer(Run(s, limits, ResetThenChecks(req, addr, ats[..last])), limits, req, addr, ats[last])
  {
    RunIsChecks(s, limits, req, addr, ats[..|ats| - 1]);
    OneMoreThanQuota(s.store, limits, req, ats, lt);
  }
}
