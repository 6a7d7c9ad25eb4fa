/** The decision of the service: lists first, then login, password and IP, leaving at the first
    refusal; and what whole runs of the service guarantee for each login, password and IP. */
module Pipeline {
  import opened SlidingWindow
  import opened Text
  import opened RedisWindow
  import opened Limits

  /** What the limiters are asked about: the login, the password's hash, the IP's text. */
  datatype Request = Request(login: string, hash: string, ip: string)

  /** Each of the three limiters reads the clock for itself. */
  datatype Ticks = Ticks(login: Try, password: Try, ip: Try)

  function KeyOf(req: Request, lt: LimitType): string {
    match lt
    case Login => req.login
    case Password => req.hash
    case Ip => req.ip
  }

  function TickOf(at: Ticks, lt: LimitType): Try {
    match lt
    case Login => at.login
    case Password => at.password
    case Ip => at.ip
  }

  /** The three checks with their early exits. */
  function CheckLimits(store: Store, limits: Limits, req: Request, at: Ticks): (Store, bool) {
    var (s1, okLogin) := AllowType(store, limits, Login, req.login, at.login);
    if !okLogin then (s1, false)
    else
      var (s2, okPassword) := AllowType(s1, limits, Password, req.hash, at.password);
      if !okPassword then (s2, false)
      else
        var (s3, okIp) := AllowType(s2, limits, Ip, req.ip, at.ip);
        (s3, okIp)
  }

  function ResetAll(store: Store, limits: Limits, req: Request): Store {
    var s1 := ResetType(store, limits, Login, req.login);
    var s2 := ResetType(s1, limits, Password, req.hash);
    ResetType(s2, limits, Ip, req.ip)
  }

  // ---- What one check does to each bucket ----

  function BucketOf(store: Store, lt: LimitType, key: string): Content {
    ContentOf(store, BucketKey(Name(lt), key))
  }

  /** What the limiter of a type says of a request, from its own bucket. */
  predicate Passes(store: Store, limits: Limits, req: Request, at: Ticks, lt: LimitType)
    requires lt in limits
  {
    AllowOn(BucketOf(store, lt, KeyOf(req, lt)), limits[lt], TickOf(at, lt)).1
  }

  /** Whether a check gets as far as a type. */
  ghost predicate Reaches(store: Store, limits: Limits, req: Request, at: Ticks, lt: LimitType)
    requires Configured(limits)
  {
    match lt
    case Login => true
    case Password => Passes(store, limits, req, at, Login)
    case Ip => Passes(store, limits, req, at, Login) && Passes(store, limits, req, at, Password)
  }

  /** The content of a bucket after the limiter of its type has been asked. */
  function Charged(store: Store, limits: Limits, req: Request, at: Ticks, lt: LimitType, key: string): Content
    requires lt in limits
  {
    if key == KeyOf(req, lt) then AllowOn(BucketOf(store, lt, key), limits[lt], TickOf(at, lt)).0
    else BucketOf(store, lt, key)
  }

  lemma TypeIsLocal(store: Store, limits: Limits, lt: LimitType, key: string, t: Try, lt': LimitType, key': string)
    requires lt in limits
    ensures var r := AllowType(store, limits, lt, key, t);
      && r.1 == AllowOn(BucketOf(store, lt, key), limits[lt], t).1
      && BucketOf(r.0, lt', key') == (if lt == lt' && key == key' then AllowOn(BucketOf(store, lt, key), limits[lt], t).0
                                      else BucketOf(store, lt', key'))
      && r.0.Memory? == store.Memory?
  {
    OneBucketEach(lt, key, lt', key');
    AllowIsLocal(store, BucketKey(Name(lt), key), limits[lt], t, BucketKey(Name(lt'), key'));
  }

  /** A check passes when all three limiters pass it, each judging by its own bucket as it was
      before the check; it touches the bucket of a type exactly when it reaches that type. */
  lemma CheckEffect(store: Store, limits: Limits, req: Request, at: Ticks, lt: LimitType, key: string)
    requires Configured(limits)
    ensures var r := CheckLimits(store, limits, req, at);
      && BucketOf(r.0, lt, key) == (if Reaches(store, limits, req, at, lt) then Charged(store, limits, req, at, lt, key)
                                    else BucketOf(store, lt, key))
      && (r.1 <==> Reaches(store, limits, req, at, Ip) && Passes(store, limits, req, at, Ip))
      && r.0.Memory? == store.Memory?
  {
    var s1 := AllowType(store, limits, Login, req.login, at.login).0;
    TypeIsLocal(store, limits, Login, req.login, at.login, lt, key);
    TypeIsLocal(store, limits, Login, req.login, at.login, Password, req.hash);
    TypeIsLocal(store, limits, Login, req.login, at.login, Ip, req.ip);
    if Passes(store, limits, req, at, Login) {
      var s2 := AllowType(s1, limits, Password, req.hash, at.password).0;
      TypeIsLocal(s1, limits, Password, req.hash, at.password, lt, key);
      TypeIsLocal(s1, limits, Password, req.hash, at.password, Ip, req.ip);
      if Passes(store, limits, req, at, Password) {
        TypeIsLocal(s2, limits, Ip, req.ip, at.ip, lt, key);
      }
    }
  }

  lemma ResetEffect(store: Store, limits: Limits, req: Request, lt: LimitType, key: string)
    requires Configured(limits)
    ensures BucketOf(ResetAll(store, limits, req), lt, key)
         == if key == KeyOf(req, lt) then Empty(store) else BucketOf(store, lt, key)
    ensures ResetAll(store, limits, req).Memory? == store.Memory?
  {
    var s1 := ResetType(store, limits, Login, req.login);
    var s2 := ResetType(s1, limits, Password, req.hash);
    TypeResetIsLocal(store, limits, Login, req.login, lt, key);
    TypeResetIsLocal(s1, limits, Password, req.hash, lt, key);
    TypeResetIsLocal(s2, limits, Ip, req.ip, lt, key);
  }

  lemma TypeResetIsLocal(store: Store, limits: Limits, lt: LimitType, key: string, lt': LimitType, key': string)
    requires lt in limits
    ensures BucketOf(ResetType(store, limits, lt, key), lt', key')
         == if lt == lt' && key == key' then Empty(store) else BucketOf(store, lt', key')
    ensures ResetType(store, limits, lt, key).Memory? == store.Memory?
  {
    OneBucketEach(lt, key, lt', key');
    ResetIsLocal(store, BucketKey(Name(lt), key), BucketKey(Name(lt'), key'));
  }

  // ---- In memory the charges are a prefix of (login, password, ip) ----

  /** An entry was added for this attempt. */
  predicate EntryAdded(before: Content, after: Content, rule: Rule, t: Try)
    requires before.Times? && after.Times?
  {
    after.times == Live(before.times, Cut(t.now, rule.window)) + [Stamp(t.now)]
  }

  /** The bucket was left alone or lost expired entries only. */
  predicate OnlyTrimmed(before: Content, after: Content, rule: Rule, t: Try)
    requires before.Times? && after.Times?
  {
    after == before || after.times == Live(before.times, Cut(t.now, rule.window))
  }

  /** Whether the check added an entry for a type, or at most trimmed its bucket. */
  ghost predicate ChargedAt(store: Store, limits: Limits, req: Request, at: Ticks, lt: LimitType, charged: bool)
    requires lt in limits
  {
    var was, now := BucketOf(store, lt, KeyOf(req, lt)), BucketOf(CheckLimits(store, limits, req, at).0, lt, KeyOf(req, lt));
    && was.Times? && now.Times?
    && if charged then EntryAdded(was, now, limits[lt], TickOf(at, lt)) else OnlyTrimmed(was, now, limits[lt], TickOf(at, lt))
  }

  /** How many limiters pass a request before the first that does not. */
  ghost function PassCount(store: Store, limits: Limits, req: Request, at: Ticks): nat
    requires Configured(limits)
  {
    if !Passes(store, limits, req, at, Login) then 0
    else if !Passes(store, limits, req, at, Password) then 1
    else if !Passes(store, limits, req, at, Ip) then 2
    else 3
  }

  /** In memory mode a check adds an entry for the first n of login, password and IP and for
      no other; it returns true exactly when n is 3. */
  lemma ChargesArePrefix(store: Store, limits: Limits, req: Request, at: Ticks)
    requires store.Memory? && Configured(limits)
    ensures var n := PassCount(store, limits, req, at);
      && ChargedAt(store, limits, req, at, Login, 0 < n)
      && ChargedAt(store, limits, req, at, Password, 1 < n)
      && ChargedAt(store, limits, req, at, Ip, 2 < n)
      && (CheckLimits(store, limits, req, at).1 <==> n == 3)
  {
    CheckEffect(store, limits, req, at, Login, req.login);
    CheckEffect(store, limits, req, at, Password, req.hash);
    CheckEffect(store, limits, req, at, Ip, req.ip);
  }
}
