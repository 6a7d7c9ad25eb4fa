/** The objects behind a check in local mode: limiters over the in-memory store, the checker
    that dispatches to them by type, and the service that asks the lists first. */
module RateLimitService {
  import opened Wrappers
  import opened SlidingWindow
  import opened Buckets
  import opened BucketsStore
  import opened Text
  import opened RedisWindow
  import opened Ipv4
  import opened SubnetLists
  import opened Limits
  import opened Pipeline
  import opened ServiceRuns

  // ---- Checks and resets by the text of their bucket keys ----

  lemma KeyTexts(x: string)
    ensures BucketKey(Name(Login), x) == "login:" + x
    ensures BucketKey(Name(Password), x) == "password:" + x
    ensures BucketKey(Name(Ip), x) == "ip:" + x
  {
    assert "login" + ":" == "login:" && "password" + ":" == "password:" && "ip" + ":" == "ip:";
    assert BucketKey(Name(Login), x) == ("login" + ":") + x;
    assert BucketKey(Name(Password), x) == ("password" + ":") + x;
    assert BucketKey(Name(Ip), x) == ("ip" + ":") + x;
  }

  lemma KeysDiffer(login: string, hash: string, ip: string)
    ensures "login:" + login != "password:" + hash && "login:" + login != "ip:" + ip && "password:" + hash != "ip:" + ip
  {
    KeyTexts(login);
    KeyTexts(hash);
    KeyTexts(ip);
    OneBucketEach(Login, login, Password, hash);
    OneBucketEach(Login, login, Ip, ip);
    OneBucketEach(Password, hash, Ip, ip);
  }

  lemma ThreeAllows(b: Buckets, limits: Limits, req: Request, at: Ticks, k1: string, k2: string, k3: string, key: string)
    requires (forall lt: LimitType :: lt in limits) && k1 != k2 && k1 != k3 && k2 != k3
    requires k1 == BucketKey(Name(Login), req.login) && k2 == BucketKey(Name(Password), req.hash) && k3 == BucketKey(Name(Ip), req.ip)
    ensures var l := Admit(Bucket(b, k1), limits[Login], at.login.now);
      var p := Admit(Bucket(b, k2), limits[Password], at.password.now);
      var i := Admit(Bucket(b, k3), limits[Ip], at.ip.now);
      var r := CheckLimits(Memory(b), limits, req, at);
      && r.0.Memory? && (r.1 <==> l.ok && p.ok && i.ok)
      && Bucket(r.0.buckets, key) == (if key == k1 then l.times
                                      else if key == k2 && l.ok then p.times
                                      else if key == k3 && l.ok && p.ok then i.times
                                      else Bucket(b, key))
  {
    var b1 := AllowAt(b, k1, limits[Login], at.login.now).0;
    AllowIsAdmit(b, k1, limits[Login], at.login.now, key);
    AllowIsAdmit(b, k1, limits[Login], at.login.now, k2);
    AllowIsAdmit(b, k1, limits[Login], at.login.now, k3);
    var b2 := AllowAt(b1, k2, limits[Password], at.password.now).0;
    AllowIsAdmit(b1, k2, limits[Password], at.password.now, key);
    AllowIsAdmit(b1, k2, limits[Password], at.password.now, k3);
    AllowIsAdmit(b2, k3, limits[Ip], at.ip.now, key);
  }

  /** A check by its three limiters in terms of the buckets' texts: it is let through when
      each of the three buckets admits it, and it changes the bucket of a limiter when those
      before it have let it through. */
  lemma CheckByText(b: Buckets, limits: Limits, req: Request, at: Ticks)
    requires forall lt: LimitType :: lt in limits
    ensures var l := Admit(Bucket(b, "login:" + req.login), limits[Login], at.login.now);
      var p := Admit(Bucket(b, "password:" + req.hash), limits[Password], at.password.now);
      var i := Admit(Bucket(b, "ip:" + req.ip), limits[Ip], at.ip.now);
      var r := CheckLimits(Memory(b), limits, req, at);
      && r.0.Memory? && (r.1 <==> l.ok && p.ok && i.ok)
      && forall key :: Bucket(r.0.buckets, key)
                    == if key == "login:" + req.login then l.times
                       else if key == "password:" + req.hash && l.ok then p.times
                       else if key == "ip:" + req.ip && l.ok && p.ok then i.times
                       else Bucket(b, key)
  {
    KeyTexts(req.login);
    KeyTexts(req.hash);
    KeyTexts(req.ip);
    KeysDiffer(req.login, req.hash, req.ip);
    var k1, k2, k3 := "login:" + req.login, "password:" + req.hash, "ip:" + req.ip;
    ThreeAllows(b, limits, req, at, k1, k2, k3, k1);
    forall key
      ensures Bucket(CheckLimits(Memory(b), limits, req, at).0.buckets, key)
           == if key == k1 then Admit(Bucket(b, k1), limits[Login], at.login.now).times
              else if key == k2 && Admit(Bucket(b, k1), limits[Login], at.login.now).ok then
                Admit(Bucket(b, k2), limits[Password], at.password.now).times
              else if key == k3 && Admit(Bucket(b, k1), limits[Login], at.login.now).ok
                      && Admit(Bucket(b, k2), limits[Password], at.password.now).ok then
                Admit(Bucket(b, k3), limits[Ip], at.ip.now).times
              else Bucket(b, key)
    {
      ThreeAllows(b, limits, req, at, k1, k2, k3, key);
    }
  }

  lemma ResetByText(b: Buckets, limits: Limits, req: Request)
    requires forall lt: LimitType :: lt in limits
    ensures var r := ResetAll(Memory(b), limits, req);
      && r.Memory?
      && forall key :: Bucket(r.buckets, key)
                    == if key == "login:" + req.login || key == "password:" + req.hash || key == "ip:" + req.ip then []
                       else Bucket(b, key)
  {
    KeyTexts(req.login);
    KeyTexts(req.hash);
    KeyTexts(req.ip);
  }

  class Limiter {
    const storage: BucketsDB
    const limitType: string
    const rule: Rule

    constructor (storage: BucketsDB, limitType: string, rule: Rule)
      ensures this.storage == storage && this.limitType == limitType && this.rule == rule
    {
      this.storage, this.limitType, this.rule := storage, limitType, rule;
    }

    method Allow(key: string, t: Try) returns (ok: bool)
      requires storage.Valid()
      modifies storage, storage.Owner.Keys
      ensures storage.Valid() && (forall o :: o in storage.Owner && o !in old(storage.Owner) ==> fresh(o))
      ensures (Memory(storage.View), ok) == StoreAllow(Memory(old(storage.View)), BucketKey(limitType, key), rule, t)
    {
      ok := storage.Allow(limitType + ":" + key, rule.limit, rule.window, t.now);
    }

    method Reset(key: string)
      requires storage.Valid()
      modifies storage, storage.Owner.Keys
      ensures storage.Valid() && storage.Owner == old(storage.Owner)
      ensures Memory(storage.View) == StoreReset(Memory(old(storage.View)), BucketKey(limitType, key))
    {
      storage.Reset(limitType + ":" + key);
    }
  }

  class LimitChecker {
    var limiters: map<LimitType, Limiter>
    ghost const storage: BucketsDB
    ghost const limits: Limits

    /** One limiter for each configured type, all on the one store. */
    ghost predicate Valid()
      reads this
    {
      && limiters.Keys == limits.Keys
      && forall lt :: lt in limiters ==> Serves(limiters[lt], storage, lt, limits[lt])
    }

    constructor (storage: BucketsDB, limits: Limits)
      ensures Valid() && this.storage == storage && this.limits == limits
    {
      this.storage, this.limits := storage, limits;
      limiters := map[];
      new;
      var rest := limits.Keys;
      while rest != {}
        invariant rest <= limits.Keys && limiters.Keys == limits.Keys - rest
        invariant forall lt :: lt in limiters ==> Serves(limiters[lt], storage, lt, limits[lt])
        decreases |rest|
      {
        var lt :| lt in rest;
        rest := rest - {lt};
        var limiter := new Limiter(storage, Name(lt), limits[lt]);
        limiters := limiters[lt := limiter];
      }
    }

    method Allow(lt: LimitType, key: string, t: Try) returns (ok: bool)
      requires Valid() && storage.Valid() && this !in storage.Owner
      modifies storage, storage.Owner.Keys
      ensures storage.Valid() && (forall o :: o in storage.Owner && o !in old(storage.Owner) ==> fresh(o))
      ensures (Memory(storage.View), ok) == AllowType(Memory(old(storage.View)), limits, lt, key, t)
      ensures lt !in limits ==> !ok && storage.View == old(storage.View)
    {
      if lt !in limiters {
        return false;
      }
      assert Serves(limiters[lt], storage, lt, limits[lt]);
      ok := limiters[lt].Allow(key, t);
    }

    method Reset(lt: LimitType, key: string)
      requires Valid() && storage.Valid() && this !in storage.Owner
      modifies storage, storage.Owner.Keys
      ensures storage.Valid() && storage.Owner == old(storage.Owner)
      ensures Memory(storage.View) == ResetType(Memory(old(storage.View)), limits, lt, key)
    {
      if lt in limiters {
        assert Serves(limiters[lt], storage, lt, limits[lt]);
        limiters[lt].Reset(key);
      }
    }
  }

  predicate Serves(limiter: Limiter, storage: BucketsDB, lt: LimitType, rule: Rule) {
    limiter.storage == storage && limiter.limitType == Name(lt) && limiter.rule == rule
  }

  class RateLimiterService {
    const subnetPolicer: SubnetPolicer
    const limitChecker: LimitChecker
    const hash: string -> string      // SHA-256 in hexadecimal
    const ipText: Addr -> string      // net.IP.String

    constructor (storage: BucketsDB, limits: Limits, parse: Parser, hash: string -> string, ipText: Addr -> string)
      ensures this.hash == hash && this.ipText == ipText
      ensures fresh(limitChecker) && limitChecker.Valid() && limitChecker.storage == storage && limitChecker.limits == limits
      ensures subnetPolicer.whitelist != subnetPolicer.blacklist
      ensures subnetPolicer.whitelist.parse == parse && subnetPolicer.blacklist.parse == parse
      ensures subnetPolicer.whitelist.nets == map[] && subnetPolicer.blacklist.nets == map[]
      ensures storage.Valid() ==> Valid()
    {
      this.hash, this.ipText := hash, ipText;
      subnetPolicer := new SubnetPolicer(parse);
      limitChecker := new LimitChecker(storage, limits);
    }

    ghost predicate Valid()
      reads limitChecker, limitChecker.storage, limitChecker.storage.Owner.Keys
    {
      && limitChecker.Valid() && limitChecker.storage.Valid() && limitChecker !in limitChecker.storage.Owner
      && subnetPolicer.whitelist != subnetPolicer.blacklist
      && subnetPolicer.whitelist !in limitChecker.storage.Owner && subnetPolicer.blacklist !in limitChecker.storage.Owner
    }

    ghost function View(): Service
      reads limitChecker.storage, subnetPolicer.whitelist, subnetPolicer.blacklist
    {
      Service(Memory(limitChecker.storage.View), subnetPolicer.whitelist.nets, subnetPolicer.blacklist.nets)
    }

    function RequestOf(login: string, password: string, ip: Addr): Request {
      Request(login, hash(password), ipText(ip))
    }

    /** A check takes the service to the state `Perform` gives and answers as `Answer` says. */
    method Check(login: string, password: string, ip: Addr, at: Ticks) returns (ok: bool)
      requires Valid()
      modifies limitChecker.storage, limitChecker.storage.Owner.Keys
      ensures Valid()
      ensures View() == Perform(old(View()), limitChecker.limits, ServiceOp.Check(RequestOf(login, password, ip), ip, at))
      ensures ok <==> Answer(old(View()), limitChecker.limits, RequestOf(login, password, ip), ip, at)
      ensures var b, limits := old(limitChecker.storage.View), limitChecker.limits;
        (forall lt: LimitType :: lt in limits) ==>
          (ok <==> Covered(subnetPolicer.whitelist.nets, ip)
                   || (!Covered(subnetPolicer.blacklist.nets, ip)
                       && Admit(Bucket(b, "login:" + login), limits[Login], at.login.now).ok
                       && Admit(Bucket(b, "password:" + hash(password)), limits[Password], at.password.now).ok
                       && Admit(Bucket(b, "ip:" + ipText(ip)), limits[Ip], at.ip.now).ok))
      ensures Covered(subnetPolicer.whitelist.nets, ip) || Covered(subnetPolicer.blacklist.nets, ip) ==>
        limitChecker.storage.View == old(limitChecker.storage.View)
      ensures var b, limits := old(limitChecker.storage.View), limitChecker.limits;
        (forall lt: LimitType :: lt in limits)
        && !Covered(subnetPolicer.whitelist.nets, ip) && !Covered(subnetPolicer.blacklist.nets, ip) ==>
          var l := Admit(Bucket(b, "login:" + login), limits[Login], at.login.now);
          var p := Admit(Bucket(b, "password:" + hash(password)), limits[Password], at.password.now);
          var i := Admit(Bucket(b, "ip:" + ipText(ip)), limits[Ip], at.ip.now);
          forall key :: Bucket(limitChecker.storage.View, key)
                     == if key == "login:" + login then l.times
                        else if key == "password:" + hash(password) && l.ok then p.times
                        else if key == "ip:" + ipText(ip) && l.ok && p.ok then i.times
                        else Bucket(b, key)
    {
      var decision := subnetPolicer.Check(ip);
      match decision
      case Deny => return false;
      case Allow => return true;
      case Continue =>
      ghost var b := limitChecker.storage.View;
      ok := AskLimiters(login, hash(password), ipText(ip), at);
      if forall lt: LimitType :: lt in limitChecker.limits {
        CheckByText(b, limitChecker.limits, RequestOf(login, password, ip), at);
      }
    }

    /** The three limiters in order, leaving at the first refusal. */
    method AskLimiters(login: string, passwordHash: string, ip: string, at: Ticks) returns (ok: bool)
      requires Valid()
      modifies limitChecker.storage, limitChecker.storage.Owner.Keys
      ensures Valid() && subnetPolicer.whitelist.nets == old(subnetPolicer.whitelist.nets)
      ensures subnetPolicer.blacklist.nets == old(subnetPolicer.blacklist.nets)
      ensures (Memory(limitChecker.storage.View), ok)
           == CheckLimits(Memory(old(limitChecker.storage.View)), limitChecker.limits, Request(login, passwordHash, ip), at)
    {
      ok := limitChecker.Allow(Login, login, at.login);
      if !ok {
        return;
      }
      ok := limitChecker.Allow(Password, passwordHash, at.password);
      if !ok {
        return;
      }
      ok := limitChecker.Allow(Ip, ip, at.ip);
    }

    method Reset(login: string, password: string, ip: Addr)
      requires Valid()
      modifies limitChecker.storage, limitChecker.storage.Owner.Keys
      ensures Valid()
      ensures View() == Perform(old(View()), limitChecker.limits, ResetBuckets(RequestOf(login, password, ip)))
      ensures (forall lt: LimitType :: lt in limitChecker.limits) ==>
        forall key :: Bucket(limitChecker.storage.View, key)
                   == if key == "login:" + login || key == "password:" + hash(password) || key == "ip:" + ipText(ip) then []
                      else Bucket(old(limitChecker.storage.View), key)
    {
      ghost var b := limitChecker.storage.View;
      ResetLimiters(login, hash(password), ipText(ip));
      if forall lt: LimitType :: lt in limitChecker.limits {
        ResetByText(b, limitChecker.limits, RequestOf(login, password, ip));
      }
    }

    method ResetLimiters(login: string, passwordHash: string, ip: string)
      requires Valid()
      modifies limitChecker.storage, limitChecker.storage.Owner.Keys
      ensures Valid() && subnetPolicer.whitelist.nets == old(subnetPolicer.whitelist.nets)
      ensures subnetPolicer.blacklist.nets == old(subnetPolicer.blacklist.nets)
      ensures Memory(limitChecker.storage.View)
           == ResetAll(Memory(old(limitChecker.storage.View)), limitChecker.limits, Request(login, passwordHash, ip))
    {
      limitChecker.Reset(Login, login);
      limitChecker.Reset(Password, passwordHash);
      limitChecker.Reset(Ip, ip);
    }

    /** Init and ReloadSubnets: the lists change and no bucket does. */
    method ReloadSubnets(white: Result<seq<string>, Error>, black: Result<seq<string>, Error>)
      returns (err: Option<Error>)
      requires Valid()
      modifies subnetPolicer.whitelist, subnetPolicer.blacklist
      ensures Valid()
      ensures View() == Perform(old(View()), limitChecker.limits,
                                ListsChange(subnetPolicer.whitelist.nets, subnetPolicer.blacklist.nets))
      ensures LoadedFrom(subnetPolicer.whitelist.parse, white, old(subnetPolicer.whitelist.nets), subnetPolicer.whitelist.nets)
      ensures if Complete(subnetPolicer.whitelist.parse, white)
              then LoadedFrom(subnetPolicer.blacklist.parse, black, old(subnetPolicer.blacklist.nets), subnetPolicer.blacklist.nets)
              else subnetPolicer.blacklist.nets == old(subnetPolicer.blacklist.nets)
      ensures err.None? <==> Complete(subnetPolicer.whitelist.parse, white) && Complete(subnetPolicer.blacklist.parse, black)
    {
      err := subnetPolicer.ReloadSubnets(white, black);
    }
  }
}
