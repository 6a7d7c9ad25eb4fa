/** The cached subnet lists and the policer that consults them. */
module SubnetLists {
  import opened Wrappers
  import opened Ipv4

  /** net.ParseCIDR on IPv4 text. */
  type Parser = string -> Option<Cidr>

  datatype Error = InvalidCidr | RepoFailure

  datatype Decision = Continue | Deny | Allow

  type Nets = map<string, Net>

  /** `Add` takes text that parses and names the network by its own address. */
  predicate Acceptable(parse: Parser, cidr: string) {
    parse(cidr).Some? && parse(cidr).value.addr == NetOf(parse(cidr).value).base
  }

  /** The text parses and no bit is set behind its prefix. */
  predicate NamesNetwork(parse: Parser, cidr: string) {
    parse(cidr).Some? && forall i :: parse(cidr).value.prefix <= i < 32 ==> !parse(cidr).value.addr[i]
  }

  lemma AcceptableIsAligned(parse: Parser, cidr: string)
    ensures Acceptable(parse, cidr) <==> NamesNetwork(parse, cidr)
  {
    if parse(cidr).Some? {
      NetIsAligned(parse(cidr).value);
    }
  }

  /** The networks of a list of CIDRs, leaving out what is not acceptable. */
  function NetsOf(parse: Parser, cidrs: set<string>): Nets {
    map c | c in cidrs && Acceptable(parse, c) :: NetOf(parse(c).value)
  }

  predicate AllAcceptable(parse: Parser, cidrs: set<string>) {
    forall c :: c in cidrs ==> Acceptable(parse, c)
  }

  function Elements(cidrs: seq<string>): set<string> {
    set c | c in cidrs
  }

  /** How many CIDRs a load gets through before it meets one that is not acceptable. */
  function Leading(parse: Parser, cidrs: seq<string>): (n: nat)
    ensures n <= |cidrs|
    ensures forall i :: 0 <= i < n ==> Acceptable(parse, cidrs[i])
    ensures n < |cidrs| ==> !Acceptable(parse, cidrs[n])
  {
    if cidrs == [] || !Acceptable(parse, cidrs[0]) then 0 else 1 + Leading(parse, cidrs[1..])
  }

  /** Some network of the list contains the address. */
  ghost predicate Covered(nets: Nets, ip: Addr) {
    exists c :: c in nets && Contains(nets[c], ip)
  }

  class SubnetList {
    const listType: string
    const parse: Parser
    var nets: Nets

    constructor (listType: string, parse: Parser)
      ensures this.listType == listType && this.parse == parse && nets == map[]
    {
      this.listType, this.parse, nets := listType, parse, map[];
    }

    method Add(cidr: string) returns (err: Option<Error>)
      modifies this
      ensures err == if Acceptable(parse, cidr) then None else Some(InvalidCidr)
      ensures err.None? <==> parse(cidr).Some? && forall i :: parse(cidr).value.prefix <= i < 32 ==> !parse(cidr).value.addr[i]
      ensures nets == if err.None? then old(nets)[cidr := NetOf(parse(cidr).value)] else old(nets)
    {
      AcceptableIsAligned(parse, cidr);
      if parse(cidr).None? {
        return Some(InvalidCidr);
      }
      var ipnet := NetOf(parse(cidr).value);
      if parse(cidr).value.addr != ipnet.base {
        return Some(InvalidCidr);
      }
      nets := nets[cidr := ipnet];
      err := None;
    }

    /** A scan in whatever order the map yields its entries. */
    method Contains(ip: Addr) returns (found: bool)
      ensures found <==> Covered(nets, ip)
    {
      var rest := nets.Keys;
      while rest != {}
        invariant rest <= nets.Keys
        invariant forall c :: c in nets && c !in rest ==> !Ipv4.Contains(nets[c], ip)
        decreases |rest|
      {
        var c :| c in rest;
        if Ipv4.Contains(nets[c], ip) {
          return true;
        }
        rest := rest - {c};
      }
      found := false;
    }

    method Remove(cidr: string)
      modifies this
      ensures nets == old(nets) - {cidr}
    {
      nets := nets - {cidr};
    }

    method Clear()
      modifies this
      ensures nets == map[]
    {
      nets := map[];
    }

    /** Replaces the content by what was read, up to the first CIDR that is not acceptable; a
        failed read changes nothing. */
    method Load(read: Result<seq<string>, Error>) returns (err: Option<Error>)
      modifies this
      ensures read.Err? ==> err == Some(read.error) && nets == old(nets)
      ensures read.Ok? ==>
        var n := Leading(parse, read.value);
        && nets == NetsOf(parse, Elements(read.value[..n]))
        && err == if n == |read.value| then None else Some(InvalidCidr)
      ensures read.Ok? ==>
        (err.None? <==> forall k :: 0 <= k < |read.value| ==> NamesNetwork(parse, read.value[k]))
    {
      ghost var allNetworks := read.Ok? && forall k :: 0 <= k < |read.value| ==> NamesNetwork(parse, read.value[k]);
      assert allNetworks <==> read.Ok? && Leading(parse, read.value) == |read.value| by {
        if read.Ok? {
          CompleteMeansAligned(parse, read.value);
        }
      }
      if read.Err? {
        return Some(read.error);
      }
      Clear();
      var cidrs := read.value;
      for i := 0 to |cidrs|
        invariant i <= Leading(parse, cidrs)
        invariant nets == NetsOf(parse, Elements(cidrs[..i]))
      {
        err := Add(cidrs[i]);
        if err.Some? {
          return;
        }
        assert cidrs[..i + 1] == cidrs[..i] + [cidrs[i]];
        assert Elements(cidrs[..i + 1]) == Elements(cidrs[..i]) + {cidrs[i]};
      }
      err := None;
    }
  }

  /** The answer of the policer: the whitelist first, then the blacklist. */
  ghost function Decide(white: Nets, black: Nets, ip: Addr): Decision {
    if Covered(white, ip) then Allow else if Covered(black, ip) then Deny else Continue
  }

  class SubnetPolicer {
    const whitelist: SubnetList
    const blacklist: SubnetList

    constructor (parse: Parser)
      ensures fresh(whitelist) && fresh(blacklist) && whitelist != blacklist
      ensures whitelist.parse == parse && blacklist.parse == parse
      ensures whitelist.nets == map[] && blacklist.nets == map[]
    {
      whitelist := new SubnetList("whitelist", parse);
      blacklist := new SubnetList("blacklist", parse);
    }

    method Check(ip: Addr) returns (decision: Decision)
      ensures decision == Decide(whitelist.nets, blacklist.nets, ip)
    {
      var white := whitelist.Contains(ip);
      if white {
        return Allow;
      }
      var black := blacklist.Contains(ip);
      if black {
        return Deny;
      }
      decision := Continue;
    }

    /** The whitelist is reloaded first; if that fails the blacklist is left as it was. */
    method ReloadSubnets(white: Result<seq<string>, Error>, black: Result<seq<string>, Error>)
      returns (err: Option<Error>)
      requires whitelist != blacklist
      modifies whitelist, blacklist
      ensures LoadedFrom(whitelist.parse, white, old(whitelist.nets), whitelist.nets)
      ensures if Complete(whitelist.parse, white) then LoadedFrom(blacklist.parse, black, old(blacklist.nets), blacklist.nets)
              else blacklist.nets == old(blacklist.nets)
      ensures err.None? <==> Complete(whitelist.parse, white) && Complete(blacklist.parse, black)
    {
      err := whitelist.Load(white);
      if err.Some? {
        return;
      }
      err := blacklist.Load(black);
    }
  }

  // ---- The subscriber's message loop ----

  /** What the loop can receive; a message finds the repository as the two reads show it. */
  datatype Event = Cancelled | ChannelClosed | Message(white: Result<seq<string>, Error>, black: Result<seq<string>, Error>)

  datatype Exit = StillWaiting | ContextDone | Closed | ReloadFailed

  predicate Served(parse: Parser, event: Event) {
    event.Message? && Complete(parse, event.white) && Complete(parse, event.black)
  }

  /** How many messages the loop serves before it ends. */
  function Rounds(parse: Parser, events: seq<Event>): (n: nat)
    ensures n <= |events|
    ensures forall i :: 0 <= i < n ==> Served(parse, events[i])
    ensures n < |events| ==> !Served(parse, events[n])
  {
    if events == [] || !Served(parse, events[0]) then 0 else 1 + Rounds(parse, events[1..])
  }

  /** The two lists after n messages served. */
  function ListsAfter(parse: Parser, events: seq<Event>, n: nat, white: Nets, black: Nets): (Nets, Nets)
    requires n <= Rounds(parse, events)
  {
    if n == 0 then (white, black)
    else
      assert Served(parse, events[n - 1]);
      (NetsOf(parse, Elements(events[n - 1].white.value)), NetsOf(parse, Elements(events[n - 1].black.value)))
  }

  /** Start: reload on every message until the context ends, the channel closes or a reload
      fails. After any number of messages the lists are those the last one found; a reload
      that fails leaves what its two loads left of those. */
  method Start(holder: SubnetPolicer, events: seq<Event>) returns (exit: Exit)
    requires holder.whitelist != holder.blacklist && holder.blacklist.parse == holder.whitelist.parse
    modifies holder.whitelist, holder.blacklist
    ensures var n := Rounds(holder.whitelist.parse, events);
      exit == if n == |events| then StillWaiting
              else match events[n]
                   case Cancelled => ContextDone
                   case ChannelClosed => Closed
                   case Message(_, _) => ReloadFailed
    ensures var parse, n := holder.whitelist.parse, Rounds(holder.whitelist.parse, events);
      forall i :: 0 <= i < n ==>
        events[i].Message? && events[i].white.Ok? && events[i].black.Ok?
        && AllAcceptable(parse, Elements(events[i].white.value)) && AllAcceptable(parse, Elements(events[i].black.value))
    ensures var parse, n := holder.whitelist.parse, Rounds(holder.whitelist.parse, events);
      exit != ReloadFailed ==>
        && holder.whitelist.nets == (if n > 0 then NetsOf(parse, Elements(events[n - 1].white.value)) else old(holder.whitelist.nets))
        && holder.blacklist.nets == (if n > 0 then NetsOf(parse, Elements(events[n - 1].black.value)) else old(holder.blacklist.nets))
    ensures var parse, n := holder.whitelist.parse, Rounds(holder.whitelist.parse, events);
      exit == ReloadFailed ==>
        var white := if n > 0 then NetsOf(parse, Elements(events[n - 1].white.value)) else old(holder.whitelist.nets);
        var black := if n > 0 then NetsOf(parse, Elements(events[n - 1].black.value)) else old(holder.blacklist.nets);
        && !(Complete(parse, events[n].white) && Complete(parse, events[n].black))
        && ReloadedFrom(parse, events[n].white, events[n].black, white, black, holder.whitelist.nets, holder.blacklist.nets)
  {
    var parse := holder.whitelist.parse;
    RoundsAreGood(parse, events);
    for i := 0 to |events|
      invariant i <= Rounds(parse, events)
      invariant (holder.whitelist.nets, holder.blacklist.nets)
             == ListsAfter(parse, events, i, old(holder.whitelist.nets), old(holder.blacklist.nets))
    {
      match events[i]
      case Cancelled => return ContextDone;
      case ChannelClosed => return Closed;
      case Message(white, black) =>
        ghost var w, b := holder.whitelist.nets, holder.blacklist.nets;
        var err := holder.ReloadSubnets(white, black);
        if err.Some? {
          return ReloadFailed;
        }
        ServedLists(parse, white, black, w, b, holder.whitelist.nets, holder.blacklist.nets);
    }
    exit := StillWaiting;
  }

  /** Every message served found two lists that can be loaded. */
  lemma RoundsAreGood(parse: Parser, events: seq<Event>)
    ensures forall i :: 0 <= i < Rounds(parse, events) ==>
      events[i].Message? && events[i].white.Ok? && events[i].black.Ok?
      && AllAcceptable(parse, Elements(events[i].white.value)) && AllAcceptable(parse, Elements(events[i].black.value))
  {
    forall i | 0 <= i < Rounds(parse, events)
      ensures events[i].Message? && events[i].white.Ok? && events[i].black.Ok?
        && AllAcceptable(parse, Elements(events[i].white.value)) && AllAcceptable(parse, Elements(events[i].black.value))
    {
      assert Served(parse, events[i]);
      CompleteMeansAcceptable(parse, events[i].white);
      CompleteMeansAcceptable(parse, events[i].black);
    }
  }

  lemma ServedLists(parse: Parser, white: Result<seq<string>, Error>, black: Result<seq<string>, Error>,
                    w: Nets, b: Nets, w': Nets, b': Nets)
    requires ReloadedFrom(parse, white, black, w, b, w', b') && Complete(parse, white) && Complete(parse, black)
    ensures w' == NetsOf(parse, Elements(white.value)) && b' == NetsOf(parse, Elements(black.value))
  {
    LoadIsExact(parse, white.value, w, w');
    LoadIsExact(parse, black.value, b, b');
  }

  /** A load that ends without error. */
  predicate Complete(parse: Parser, read: Result<seq<string>, Error>) {
    read.Ok? && Leading(parse, read.value) == |read.value|
  }

  /** What a load leaves of a list. */
  predicate LoadedFrom(parse: Parser, read: Result<seq<string>, Error>, before: Nets, after: Nets) {
    after == if read.Err? then before else NetsOf(parse, Elements(read.value[..Leading(parse, read.value)]))
  }

  /** What a reload of both lists leaves: the blacklist is loaded only after a complete load of
      the whitelist. */
  predicate ReloadedFrom(parse: Parser, white: Result<seq<string>, Error>, black: Result<seq<string>, Error>,
                         w: Nets, b: Nets, w': Nets, b': Nets) {
    LoadedFrom(parse, white, w, w') && if Complete(parse, white) then LoadedFrom(parse, black, b, b') else b' == b
  }

  lemma CompleteMeansAcceptable(parse: Parser, read: Result<seq<string>, Error>)
    requires read.Ok?
    ensures Complete(parse, read) <==> AllAcceptable(parse, Elements(read.value))
  {
    var n := Leading(parse, read.value);
    if n < |read.value| {
      assert read.value[n] in Elements(read.value);
    }
  }

  lemma CompleteMeansAligned(parse: Parser, cidrs: seq<string>)
    ensures Leading(parse, cidrs) == |cidrs| <==> forall k :: 0 <= k < |cidrs| ==> NamesNetwork(parse, cidrs[k])
  {
    forall k | 0 <= k < |cidrs| ensures Acceptable(parse, cidrs[k]) <==> NamesNetwork(parse, cidrs[k]) {
      AcceptableIsAligned(parse, cidrs[k]);
    }
  }

  /** A complete load is exact; any load holds only acceptable entries of what was read. */
  lemma LoadIsExact(parse: Parser, cidrs: seq<string>, before: Nets, after: Nets)
    requires LoadedFrom(parse, Ok(cidrs), before, after)
    ensures Complete(parse, Ok(cidrs)) ==> after == NetsOf(parse, Elements(cidrs)) && after.Keys == Elements(cidrs)
    ensures after.Keys <= Elements(cidrs) && forall c :: c in after ==> Acceptable(parse, c) && after[c] == NetOf(parse(c).value)
  {
    if Complete(parse, Ok(cidrs)) {
      assert cidrs[..|cidrs|] == cidrs;
      CompleteMeansAcceptable(parse, Ok(cidrs));
    }
  }

  // ---- The scan decides by intervals ----

  ghost predicate InSomeInterval(nets: Nets, ip: Addr) {
    exists c :: c in nets && InInterval(nets[c], ip)
  }

  /** What is cached from any repository list consists of aligned networks, and the policer's
      answer is membership in the unions of their intervals, the whitelist first. */
  lemma DecideByIntervals(parse: Parser, white: set<string>, black: set<string>, ip: Addr)
    ensures forall c :: c in NetsOf(parse, white) ==> Aligned(NetsOf(parse, white)[c])
    ensures var w, b := NetsOf(parse, white), NetsOf(parse, black);
      && (Decide(w, b, ip) == Allow <==> InSomeInterval(w, ip))
      && (Decide(w, b, ip) == Deny <==> !InSomeInterval(w, ip) && InSomeInterval(b, ip))
  {
    CoveredByIntervals(parse, white, ip);
    CoveredByIntervals(parse, black, ip);
  }

  ghost predicate InInterval(net: Net, ip: Addr) {
    Value(net.base) <= Value(ip) < Value(net.base) + Pow2(32 - net.prefix)
  }

  lemma AcceptedNet(c: Cidr, ip: Addr)
    ensures Aligned(NetOf(c)) && (Contains(NetOf(c), ip) <==> InInterval(NetOf(c), ip))
  {
    NetIsAligned(c);
    ContainsIsInterval(NetOf(c), ip);
  }

  lemma CoveredByIntervals(parse: Parser, cidrs: set<string>, ip: Addr)
    ensures forall c :: c in NetsOf(parse, cidrs) ==> Aligned(NetsOf(parse, cidrs)[c])
    ensures Covered(NetsOf(parse, cidrs), ip) <==> InSomeInterval(NetsOf(parse, cidrs), ip)
  {
    var nets := NetsOf(parse, cidrs);
    forall c | c in nets ensures Aligned(nets[c]) && (Contains(nets[c], ip) <==> InInterval(nets[c], ip)) {
      AcceptedNet(parse(c).value, ip);
    }
  }

  /** The numbers a CIDR stands for: 2^(32 - p) of them from its address on. */
  predicate InCidr(c: Cidr, ip: Addr) {
    Value(c.addr) <= Value(ip) < Value(c.addr) + Pow2(32 - c.prefix)
  }

  /** A cached list covers exactly the addresses in the intervals of its acceptable CIDRs, as
      their texts give address and prefix. */
  lemma CoveredByCidrs(parse: Parser, cidrs: set<string>, ip: Addr)
    ensures Covered(NetsOf(parse, cidrs), ip)
       <==> exists c :: c in cidrs && Acceptable(parse, c)
              && Value(parse(c).value.addr) <= Value(ip) < Value(parse(c).value.addr) + Pow2(32 - parse(c).value.prefix)
  {
    var nets := NetsOf(parse, cidrs);
    forall c | c in nets
      ensures Contains(nets[c], ip) <==>
        Value(parse(c).value.addr) <= Value(ip) < Value(parse(c).value.addr) + Pow2(32 - parse(c).value.prefix)
    {
      AcceptedNet(parse(c).value, ip);
    }
    if Covered(nets, ip) {
      var c :| c in nets && Contains(nets[c], ip);
      assert c in cidrs && Acceptable(parse, c);
    }
    forall c | c in cidrs && Acceptable(parse, c) && Contains(nets[c], ip) ensures Covered(nets, ip) {
      assert c in nets;
    }
  }

  ghost predicate InSomeCidr(parse: Parser, cidrs: set<string>, ip: Addr) {
    exists c :: c in cidrs && Acceptable(parse, c) && InCidr(parse(c).value, ip)
  }

  /** The policer's answer from the texts of the repository's lists: allow inside an acceptable
      whitelist CIDR, else deny inside an acceptable blacklist CIDR, else continue. */
  lemma DecideByCidrs(parse: Parser, white: set<string>, black: set<string>, ip: Addr)
    ensures Decide(NetsOf(parse, white), NetsOf(parse, black), ip)
         == if InSomeCidr(parse, white, ip) then Allow
            else if InSomeCidr(parse, black, ip) then Deny
            else Continue
  {
    CoveredByCidrs(parse, white, ip);
    CoveredByCidrs(parse, black, ip);
  }
}
