/** Local mode: one process, an in-memory repository, and a publisher that reloads the cached
    lists before the administrative call returns. */
module LocalMode {
  import opened Wrappers
  import opened SubnetLists

  datatype ListType = Whitelist | Blacklist

  /** The stored CIDRs of each list. */
  type Stored = map<ListType, set<string>>

  function ListOf(stored: Stored, l: ListType): set<string> {
    if l in stored then stored[l] else {}
  }

  datatype Admin = AddTo(l: ListType, cidr: string) | RemoveFrom(l: ListType, cidr: string)

  /** The effect of a call on the stored lists; nothing is validated here. */
  function Edit(stored: Stored, call: Admin): Stored {
    match call
    case AddTo(l, cidr) => stored[l := ListOf(stored, l) + {cidr}]
    case RemoveFrom(l, cidr) => if l in stored then stored[l := stored[l] - {cidr}] else stored
  }

  class SubnetListDB {
    var data: Stored

    constructor ()
      ensures data == map[]
    {
      data := map[];
    }

    /** The stored CIDRs, each once, in whatever order the map yields them. */
    method GetSubnetLists(l: ListType) returns (cidrs: seq<string>)
      ensures Elements(cidrs) == ListOf(data, l) && |cidrs| == |ListOf(data, l)|
    {
      cidrs := [];
      if l !in data {
        return;
      }
      var rest := data[l];
      while rest != {}
        invariant rest <= data[l]
        invariant Elements(cidrs) == data[l] - rest && |cidrs| == |data[l]| - |rest|
        decreases |rest|
      {
        var c :| c in rest;
        rest := rest - {c};
        assert Elements(cidrs + [c]) == Elements(cidrs) + {c};
        cidrs := cidrs + [c];
      }
    }

    method AddCIDRToSubnetList(l: ListType, cidr: string)
      modifies this
      ensures data == Edit(old(data), AddTo(l, cidr))
    {
      var cidrs := if l in data then data[l] else {};
      data := data[l := cidrs + {cidr}];
    }

    method RemoveCIDRFromSubnetList(l: ListType, cidr: string)
      modifies this
      ensures data == Edit(old(data), RemoveFrom(l, cidr))
    {
      if l !in data {
        return;
      }
      data := data[l := data[l] - {cidr}];
    }

    method ClearSubnetList(l: ListType)
      modifies this
      ensures ListOf(data, l) == {} && forall k :: k != l ==> ListOf(data, k) == ListOf(old(data), k)
    {
      data := data - {l};
    }
  }

  /** Stored and cached lists together. */
  datatype Local = Local(stored: Stored, white: Nets, black: Nets)

  predicate Healthy(parse: Parser, stored: Stored) {
    AllAcceptable(parse, ListOf(stored, Whitelist)) && AllAcceptable(parse, ListOf(stored, Blacklist))
  }

  /** The caches hold exactly the stored lists. */
  predicate Agrees(parse: Parser, s: Local) {
    && s.white.Keys == ListOf(s.stored, Whitelist) && s.white == NetsOf(parse, ListOf(s.stored, Whitelist))
    && s.black.Keys == ListOf(s.stored, Blacklist) && s.black == NetsOf(parse, ListOf(s.stored, Blacklist))
  }

  /** A cache holds only networks of CIDRs that are stored. */
  predicate PartOf(parse: Parser, nets: Nets, cidrs: set<string>) {
    nets.Keys <= cidrs && forall c :: c in nets ==> Acceptable(parse, c) && nets[c] == NetsOf(parse, cidrs)[c]
  }

  /** A reload as the program does it: both lists are read from the repository, each in some
      order, and then loaded one after the other. */
  predicate Reloads(parse: Parser, white: seq<string>, black: seq<string>, before: Local, after: Local, ok: bool) {
    && Elements(white) == ListOf(before.stored, Whitelist) && |white| == |ListOf(before.stored, Whitelist)|
    && Elements(black) == ListOf(before.stored, Blacklist) && |black| == |ListOf(before.stored, Blacklist)|
    && after.stored == before.stored
    && ReloadedFrom(parse, Ok(white), Ok(black), before.white, before.black, after.white, after.black)
    && (ok <==> Complete(parse, Ok(white)) && Complete(parse, Ok(black)))
  }

  ghost predicate ReloadsSomehow(parse: Parser, before: Local, after: Local, ok: bool) {
    exists white, black :: Reloads(parse, white, black, before, after, ok)
  }

  /** An administrative call: the repository first, then the reload. */
  ghost predicate Performs(parse: Parser, call: Admin, before: Local, after: Local, ok: bool) {
    ReloadsSomehow(parse, before.(stored := Edit(before.stored, call)), after, ok)
  }

  /** What a reload amounts to, from any state of the caches. If the whitelist is not acceptable
      the blacklist is left as it was; whichever list fails keeps only stored entries. */
  predicate ReloadLeaves(parse: Parser, before: Local, after: Local, ok: bool) {
    && after.stored == before.stored
    && (ok <==> Healthy(parse, after.stored))
    && (ok ==> Agrees(parse, after))
    && PartOf(parse, after.white, ListOf(after.stored, Whitelist))
    && (if AllAcceptable(parse, ListOf(after.stored, Whitelist))
        then after.white == NetsOf(parse, ListOf(after.stored, Whitelist))
             && PartOf(parse, after.black, ListOf(after.stored, Blacklist))
        else after.black == before.black)
  }

  /** Whatever the order in which the repository yields its CIDRs. */
  lemma ReloadOutcome(parse: Parser, before: Local, after: Local, ok: bool)
    requires ReloadsSomehow(parse, before, after, ok)
    ensures ReloadLeaves(parse, before, after, ok)
  {
    var white, black :| Reloads(parse, white, black, before, after, ok);
    CompleteMeansAcceptable(parse, Ok(white));
    CompleteMeansAcceptable(parse, Ok(black));
    LoadIsExact(parse, white, before.white, after.white);
    if Complete(parse, Ok(white)) {
      LoadIsExact(parse, black, before.black, after.black);
    }
  }

  class SubnetListService {
    const repo: SubnetListDB
    const holder: SubnetPolicer

    constructor (repo: SubnetListDB, holder: SubnetPolicer)
      ensures this.repo == repo && this.holder == holder
    {
      this.repo, this.holder := repo, holder;
    }

    ghost predicate Wired()
      reads holder
    {
      holder.whitelist != holder.blacklist && holder.blacklist.parse == holder.whitelist.parse
    }

    ghost function View(): Local
      reads repo, holder.whitelist, holder.blacklist
    {
      Local(repo.data, holder.whitelist.nets, holder.blacklist.nets)
    }

    /** The local publisher: reload the holder from the repository. */
    method PublishSubnetUpdated() returns (err: Option<Error>)
      requires Wired()
      modifies holder.whitelist, holder.blacklist
      ensures ReloadsSomehow(holder.whitelist.parse, old(View()), View(), err.None?)
      ensures ReloadLeaves(holder.whitelist.parse, old(View()), View(), err.None?)
    {
      var white := repo.GetSubnetLists(Whitelist);
      var black := repo.GetSubnetLists(Blacklist);
      ghost var before := View();
      err := holder.ReloadSubnets(Ok(white), Ok(black));
      assert Reloads(holder.whitelist.parse, white, black, before, View(), err.None?);
      ReloadOutcome(holder.whitelist.parse, before, View(), err.None?);
    }

    method AddToWhitelist(cidr: string) returns (err: Option<Error>)
      requires Wired()
      modifies repo, holder.whitelist, holder.blacklist
      ensures Performs(holder.whitelist.parse, AddTo(Whitelist, cidr), old(View()), View(), err.None?)
      ensures ReloadLeaves(holder.whitelist.parse, old(View()).(stored := Edit(old(repo.data), AddTo(Whitelist, cidr))), View(), err.None?)
    {
      repo.AddCIDRToSubnetList(Whitelist, cidr);
      err := PublishSubnetUpdated();
    }

    method AddToBlacklist(cidr: string) returns (err: Option<Error>)
      requires Wired()
      modifies repo, holder.whitelist, holder.blacklist
      ensures Performs(holder.whitelist.parse, AddTo(Blacklist, cidr), old(View()), View(), err.None?)
      ensures ReloadLeaves(holder.whitelist.parse, old(View()).(stored := Edit(old(repo.data), AddTo(Blacklist, cidr))), View(), err.None?)
    {
      repo.AddCIDRToSubnetList(Blacklist, cidr);
      err := PublishSubnetUpdated();
    }

    method RemoveFromWhitelist(cidr: string) returns (err: Option<Error>)
      requires Wired()
      modifies repo, holder.whitelist, holder.blacklist
      ensures Performs(holder.whitelist.parse, RemoveFrom(Whitelist, cidr), old(View()), View(), err.None?)
      ensures ReloadLeaves(holder.whitelist.parse, old(View()).(stored := Edit(old(repo.data), RemoveFrom(Whitelist, cidr))), View(), err.None?)
    {
      repo.RemoveCIDRFromSubnetList(Whitelist, cidr);
      err := PublishSubnetUpdated();
    }

    method RemoveFromBlacklist(cidr: string) returns (err: Option<Error>)
      requires Wired()
      modifies repo, holder.whitelist, holder.blacklist
      ensures Performs(holder.whitelist.parse, RemoveFrom(Blacklist, cidr), old(View()), View(), err.None?)
      ensures ReloadLeaves(holder.whitelist.parse, old(View()).(stored := Edit(old(repo.data), RemoveFrom(Blacklist, cidr))), View(), err.None?)
    {
      repo.RemoveCIDRFromSubnetList(Blacklist, cidr);
      err := PublishSubnetUpdated();
    }

    /** Any calls one after the other; `states` are the states between them. */
    method Administer(calls: seq<Admin>) returns (oks: seq<bool>, ghost states: seq<Local>)
      requires Wired()
      modifies repo, holder.whitelist, holder.blacklist
      ensures IsRunFrom(holder.whitelist.parse, old(View()), calls, states, oks) && states[|calls|] == View()
      ensures old(repo.data) == map[] ==> forall k :: 0 <= k < |calls| ==>
        (oks[k] <==> NoneBad(holder.whitelist.parse, calls[..k + 1]))
      ensures calls != [] && oks[|calls| - 1] ==> Agrees(holder.whitelist.parse, View())
    {
      oks, states := [], [View()];
      for i := 0 to |calls|
        invariant IsRunFrom(holder.whitelist.parse, old(View()), calls[..i], states, oks) && states[i] == View()
      {
        var err := Do(calls[i]);
        RunMore(holder.whitelist.parse, old(View()), calls, i, states, oks, View(), err.None?);
        oks, states := oks + [err.None?], states + [View()];
      }
      assert calls[..|calls|] == calls;
      RunAgrees(holder.whitelist.parse, old(View()), calls, states, oks);
    }

    method Do(call: Admin) returns (err: Option<Error>)
      requires Wired()
      modifies repo, holder.whitelist, holder.blacklist
      ensures Performs(holder.whitelist.parse, call, old(View()), View(), err.None?)
    {
      match call
      case AddTo(l, cidr) =>
        if l == Whitelist {
          err := AddToWhitelist(cidr);
        } else {
          err := AddToBlacklist(cidr);
        }
      case RemoveFrom(l, cidr) =>
        if l == Whitelist {
          err := RemoveFromWhitelist(cidr);
        } else {
          err := RemoveFromBlacklist(cidr);
        }
    }
  }

  // ---- Whole runs ----

  function StoredAfter(calls: seq<Admin>): Stored {
    if calls == [] then map[] else Edit(StoredAfter(calls[..|calls| - 1]), calls[|calls| - 1])
  }

  /** The last call about a CIDR of a list added it. */
  predicate LastAdded(calls: seq<Admin>, l: ListType, cidr: string) {
    if calls == [] then false
    else
      var last := calls[|calls| - 1];
      if last.l == l && last.cidr == cidr then last.AddTo? else LastAdded(calls[..|calls| - 1], l, cidr)
  }

  lemma {:induction false} StoredIsLastAdded(calls: seq<Admin>, l: ListType, cidr: string)
    ensures cidr in ListOf(StoredAfter(calls), l) <==> LastAdded(calls, l, cidr)
  {
    if calls != [] {
      StoredIsLastAdded(calls[..|calls| - 1], l, cidr);
    }
  }

  /** A run of the service: the states between the calls and what the calls returned. */
  ghost predicate IsRunFrom(parse: Parser, start: Local, calls: seq<Admin>, states: seq<Local>, oks: seq<bool>) {
    && |states| == |calls| + 1 && |oks| == |calls| && states[0] == start
    && forall k :: 0 <= k < |calls| ==> Performs(parse, calls[k], states[k], states[k + 1], oks[k])
  }

  ghost predicate IsRun(parse: Parser, calls: seq<Admin>, states: seq<Local>, oks: seq<bool>) {
    states != [] && states[0].stored == map[] && IsRunFrom(parse, states[0], calls, states, oks)
  }

  lemma AfterCall(parse: Parser, call: Admin, before: Local, after: Local, ok: bool)
    requires Performs(parse, call, before, after, ok)
    ensures after.stored == Edit(before.stored, call) && ReloadLeaves(parse, before.(stored := Edit(before.stored, call)), after, ok)
  {
    ReloadOutcome(parse, before.(stored := Edit(before.stored, call)), after, ok);
  }

  lemma {:induction false} RunStores(parse: Parser, calls: seq<Admin>, states: seq<Local>, oks: seq<bool>, k: nat)
    requires IsRun(parse, calls, states, oks) && k <= |calls|
    ensures states[k].stored == StoredAfter(calls[..k])
  {
    if k > 0 {
      RunStores(parse, calls, states, oks, k - 1);
      assert calls[..k][..k - 1] == calls[..k - 1];
      AfterCall(parse, calls[k - 1], states[k - 1], states[k], oks[k - 1]);
    }
  }

  /** Nothing that was added and is still there is unacceptable. */
  ghost predicate NoneBad(parse: Parser, calls: seq<Admin>) {
    forall l, c :: LastAdded(calls, l, c) ==> Acceptable(parse, c)
  }

  lemma HealthyIsNoneBad(parse: Parser, calls: seq<Admin>)
    ensures Healthy(parse, StoredAfter(calls)) <==> NoneBad(parse, calls)
  {
    forall l, c ensures c in ListOf(StoredAfter(calls), l) <==> LastAdded(calls, l, c) {
      StoredIsLastAdded(calls, l, c);
    }
    if !NoneBad(parse, calls) {
      var l, c :| LastAdded(calls, l, c) && !Acceptable(parse, c);
      assert c in ListOf(StoredAfter(calls), l);
      assert l == Whitelist || l == Blacklist;
    }
  }

  /** Agreement and self-healing. In any run of administrative calls, from any caches, whatever
      failed before and in whatever order CIDRs are read, a call succeeds exactly when every
      CIDR added and not removed since is acceptable; after a success both caches equal the
      stored lists, and after a failure the list being loaded holds only stored entries. */
  lemma LocalAgreement(parse: Parser, calls: seq<Admin>, states: seq<Local>, oks: seq<bool>, k: nat)
    requires IsRun(parse, calls, states, oks) && k < |calls|
    ensures oks[k] <==> NoneBad(parse, calls[..k + 1])
    ensures oks[k] <==> AllNameNetworks(parse, calls[..k + 1])
    ensures oks[k] ==> Agrees(parse, states[k + 1])
    ensures ReloadLeaves(parse, states[k].(stored := states[k + 1].stored), states[k + 1], oks[k])
  {
    RunStores(parse, calls, states, oks, k + 1);
    AfterCall(parse, calls[k], states[k], states[k + 1], oks[k]);
    HealthyIsNoneBad(parse, calls[..k + 1]);
    NoneBadIsAligned(parse, calls[..k + 1]);
  }

  /** In terms of the texts: whatever is stored parses and has no bit set behind its prefix. */
  ghost predicate AllNameNetworks(parse: Parser, calls: seq<Admin>) {
    forall l, c :: LastAdded(calls, l, c) ==> NamesNetwork(parse, c)
  }

  lemma NoneBadIsAligned(parse: Parser, calls: seq<Admin>)
    ensures NoneBad(parse, calls) <==> AllNameNetworks(parse, calls)
  {
    forall c ensures Acceptable(parse, c) <==> NamesNetwork(parse, c) {
      AcceptableIsAligned(parse, c);
    }
  }

  lemma RunMore(parse: Parser, start: Local, calls: seq<Admin>, i: nat, states: seq<Local>, oks: seq<bool>, after: Local, ok: bool)
    requires i < |calls| && IsRunFrom(parse, start, calls[..i], states, oks) && Performs(parse, calls[i], states[i], after, ok)
    ensures IsRunFrom(parse, start, calls[..i + 1], states + [after], oks + [ok])
  {
  }

  lemma RunAgrees(parse: Parser, start: Local, calls: seq<Admin>, states: seq<Local>, oks: seq<bool>)
    requires IsRunFrom(parse, start, calls, states, oks)
    ensures start.stored == map[] ==> forall k :: 0 <= k < |calls| ==> (oks[k] <==> NoneBad(parse, calls[..k + 1]))
    ensures calls != [] && oks[|calls| - 1] ==> Agrees(parse, states[|calls|])
  {
    if calls != [] {
      var last := |calls| - 1;
      AfterCall(parse, calls[last], states[last], states[last + 1], oks[last]);
    }
    if start.stored == map[] {
      forall k | 0 <= k < |calls| ensures oks[k] <==> NoneBad(parse, calls[..k + 1]) {
        LocalAgreement(parse, calls, states, oks, k);
      }
    }
  }
}
