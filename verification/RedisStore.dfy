/** The Redis keyspace with its expiry, the commands `Allow` queues into one transaction, and
    why the expiry cannot be seen. */
module RedisStore {
  import opened Wrappers
  import opened SlidingWindow
  import opened Text
  import opened RedisWindow

  /** A key's sorted set and the server time at which it is deleted. */
  datatype Entry = Entry(scores: Scores, deadline: Option<int>)

  type Keyspace = map<string, Entry>

  predicate Alive(ks: Keyspace, key: string, at: int) {
    key in ks && (ks[key].deadline.Some? ==> at < ks[key].deadline.value)
  }

  /** What a command executed at server time `at` finds under a key. */
  function Lookup(ks: Keyspace, key: string, at: int): Entry {
    if Alive(ks, key, at) then ks[key] else Entry(map[], None)
  }

  /** An empty sorted set is no key at all. */
  function Put(ks: Keyspace, key: string, entry: Entry): Keyspace {
    if entry.scores == map[] then ks - {key} else ks[key := entry]
  }

  /** Record a member, drop the scores up to the cut, count, and set the time to live. */
  function Transact(ks: Keyspace, key: string, member: string, score: int, cut: int, ttl: int, at: int): (Keyspace, nat) {
    var scores := ZRemRangeByScore(ZAdd(Lookup(ks, key, at).scores, member, score), 0, cut);
    (Put(ks, key, if ttl > 0 then Entry(scores, Some(at + ttl)) else Entry(map[], None)), |scores|)
  }

  /** The transaction of `Allow`. */
  function AllowRedis(ks: Keyspace, key: string, rule: Rule, t: Try): (Keyspace, bool) {
    var stamp := Stamp(t.now);
    var r := Transact(ks, key, MemberOf(t), stamp, stamp - Milliseconds(rule.window), rule.window * 2, t.server);
    (r.0, r.1 <= rule.limit)
  }

  // ---- One key ----

  function EntryOf(ks: Keyspace, key: string): Option<Entry> {
    if key in ks then Some(ks[key]) else None
  }

  /** The set a command executed at server time `at` finds in an entry. */
  function LiveScores(entry: Option<Entry>, at: int): Scores {
    if entry.Some? && (entry.value.deadline.Some? ==> at < entry.value.deadline.value) then entry.value.scores else map[]
  }

  /** What a transaction that left a set leaves under the key. */
  function Left(scores: Scores, ttl: int, at: int): Option<Entry> {
    if ttl > 0 && scores != map[] then Some(Entry(scores, Some(at + ttl))) else None
  }

  /** The transaction of `Allow` on the entry of the key alone. */
  function AllowEntry(entry: Option<Entry>, rule: Rule, t: Try): (Option<Entry>, bool) {
    var scores := Touch(LiveScores(entry, t.server), rule.window, t);
    (Left(scores, rule.window * 2, t.server), |scores| <= rule.limit)
  }

  lemma StoreEntry(ks: Keyspace, key: string, entry: Entry)
    ensures EntryOf(Put(ks, key, entry), key) == if entry.scores == map[] then None else Some(entry)
    ensures forall other :: other != key ==> EntryOf(Put(ks, key, entry), other) == EntryOf(ks, other)
  {
  }

  /** A transaction by the entry it leaves under its key; other keys keep theirs. */
  lemma TransactEntry(ks: Keyspace, key: string, member: string, score: int, cut: int, ttl: int, at: int, scores: Scores)
    requires scores == ZRemRangeByScore(ZAdd(LiveScores(EntryOf(ks, key), at), member, score), 0, cut)
    ensures var r := Transact(ks, key, member, score, cut, ttl, at);
      && r.1 == |scores| && EntryOf(r.0, key) == Left(scores, ttl, at)
      && (forall other :: other != key ==> EntryOf(r.0, other) == EntryOf(ks, other))
  {
    assert Lookup(ks, key, at).scores == LiveScores(EntryOf(ks, key), at);
    StoreEntry(ks, key, if ttl > 0 then Entry(scores, Some(at + ttl)) else Entry(map[], None));
  }

  lemma AllowIsTransact(ks: Keyspace, key: string, rule: Rule, t: Try, member: string, score: int, cut: int)
    requires member == MemberOf(t) && score == Stamp(t.now) && cut == Stamp(t.now) - Milliseconds(rule.window)
    ensures var r := Transact(ks, key, member, score, cut, rule.window * 2, t.server);
      AllowRedis(ks, key, rule, t) == (r.0, r.1 <= rule.limit)
    ensures forall scores: Scores :: Touch(scores, rule.window, t) == ZRemRangeByScore(ZAdd(scores, member, score), 0, cut)
  {
  }

  /** The same for `Allow`, with the set already known, so that it can be given a name. */
  lemma AllowLeaves(ks: Keyspace, key: string, rule: Rule, t: Try, scores: Scores)
    requires scores == Touch(LiveScores(EntryOf(ks, key), t.server), rule.window, t)
    ensures var r := AllowRedis(ks, key, rule, t);
      && r.1 == (|scores| <= rule.limit) && EntryOf(r.0, key) == Left(scores, rule.window * 2, t.server)
      && (forall other :: other != key ==> EntryOf(r.0, other) == EntryOf(ks, other))
  {
    var member, score, cut := MemberOf(t), Stamp(t.now), Stamp(t.now) - Milliseconds(rule.window);
    AllowIsTransact(ks, key, rule, t, member, score, cut);
    TransactEntry(ks, key, member, score, cut, rule.window * 2, t.server, scores);
  }

  lemma TransactStores(ks: Keyspace, key: string, member: string, score: int, cut: int, ttl: int, at: int, scores: Scores)
    requires scores == ZRemRangeByScore(ZAdd(LiveScores(EntryOf(ks, key), at), member, score), 0, cut)
    requires ttl > 0 && scores != map[]
    ensures Transact(ks, key, member, score, cut, ttl, at) == (ks[key := Entry(scores, Some(at + ttl))], |scores|)
  {
    assert Lookup(ks, key, at).scores == LiveScores(EntryOf(ks, key), at);
  }

  lemma AllowStores(ks: Keyspace, key: string, rule: Rule, t: Try, scores: Scores)
    requires scores == Touch(LiveScores(EntryOf(ks, key), t.server), rule.window, t)
    requires rule.window > 0 && scores != map[]
    ensures AllowRedis(ks, key, rule, t)
         == (ks[key := Entry(scores, Some(t.server + rule.window * 2))], |scores| <= rule.limit)
  {
    var member, score, cut := MemberOf(t), Stamp(t.now), Stamp(t.now) - Milliseconds(rule.window);
    AllowIsTransact(ks, key, rule, t, member, score, cut);
    TransactStores(ks, key, member, score, cut, rule.window * 2, t.server, scores);
  }

  /** The transaction depends on and changes the entry of its key only. */
  lemma RedisIsLocal(ks: Keyspace, key: string, rule: Rule, t: Try, other: string)
    ensures var r := AllowRedis(ks, key, rule, t);
      && EntryOf(r.0, other) == (if other == key then AllowEntry(EntryOf(ks, key), rule, t).0 else EntryOf(ks, other))
      && r.1 == AllowEntry(EntryOf(ks, key), rule, t).1
  {
    AllowLeaves(ks, key, rule, t, Touch(LiveScores(EntryOf(ks, key), t.server), rule.window, t));
  }

  function ResetRedis(ks: Keyspace, key: string): Keyspace {
    ks - {key}
  }

  // ---- The commands ----

  function Added(ks: Keyspace, key: string, member: string, score: int, at: int): Keyspace {
    var found := Lookup(ks, key, at);
    ks[key := found.(scores := ZAdd(found.scores, member, score))]
  }

  function Trimmed(ks: Keyspace, key: string, lo: int, hi: int, at: int): Keyspace {
    var found := Lookup(ks, key, at);
    Put(ks, key, found.(scores := ZRemRangeByScore(found.scores, lo, hi)))
  }

  /** A time to live that is not positive deletes the key at once. */
  function Expiring(ks: Keyspace, key: string, ttl: int, at: int): Keyspace {
    if !Alive(ks, key, at) || ttl <= 0 then ks - {key}
    else ks[key := ks[key].(deadline := Some(at + ttl))]
  }

  lemma AddThenTrim(ks: Keyspace, key: string, member: string, score: int, lo: int, hi: int, at: int)
    ensures var found := Lookup(ks, key, at);
      Trimmed(Added(ks, key, member, score, at), key, lo, hi, at)
      == Put(ks, key, found.(scores := ZRemRangeByScore(ZAdd(found.scores, member, score), lo, hi)))
  {
    var added := Added(ks, key, member, score, at);
    assert Alive(added, key, at);
    assert added - {key} == ks - {key};
  }

  lemma ExpireStored(ks: Keyspace, key: string, entry: Entry, ttl: int, at: int)
    requires entry.deadline.Some? ==> at < entry.deadline.value
    ensures Expiring(Put(ks, key, entry), key, ttl, at)
         == Put(ks, key, if ttl > 0 then Entry(entry.scores, Some(at + ttl)) else Entry(map[], None))
    ensures Lookup(Put(ks, key, entry), key, at).scores == entry.scores
  {
    assert (ks - {key}) - {key} == ks - {key};
    assert ks[key := entry] - {key} == ks - {key};
  }

  /** Run in order at one server time, the four commands have the effect of `Transact`. */
  lemma Transaction(ks: Keyspace, key: string, member: string, score: int, cut: int, ttl: int, at: int)
    ensures var trimmed := Trimmed(Added(ks, key, member, score, at), key, 0, cut, at);
      Transact(ks, key, member, score, cut, ttl, at) == (Expiring(trimmed, key, ttl, at), |Lookup(trimmed, key, at).scores|)
  {
    var found := Lookup(ks, key, at);
    AddThenTrim(ks, key, member, score, 0, cut, at);
    ExpireStored(ks, key, found.(scores := ZRemRangeByScore(ZAdd(found.scores, member, score), 0, cut)), ttl, at);
  }

  // ---- The server and its client ----

  class RedisServer {
    var keys: Keyspace

    constructor ()
      ensures keys == map[]
    {
      keys := map[];
    }

    method ZAdd(key: string, member: string, score: int, at: int)
      modifies this
      ensures keys == Added(old(keys), key, member, score, at)
    {
      keys := Added(keys, key, member, score, at);
    }

    method ZRemRangeByScore(key: string, lo: int, hi: int, at: int)
      modifies this
      ensures keys == Trimmed(old(keys), key, lo, hi, at)
    {
      keys := Trimmed(keys, key, lo, hi, at);
    }

    method ZCard(key: string, at: int) returns (n: nat)
      ensures n == |Lookup(keys, key, at).scores|
    {
      n := |Lookup(keys, key, at).scores|;
    }

    method Expire(key: string, ttl: int, at: int)
      modifies this
      ensures keys == Expiring(old(keys), key, ttl, at)
    {
      keys := Expiring(keys, key, ttl, at);
    }

    method Del(key: string)
      modifies this
      ensures keys == ResetRedis(old(keys), key)
    {
      keys := ResetRedis(keys, key);
    }
  }

  class BucketsRepo {
    const client: RedisServer

    constructor (client: RedisServer)
      ensures this.client == client
    {
      this.client := client;
    }

    /** The pipeline of four commands, run as one transaction and so at one server time. */
    method RunPipeline(key: string, member: string, score: int, cut: int, ttl: int, at: int) returns (count: nat)
      modifies client
      ensures (client.keys, count) == Transact(old(client.keys), key, member, score, cut, ttl, at)
    {
      Transaction(client.keys, key, member, score, cut, ttl, at);
      client.ZAdd(key, member, score, at);
      client.ZRemRangeByScore(key, 0, cut, at);
      count := client.ZCard(key, at);
      client.Expire(key, ttl, at);
    }

    method Allow(key: string, limit: int, window: int, t: Try) returns (ok: bool)
      modifies client
      ensures (client.keys, ok) == AllowRedis(old(client.keys), key, Rule(limit, window), t)
    {
      var now := Stamp(t.now);
      var count := RunPipeline(key, Member(now, t.suffix), now, now - Milliseconds(window), window * 2, t.server);
      ok := count <= limit;
    }

    method Reset(key: string)
      modifies client
      ensures client.keys == ResetRedis(old(client.keys), key)
    {
      client.Del(key);
    }
  }
}
