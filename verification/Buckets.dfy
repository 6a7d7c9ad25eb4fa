/** Many buckets in one key space: what `BucketsDB` is as a value. */
module Buckets {
  import opened SlidingWindow

  /** The `data` map of the store, each timeline by its list of stamps. */
  type Buckets = map<string, seq<int>>

  /** A missing timeline behaves as an empty one. */
  function Bucket(b: Buckets, key: string): seq<int> {
    if key in b then b[key] else []
  }

  /** `BucketsDB.Allow`: the early returns leave the map alone, everything else creates the
      timeline if it is missing. */
  function AllowAt(b: Buckets, key: string, rule: Rule, now: int): (Buckets, bool) {
    if rule.limit <= 0 then (b, false)
    else if rule.window <= 0 then (b, true)
    else
      var out := Admit(Bucket(b, key), rule, now);
      (b[key := out.times], out.ok)
  }

  /** The early returns are those of `Admit`, so any call can be described by the list of its
      own bucket. */
  lemma AllowIsAdmit(b: Buckets, key: string, rule: Rule, now: int, other: string)
    ensures var out := Admit(Bucket(b, key), rule, now);
      && AllowAt(b, key, rule, now).1 == out.ok
      && Bucket(AllowAt(b, key, rule, now).0, other) == (if other == key then out.times else Bucket(b, other))
  {
  }

  /** `BucketsDB.Reset`: a missing timeline is not created. */
  function ResetAt(b: Buckets, key: string): Buckets {
    if key in b then b[key := []] else b
  }

  // ---- Histories over all keys ----

  datatype KeyedOp = KeyedOp(key: string, op: BucketOp)

  function Step(b: Buckets, k: KeyedOp): Buckets {
    match k.op
    case Attempt(rule, now) => AllowAt(b, k.key, rule, now).0
    case Clear => ResetAt(b, k.key)
  }

  /** The atomic effect of an operation on the list of its own bucket. */
  function Effect(times: seq<int>, op: BucketOp): Outcome {
    match op
    case Attempt(rule, now) => Admit(times, rule, now)
    case Clear => Outcome(true, [])
  }

  lemma StepEffect(b: Buckets, k: KeyedOp, key: string)
    ensures Bucket(Step(b, k), key) == if key == k.key then Effect(Bucket(b, key), k.op).times else Bucket(b, key)
  {
  }

  function After(history: seq<KeyedOp>): Buckets {
    if history == [] then map[] else Step(After(history[..|history| - 1]), history[|history| - 1])
  }

  /** The operations of a history that name one key. */
  function On(history: seq<KeyedOp>, key: string): seq<BucketOp> {
    if history == [] then []
    else
      var before := On(history[..|history| - 1], key);
      if history[|history| - 1].key == key then before + [history[|history| - 1].op] else before
  }

  /** Buckets are isolated: the content of one is the replay of its own operations, whatever
      was done under other keys in between. */
  lemma {:induction false} Isolation(history: seq<KeyedOp>, key: string)
    ensures Bucket(After(history), key) == Replay(On(history, key))
  {
    if history != [] {
      var before, last := history[..|history| - 1], history[|history| - 1];
      Isolation(before, key);
      if last.key == key {
        var ops := On(before, key);
        assert (ops + [last.op])[..|ops|] == ops;
      }
    }
  }
}
