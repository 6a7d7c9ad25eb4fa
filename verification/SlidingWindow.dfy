/** One in-memory bucket: the list of admitted stamps that `Allow` trims, tests and extends.

    Clock readings are nanoseconds, as `time.Now` gives them; what the store keeps are
    millisecond stamps (`UnixMilli` floors). The functions of this module are the
    specification that the class `BucketsDB` and the step system `BucketSteps` refine;
    `WindowTheorems` and `GreedyTheorems` say what that specification is worth. */
module SlidingWindow {

  const NANOS_PER_MILLI: int := 1_000_000

  /** A limit and a window length in nanoseconds. */
  datatype Rule = Rule(limit: int, window: int)

  datatype Outcome = Outcome(ok: bool, times: seq<int>)

  /** What can happen to one bucket. */
  datatype BucketOp = Attempt(rule: Rule, now: int) | Clear

  function Stamp(now: int): int {
    now / NANOS_PER_MILLI
  }

  function Cut(now: int, window: int): int {
    (now - window) / NANOS_PER_MILLI
  }

  function Stamps(nows: seq<int>): (stamps: seq<int>)
    ensures |stamps| == |nows|
    ensures forall i :: 0 <= i < |nows| ==> stamps[i] == Stamp(nows[i])
  {
    seq(|nows|, i requires 0 <= i < |nows| => Stamp(nows[i]))
  }

  /** How many leading entries the trim loop passes over. */
  function TrimCount(times: seq<int>, cut: int): (n: nat)
    ensures n <= |times|
    ensures forall i :: 0 <= i < n ==> times[i] <= cut
    ensures n < |times| ==> times[n] > cut
  {
    if times == [] || times[0] > cut then 0 else 1 + TrimCount(times[1..], cut)
  }

  function Live(times: seq<int>, cut: int): seq<int> {
    times[TrimCount(times, cut)..]
  }

  /** The whole of `Allow` on one bucket, early returns included. */
  function Admit(times: seq<int>, rule: Rule, now: int): Outcome {
    if rule.limit <= 0 then Outcome(false, times)
    else if rule.window <= 0 then Outcome(true, times)
    else
      var live := Live(times, Cut(now, rule.window));
      if |live| >= rule.limit then Outcome(false, live)
      else Outcome(true, live + [Stamp(now)])
  }

  function Apply(times: seq<int>, op: BucketOp): seq<int> {
    match op
    case Attempt(rule, now) => Admit(times, rule, now).times
    case Clear => []
  }

  /** The content of a bucket after a history, starting empty. */
  function Replay(ops: seq<BucketOp>): seq<int> {
    if ops == [] then [] else Apply(Replay(ops[..|ops| - 1]), ops[|ops| - 1])
  }

  // ---- Runs of attempts under one rule, as every bucket of the service sees them ----

  predicate Working(rule: Rule) {
    rule.limit > 0 && rule.window > 0
  }

  /** The content of the bucket after attempts at the given readings, in the order in
      which they took the bucket's lock. */
  function TimesAfter(rule: Rule, nows: seq<int>): seq<int> {
    if nows == [] then []
    else Admit(TimesAfter(rule, nows[..|nows| - 1]), rule, nows[|nows| - 1]).times
  }

  predicate AdmitsLast(rule: Rule, nows: seq<int>)
    requires nows != []
  {
    Admit(TimesAfter(rule, nows[..|nows| - 1]), rule, nows[|nows| - 1]).ok
  }

  /** The readings of the attempts that were let through. */
  function Admitted(rule: Rule, nows: seq<int>): seq<int> {
    if nows == [] then []
    else
      var before := Admitted(rule, nows[..|nows| - 1]);
      if AdmitsLast(rule, nows) then before + [nows[|nows| - 1]] else before
  }

  // ---- Vocabulary of the theorems ----

  /** How many elements of s lie in the half-open interval [lo, hi). */
  function CountIn(s: seq<int>, lo: int, hi: int): nat {
    if s == [] then 0
    else CountIn(s[..|s| - 1], lo, hi) + if lo <= s[|s| - 1] < hi then 1 else 0
  }

  ghost predicate Sorted(s: seq<int>) {
    forall i, j :: 0 <= i < j < |s| ==> s[i] <= s[j]
  }

  /** No attempt is stamped more than d ms after an attempt that locks the bucket later. */
  ghost predicate Skewed(nows: seq<int>, d: int) {
    forall i, j :: 0 <= i < j < |nows| ==> Stamp(nows[i]) <= Stamp(nows[j]) + d
  }

  // ---- Counting ----

  lemma {:induction false} CountConcat(a: seq<int>, b: seq<int>, lo: int, hi: int)
    ensures CountIn(a + b, lo, hi) == CountIn(a, lo, hi) + CountIn(b, lo, hi)
  {
    if b == [] {
      assert a + b == a;
    } else {
      assert (a + b)[..|a + b| - 1] == a + b[..|b| - 1];
      CountConcat(a, b[..|b| - 1], lo, hi);
    }
  }

  lemma CountPush(s: seq<int>, y: int, lo: int, hi: int)
    ensures CountIn(s + [y], lo, hi) == CountIn(s, lo, hi) + if lo <= y < hi then 1 else 0
  {
    assert (s + [y])[..|s|] == s;
  }

  lemma {:induction false} CountAtMostLength(s: seq<int>, lo: int, hi: int)
    ensures CountIn(s, lo, hi) <= |s|
  {
    if s != [] {
      CountAtMostLength(s[..|s| - 1], lo, hi);
    }
  }

  lemma {:induction false} CountNone(s: seq<int>, lo: int, hi: int)
    requires forall i :: 0 <= i < |s| ==> !(lo <= s[i] < hi)
    ensures CountIn(s, lo, hi) == 0
  {
    if s != [] {
      CountNone(s[..|s| - 1], lo, hi);
    }
  }

  lemma {:induction false} CountAll(s: seq<int>, lo: int, hi: int)
    requires forall i :: 0 <= i < |s| ==> lo <= s[i] < hi
    ensures CountIn(s, lo, hi) == |s|
  {
    if s != [] {
      CountAll(s[..|s| - 1], lo, hi);
    }
  }

  lemma CountTail(s: seq<int>, k: nat, lo: int, hi: int)
    requires k <= |s|
    ensures CountIn(s[k..], lo, hi) <= CountIn(s, lo, hi)
  {
    assert s == s[..k] + s[k..];
    CountConcat(s[..k], s[k..], lo, hi);
  }

  lemma CountHead(s: seq<int>, k: nat, lo: int, hi: int)
    requires k <= |s|
    ensures CountIn(s[..k], lo, hi) <= CountIn(s, lo, hi)
  {
    assert s == s[..k] + s[k..];
    CountConcat(s[..k], s[k..], lo, hi);
  }

  // ---- The trim loop ----

  /** On a sorted list the trim loop keeps exactly the entries newer than the cut. */
  lemma TrimIsFilter(times: seq<int>, cut: int)
    requires Sorted(times)
    ensures forall i :: 0 <= i < |times| ==> (i < TrimCount(times, cut) <==> times[i] <= cut)
    ensures forall i :: 0 <= i < |Live(times, cut)| ==> Live(times, cut)[i] > cut
  {
    var n := TrimCount(times, cut);
    forall i | n < i < |times| ensures times[i] > cut {
      assert times[n] <= times[i];
    }
  }

  // ---- Unfolding one attempt ----

  lemma AttemptUnfold(rule: Rule, nows: seq<int>, n: int)
    ensures (nows + [n])[..|nows|] == nows
    ensures TimesAfter(rule, nows + [n]) == Admit(TimesAfter(rule, nows), rule, n).times
    ensures AdmitsLast(rule, nows + [n]) == Admit(TimesAfter(rule, nows), rule, n).ok
    ensures Admitted(rule, nows + [n])
         == if Admit(TimesAfter(rule, nows), rule, n).ok then Admitted(rule, nows) + [n] else Admitted(rule, nows)
  {
    assert (nows + [n])[..|nows|] == nows;
  }

  // ---- Histories with resets ----

  predicate FixedRule(ops: seq<BucketOp>, rule: Rule) {
    forall i :: 0 <= i < |ops| && ops[i].Attempt? ==> ops[i].rule == rule
  }

  /** The readings of the attempts made since the last reset. */
  function Since(ops: seq<BucketOp>): seq<int> {
    if ops == [] then []
    else
      match ops[|ops| - 1]
      case Attempt(_, now) => Since(ops[..|ops| - 1]) + [now]
      case Clear => []
  }

  /** Under one rule, a bucket depends only on the attempts since its last reset. */
  lemma {:induction false} ReplaySince(ops: seq<BucketOp>, rule: Rule)
    requires FixedRule(ops, rule)
    ensures Replay(ops) == TimesAfter(rule, Since(ops))
  {
    if ops != [] {
      var before := ops[..|ops| - 1];
      ReplaySince(before, rule);
      match ops[|ops| - 1]
      case Attempt(_, now) => AttemptUnfold(rule, Since(before), now);
      case Clear =>
    }
  }
}
