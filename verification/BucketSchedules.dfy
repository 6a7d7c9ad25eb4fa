/** Threads that are held up between reading the clock and taking the lock can lock a bucket in
    any order at all, although the clock they read never goes back. So what the bounds for
    stamps out of order leave open does happen. */
module BucketSchedules {
  import opened Wrappers
  import opened SlidingWindow
  import opened WindowTheorems
  import opened RealTimeTheorems
  import opened Buckets
  import opened BucketSteps
  import opened Linearizability
  import opened BucketProgress

  /** The moves of a schedule as time passes. */
  ghost predicate ClockForward(moves: seq<Move>) {
    forall i, j :: 0 <= i < j < |moves| ==> moves[i].now <= moves[j].now
  }

  /** The attempts on a key since its last reset, in the order in which they took its lock. */
  ghost function Locked(moves: seq<Move>, key: string): seq<int> {
    Since(On(Taken(Exec(moves).trace), key))
  }

  ghost predicate OneRule(moves: seq<Move>, key: string, rule: Rule) {
    FixedRule(On(Taken(Exec(moves).trace), key), rule)
  }

  // ---- Schedules from one state to another ----

  ghost predicate Chain(states: seq<State>, moves: seq<Move>) {
    && |states| == |moves| + 1
    && forall i {:trigger moves[i]} :: 0 <= i < |moves| ==> WellFormed(states[i]) && states[i + 1] == Next(states[i], moves[i])
  }

  ghost predicate Leads(s: State, moves: seq<Move>, s': State) {
    exists states :: Chain(states, moves) && states[0] == s && states[|moves|] == s'
  }

  lemma LeadsNowhere(s: State)
    ensures Leads(s, [], s)
  {
    assert Chain([s], []);
  }

  lemma LeadsOn(s: State, m: Move)
    requires WellFormed(s)
    ensures Leads(s, [m], Next(s, m))
  {
    assert Chain([s, Next(s, m)], [m]);
  }

  lemma LeadsThen(s: State, a: seq<Move>, s1: State, b: seq<Move>, s': State)
    requires Leads(s, a, s1) && Leads(s1, b, s')
    ensures Leads(s, a + b, s')
  {
    var first :| Chain(first, a) && first[0] == s && first[|a|] == s1;
    var second :| Chain(second, b) && second[0] == s1 && second[|b|] == s';
    var all, moves := first + second[1..], a + b;
    forall i | 0 <= i < |moves| ensures WellFormed(all[i]) && all[i + 1] == Next(all[i], moves[i]) {
      if i < |a| {
        assert moves[i] == a[i];
      } else {
        assert moves[i] == b[i - |a|];
      }
    }
    assert Chain(all, moves);
  }

  lemma {:induction false} ChainIsExec(states: seq<State>, moves: seq<Move>)
    requires Chain(states, moves) && states[0] == INIT
    ensures Exec(moves) == states[|moves|]
  {
    if moves != [] {
      var last := |moves| - 1;
      var before, m := moves[..last], moves[last];
      var earlier := states[..last + 1];
      forall i | 0 <= i < last ensures WellFormed(earlier[i]) && earlier[i + 1] == Next(earlier[i], before[i]) {
        assert moves[i] == before[i];
      }
      ChainIsExec(earlier, before);
      assert moves[last] == m;
    }
  }

  lemma LeadsIsExec(moves: seq<Move>, s: State)
    requires Leads(INIT, moves, s)
    ensures Exec(moves) == s
  {
    var states :| Chain(states, moves) && states[0] == INIT && states[|moves|] == s;
    ChainIsExec(states, moves);
  }

  lemma ForwardThen(moves: seq<Move>, more: seq<Move>, now: int)
    requires ClockForward(moves) && forall i :: 0 <= i < |moves| ==> moves[i].now <= now
    requires forall i :: 0 <= i < |more| ==> more[i].now == now
    ensures ClockForward(moves + more) && forall i :: 0 <= i < |moves + more| ==> (moves + more)[i].now <= now
  {
  }

  // ---- One thread running while all others wait ----

  function JobOf(key: string, rule: Rule, now: int): KeyedOp {
    KeyedOp(key, Attempt(rule, now))
  }

  predicate Resting(pc: Pc) {
    pc.Idle? || pc.WantRead?
  }

  predicate BeforeEffect(pc: Pc, job: KeyedOp) {
    match pc
    case WantRead(j) => j == job
    case Reading(j) => j == job
    case GotRead(j, _) => j == job
    case WantWrite(j) => j == job
    case Draining(j) => j == job
    case Writing(j) => j == job
    case Written(j, _) => j == job
    case WantTimeline(j, _) => j == job
    case _ => false
  }

  predicate AfterEffect(pc: Pc) {
    pc.Trimming? || pc.Deciding? || pc.Leaving? || pc.Returning? || pc.Idle?
  }

  ghost predicate OthersRest(s: State, t: Tid) {
    forall u: Tid :: u != t ==> Resting(PcOf(s, u))
  }

  /** The calls that have taken effect: those before, and this one once it has. */
  ghost predicate Doing(s: State, t: Tid, job: KeyedOp, past: seq<KeyedOp>) {
    || (BeforeEffect(PcOf(s, t), job) && Taken(s.trace) == past)
    || (AfterEffect(PcOf(s, t)) && Taken(s.trace) == past + [job])
  }

  lemma AloneMoves(s: State, t: Tid)
    requires Inv(s) && OthersRest(s, t)
    ensures Enabled(s, t)
  {
    assert LockAt(s, t);
    if s.writer.Some? {
      assert LockAt(s, s.writer.value);
    }
    forall u | u in s.readers ensures u == t {
      assert LockAt(s, u);
    }
    if PcOf(s, t).WantTimeline? {
      var tl := PcOf(s, t).tl;
      assert TimelineOf(PcOf(s, t)) == Some(tl);
      forall u: Tid ensures s.heap[tl].holder != Some(u) {
        assert LockAt(s, u);
      }
    }
  }

  lemma MapStepDoes(s: State, m: Move, job: KeyedOp, past: seq<KeyedOp>)
    requires WellFormed(s) && Enabled(s, m.tid) && BeforeEffect(PcOf(s, m.tid), job) && !PcOf(s, m.tid).WantTimeline?
    requires job.op.Attempt? && Taken(s.trace) == past
    ensures BeforeEffect(PcOf(Next(s, m), m.tid), job) && Taken(Next(s, m).trace) == past
  {
  }

  lemma LockingStepDoes(s: State, m: Move, job: KeyedOp, past: seq<KeyedOp>)
    requires WellFormed(s) && Enabled(s, m.tid) && BeforeEffect(PcOf(s, m.tid), job) && PcOf(s, m.tid).WantTimeline?
    requires job.op.Attempt? && Taken(s.trace) == past
    ensures AfterEffect(PcOf(Next(s, m), m.tid)) && Taken(Next(s, m).trace) == past + [job]
  {
    assert TimelineOf(PcOf(s, m.tid)).value < |s.heap|;
    assert Next(s, m).trace[..|s.trace|] == s.trace;
  }

  lemma LateStepDoes(s: State, m: Move)
    requires WellFormed(s) && Enabled(s, m.tid) && AfterEffect(PcOf(s, m.tid)) && !PcOf(s, m.tid).Idle?
    ensures AfterEffect(PcOf(Next(s, m), m.tid)) && Taken(Next(s, m).trace) == Taken(s.trace)
  {
    assert TimelineOf(PcOf(s, m.tid)).Some? ==> TimelineOf(PcOf(s, m.tid)).value < |s.heap|;
    if Next(s, m).trace != s.trace {
      assert Next(s, m).trace[..|s.trace|] == s.trace;
    }
  }

  lemma StepDoes(s: State, m: Move, job: KeyedOp, past: seq<KeyedOp>)
    requires WellFormed(s) && Enabled(s, m.tid) && !PcOf(s, m.tid).Idle?
    requires job.op.Attempt? && Doing(s, m.tid, job, past)
    ensures Doing(Next(s, m), m.tid, job, past)
  {
    if AfterEffect(PcOf(s, m.tid)) {
      LateStepDoes(s, m);
    } else if PcOf(s, m.tid).WantTimeline? {
      LockingStepDoes(s, m, job, past);
    } else {
      MapStepDoes(s, m, job, past);
    }
  }

  lemma StepAlone(s: State, m: Move, job: KeyedOp, past: seq<KeyedOp>)
    requires Inv(s) && OthersRest(s, m.tid) && Doing(s, m.tid, job, past) && job.op.Attempt? && PcOf(s, m.tid) != Idle
    ensures Enabled(s, m.tid) && Doing(Next(s, m), m.tid, job, past)
    ensures forall u: Tid :: u != m.tid ==> PcOf(Next(s, m), u) == PcOf(s, u)
  {
    AloneMoves(s, m.tid);
    StepDoes(s, m, job, past);
    forall u: Tid | u != m.tid ensures PcOf(Next(s, m), u) == PcOf(s, u) {
      OtherStepKeeps(s, m, u);
    }
  }

  lemma NextAlone(s: State, m: Move, job: KeyedOp, past: seq<KeyedOp>) returns (s': State)
    requires Inv(s) && job.op.Attempt?
    requires OthersRest(s, m.tid) && Doing(s, m.tid, job, past) && PcOf(s, m.tid) != Idle
    ensures Inv(s') && Leads(s, [m], s') && Doing(s', m.tid, job, past)
    ensures forall u: Tid :: u != m.tid ==> PcOf(s', u) == PcOf(s, u)
    ensures var pc, pc' := PcOf(s, m.tid), PcOf(s', m.tid);
      Rank(pc') < Rank(pc) || (Rank(pc') == Rank(pc) && Turns(s', pc') < Turns(s, pc))
  {
    s' := Next(s, m);
    StepAlone(s, m, job, past);
    OwnStepDecreases(s, m);
    NextKeepsInv(s, m);
    LeadsOn(s, m);
  }

  ghost predicate Completes(s: State, s': State, t: Tid, job: KeyedOp, past: seq<KeyedOp>) {
    && PcOf(s', t) == Idle && Taken(s'.trace) == past + [job]
    && forall u: Tid :: u != t ==> PcOf(s', u) == PcOf(s, u)
  }

  lemma CompletesLater(s: State, s1: State, s': State, t: Tid, job: KeyedOp, past: seq<KeyedOp>)
    requires Completes(s1, s', t, job, past) && forall u: Tid :: u != t ==> PcOf(s1, u) == PcOf(s, u)
    ensures Completes(s, s', t, job, past)
  {
  }

  /** Left alone, a thread completes its call. */
  lemma {:induction false} Finish(s: State, t: Tid, job: KeyedOp, past: seq<KeyedOp>, now: int) returns (more: seq<Move>, s': State)
    requires Inv(s) && OthersRest(s, t) && Doing(s, t, job, past) && job.op.Attempt?
    ensures Inv(s') && Leads(s, more, s') && Completes(s, s', t, job, past)
    ensures forall i :: 0 <= i < |more| ==> more[i].now == now
    decreases Rank(PcOf(s, t)), Turns(s, PcOf(s, t))
  {
    if PcOf(s, t) == Idle {
      more, s' := [], s;
      LeadsNowhere(s);
    } else {
      var m := Move(t, AllowOp(job.key, job.op.rule), now);
      var s1 := NextAlone(s, m, job, past);
      var rest;
      rest, s' := Finish(s1, t, job, past, now);
      CompletesLater(s, s1, s', t, job, past);
      more := [m] + rest;
      LeadsThen(s, [m], s1, rest, s');
    }
  }

  // ---- Threads that read the clock in its order ----

  /** A thread calls and reads the clock, and goes no further. */
  lemma ParkOne(s: State, t: Tid, key: string, rule: Rule, now: int) returns (s': State)
    requires Inv(s) && Working(rule) && PcOf(s, t) == Idle
    ensures var m := Move(t, AllowOp(key, rule), now); Inv(s') && Leads(s, [m, m], s')
    ensures PcOf(s', t) == WantRead(JobOf(key, rule, now)) && Taken(s'.trace) == Taken(s.trace)
    ensures forall u: Tid :: u != t ==> PcOf(s', u) == PcOf(s, u)
  {
    var m := Move(t, AllowOp(key, rule), now);
    var s1 := CallMade(s, m);
    s' := ClockRead(s1, m);
    LeadsThen(s, [m], s1, [m], s');
    assert [m] + [m] == [m, m];
  }

  lemma Calling(s: State, m: Move)
    requires WellFormed(s) && PcOf(s, m.tid) == Idle
    ensures PcOf(Next(s, m), m.tid) == Entered(m.op) && Taken(Next(s, m).trace) == Taken(s.trace)
  {
    assert Next(s, m).trace[..|s.trace|] == s.trace;
  }

  lemma CallMade(s: State, m: Move) returns (s': State)
    requires Inv(s) && PcOf(s, m.tid) == Idle
    ensures Inv(s') && Leads(s, [m], s') && PcOf(s', m.tid) == Entered(m.op) && Taken(s'.trace) == Taken(s.trace)
    ensures forall u: Tid :: u != m.tid ==> PcOf(s', u) == PcOf(s, u)
  {
    s' := Next(s, m);
    Calling(s, m);
    NextKeepsInv(s, m);
    LeadsOn(s, m);
  }

  lemma ClockRead(s: State, m: Move) returns (s': State)
    requires Inv(s) && m.op.AllowOp? && Working(m.op.rule) && PcOf(s, m.tid) == Entered(m.op)
    ensures Inv(s') && Leads(s, [m], s') && Taken(s'.trace) == Taken(s.trace)
    ensures PcOf(s', m.tid) == WantRead(JobOf(m.op.key, m.op.rule, m.now))
    ensures forall u: Tid :: u != m.tid ==> PcOf(s', u) == PcOf(s, u)
  {
    s' := Next(s, m);
    NextKeepsInv(s, m);
    LeadsOn(s, m);
  }

  /** The positions of a list in the order of their values. */
  ghost predicate InOrder(nows: seq<int>, order: seq<nat>) {
    && (forall i :: 0 <= i < |order| ==> order[i] < |nows|)
    && (forall i, j :: 0 <= i < j < |order| ==> order[i] != order[j] && nows[order[i]] <= nows[order[j]])
  }

  lemma {:induction false} Place(nows: seq<int>, order: seq<nat>, x: int) returns (p: nat)
    requires InOrder(nows, order)
    ensures p <= |order|
    ensures forall i :: 0 <= i < p ==> nows[order[i]] <= x
    ensures forall i :: p <= i < |order| ==> nows[order[i]] >= x
  {
    p := |order|;
    if p > 0 && nows[order[p - 1]] > x {
      var before := order[..p - 1];
      p := Place(nows, before, x);
      assert forall i :: 0 <= i < |before| ==> before[i] == order[i];
    }
  }

  lemma Inserted(nows: seq<int>, order: seq<nat>, p: nat, x: nat)
    requires InOrder(nows, order) && p <= |order| && x < |nows| && x !in order
    requires forall i :: 0 <= i < p ==> nows[order[i]] <= nows[x]
    requires forall i :: p <= i < |order| ==> nows[order[i]] >= nows[x]
    ensures InOrder(nows, order[..p] + [x] + order[p..])
    ensures forall t :: t in order || t == x ==> t in order[..p] + [x] + order[p..]
  {
    assert order == order[..p] + order[p..];
  }

  lemma InLonger(nows: seq<int>, order: seq<nat>)
    requires nows != [] && InOrder(nows[..|nows| - 1], order)
    ensures InOrder(nows, order) && |nows| - 1 !in order
  {
    var before := nows[..|nows| - 1];
    assert forall i :: 0 <= i < |order| ==> before[order[i]] == nows[order[i]];
  }

  lemma {:induction false} SortedOrder(nows: seq<int>) returns (order: seq<nat>)
    ensures InOrder(nows, order)
    ensures forall t: nat :: t < |nows| <==> t in order
  {
    order := [];
    if nows != [] {
      var last := |nows| - 1;
      var before := nows[..last];
      var rest := SortedOrder(before);
      InLonger(nows, rest);
      var p := Place(nows, rest, nows[last]);
      Inserted(nows, rest, p, last);
      order := rest[..p] + [last] + rest[p..];
    }
  }

  ghost predicate Parked(s: State, key: string, rule: Rule, nows: seq<int>, threads: set<nat>) {
    && (forall u: Tid :: PcOf(s, u) == if u in threads && u < |nows| then WantRead(JobOf(key, rule, nows[u])) else Idle)
    && Taken(s.trace) == []
  }

  function FirstOf(order: seq<nat>, k: nat): set<nat>
    requires k <= |order|
  {
    set i | 0 <= i < k :: order[i]
  }

  lemma PrefixPush(nows: seq<int>, order: seq<nat>, k: nat)
    requires InOrder(nows, order) && k < |order|
    ensures order[k] !in FirstOf(order, k) && FirstOf(order, k + 1) == FirstOf(order, k) + {order[k]}
  {
  }

  lemma OneMoreParked(s: State, s': State, key: string, rule: Rule, nows: seq<int>, threads: set<nat>, t: nat)
    requires Parked(s, key, rule, nows, threads) && t < |nows| && t !in threads
    requires PcOf(s', t) == WantRead(JobOf(key, rule, nows[t])) && Taken(s'.trace) == Taken(s.trace)
    requires forall u: Tid :: u != t ==> PcOf(s', u) == PcOf(s, u)
    ensures Parked(s', key, rule, nows, threads + {t})
  {
  }

  lemma Initially()
    ensures Inv(INIT)
  {
    Reachable([]);
  }

  lemma ParkNext(moves: seq<Move>, was: State, nows: seq<int>, order: seq<nat>, k: nat, key: string, rule: Rule)
    returns (more: seq<Move>, s: State)
    requires Inv(was) && Leads(INIT, moves, was) && Working(rule) && InOrder(nows, order) && k < |order|
    requires Parked(was, key, rule, nows, FirstOf(order, k))
    ensures Inv(s) && Leads(INIT, moves + more, s) && Parked(s, key, rule, nows, FirstOf(order, k + 1))
    ensures forall i :: 0 <= i < |more| ==> more[i].now == nows[order[k]]
  {
    var t := order[k];
    var m := Move(t, AllowOp(key, rule), nows[t]);
    PrefixPush(nows, order, k);
    more := [m, m];
    s := ParkOne(was, t, key, rule, nows[t]);
    LeadsThen(INIT, moves, was, more, s);
    OneMoreParked(was, s, key, rule, nows, FirstOf(order, k), t);
  }

  lemma {:induction false} ParkAll(nows: seq<int>, order: seq<nat>, k: nat, key: string, rule: Rule, top: int)
    returns (moves: seq<Move>, s: State)
    requires Working(rule) && InOrder(nows, order) && k <= |order|
    requires forall i :: 0 <= i < k ==> nows[order[i]] <= top
    ensures Inv(s) && Leads(INIT, moves, s) && Parked(s, key, rule, nows, FirstOf(order, k))
    ensures ClockForward(moves) && forall i :: 0 <= i < |moves| ==> moves[i].now <= top
  {
    if k == 0 {
      moves, s := [], INIT;
      Initially();
      LeadsNowhere(INIT);
    } else {
      var before, was := ParkAll(nows, order, k - 1, key, rule, nows[order[k - 1]]);
      var more;
      more, s := ParkNext(before, was, nows, order, k - 1, key, rule);
      ForwardThen(before, more, nows[order[k - 1]]);
      moves := before + more;
    }
  }

  // ---- Any order of locking ----

  function JobsOf(key: string, rule: Rule, nows: seq<int>): (jobs: seq<KeyedOp>)
    ensures |jobs| == |nows|
  {
    seq(|nows|, i requires 0 <= i < |nows| => JobOf(key, rule, nows[i]))
  }

  lemma {:induction false} JobsAreAttempts(key: string, rule: Rule, nows: seq<int>)
    ensures Since(On(JobsOf(key, rule, nows), key)) == nows && FixedRule(On(JobsOf(key, rule, nows), key), rule)
  {
    if nows != [] {
      var before, jobs := nows[..|nows| - 1], JobsOf(key, rule, nows);
      JobsAreAttempts(key, rule, before);
      assert jobs[..|jobs| - 1] == JobsOf(key, rule, before);
      var ops := On(JobsOf(key, rule, before), key);
      assert On(jobs, key) == ops + [Attempt(rule, nows[|before|])];
      assert (ops + [Attempt(rule, nows[|before|])])[..|ops|] == ops;
    }
  }

  /** Of the parked threads the first k have completed their calls, one after the other. */
  ghost predicate ServedUpTo(s: State, key: string, rule: Rule, nows: seq<int>, k: nat)
    requires k <= |nows|
  {
    && (forall u: Tid :: PcOf(s, u) == if k <= u < |nows| then WantRead(JobOf(key, rule, nows[u])) else Idle)
    && Taken(s.trace) == JobsOf(key, rule, nows[..k])
  }

  lemma NextIsReady(s: State, key: string, rule: Rule, nows: seq<int>, k: nat)
    requires k < |nows| && ServedUpTo(s, key, rule, nows, k)
    ensures OthersRest(s, k) && Doing(s, k, JobOf(key, rule, nows[k]), JobsOf(key, rule, nows[..k]))
  {
  }

  lemma OneMoreServed(s: State, s': State, key: string, rule: Rule, nows: seq<int>, k: nat)
    requires k < |nows| && ServedUpTo(s, key, rule, nows, k)
    requires Completes(s, s', k, JobOf(key, rule, nows[k]), JobsOf(key, rule, nows[..k]))
    ensures ServedUpTo(s', key, rule, nows, k + 1)
  {
    assert JobsOf(key, rule, nows[..k + 1]) == JobsOf(key, rule, nows[..k]) + [JobOf(key, rule, nows[k])];
  }

  lemma {:induction false} ServeAll(s0: State, nows: seq<int>, k: nat, key: string, rule: Rule, top: int)
    returns (more: seq<Move>, s: State)
    requires k <= |nows| && Inv(s0) && ServedUpTo(s0, key, rule, nows, 0)
    ensures Inv(s) && Leads(s0, more, s) && ServedUpTo(s, key, rule, nows, k)
    ensures forall i :: 0 <= i < |more| ==> more[i].now == top
  {
    if k == 0 {
      more, s := [], s0;
      LeadsNowhere(s0);
    } else {
      var before, was := ServeAll(s0, nows, k - 1, key, rule, top);
      NextIsReady(was, key, rule, nows, k - 1);
      var rest;
      rest, s := Finish(was, k - 1, JobOf(key, rule, nows[k - 1]), JobsOf(key, rule, nows[..k - 1]), top);
      OneMoreServed(was, s, key, rule, nows, k - 1);
      more := before + rest;
      LeadsThen(s0, before, was, rest, s);
    }
  }

  lemma {:induction false} Largest(nows: seq<int>) returns (top: int)
    ensures forall i :: 0 <= i < |nows| ==> nows[i] <= top
  {
    top := 0;
    if nows != [] {
      var rest := Largest(nows[..|nows| - 1]);
      assert forall i :: 0 <= i < |nows| - 1 ==> nows[i] == nows[..|nows| - 1][i];
      top := if nows[|nows| - 1] > rest then nows[|nows| - 1] else rest;
    }
  }

  ghost predicate Realises(moves: seq<Move>, key: string, rule: Rule, nows: seq<int>) {
    ClockForward(moves) && OneRule(moves, key, rule) && Locked(moves, key) == nows
  }

  /** Any clock readings in any order are those of some schedule in which time only goes
      forward: one thread a call, each reading the clock when it shows its value, each taking
      the lock when its turn comes. */
  lemma AnyOrderHappens(key: string, rule: Rule, nows: seq<int>)
    requires Working(rule)
    ensures exists moves :: Realises(moves, key, rule, nows)
  {
    var top := Largest(nows);
    var order := SortedOrder(nows);
    var parked, s := ParkAll(nows, order, |order|, key, rule, top);
    AllParked(s, key, rule, nows, order);
    var more, s' := ServeAll(s, nows, |nows|, key, rule, top);
    LeadsThen(INIT, parked, s, more, s');
    ForwardThen(parked, more, top);
    ServedRealises(parked + more, s', key, rule, nows);
  }

  lemma ServedRealises(moves: seq<Move>, s: State, key: string, rule: Rule, nows: seq<int>)
    requires Leads(INIT, moves, s) && ClockForward(moves) && ServedUpTo(s, key, rule, nows, |nows|)
    ensures Realises(moves, key, rule, nows)
  {
    assert nows[..|nows|] == nows;
    JobsAreAttempts(key, rule, nows);
    LeadsIsExec(moves, s);
  }

  lemma AllParked(s: State, key: string, rule: Rule, nows: seq<int>, order: seq<nat>)
    requires Parked(s, key, rule, nows, FirstOf(order, |order|)) && forall t: nat :: t < |nows| <==> t in order
    ensures ServedUpTo(s, key, rule, nows, 0)
  {
    forall t: nat | t < |nows| ensures t in FirstOf(order, |order|) {
      assert t in order;
    }
  }

  // ---- The bound under threads is exact ----

  ghost predicate GuaranteesThreads(key: string, rule: Rule, d: int, length: int) {
    forall moves :: ClockForward(moves) && OneRule(moves, key, rule) && Skewed(Locked(moves, key), d) ==>
      BoundedIn(Stamps(LetThrough(Exec(moves).trace, key)), length, rule.limit)
  }

  lemma ThreadsLetThrough(moves: seq<Move>, key: string, rule: Rule)
    requires OneRule(moves, key, rule)
    ensures LetThrough(Exec(moves).trace, key) == Admitted(rule, Locked(moves, key))
  {
    Linearizable(moves);
    LetThroughIsAdmitted(Exec(moves).trace, key, rule);
  }

  /** Under threads and with a clock that never goes back, the intervals of stamps that hold at
      most `limit` of the calls let through on every schedule with skew d are exactly those up
      to Reach: the full window for a limit of one, otherwise the window less the skew. */
  lemma ThreadBoundIsExact(key: string, rule: Rule, d: int, length: int)
    requires Working(rule) && d >= 0
    ensures GuaranteesThreads(key, rule, d, length) <==> length <= Reach(rule, d)
  {
    SkewBoundIsExact(rule, d, length);
    if length <= Reach(rule, d) {
      forall moves | ClockForward(moves) && OneRule(moves, key, rule) && Skewed(Locked(moves, key), d)
        ensures BoundedIn(Stamps(LetThrough(Exec(moves).trace, key)), length, rule.limit)
      {
        ThreadsLetThrough(moves, key, rule);
      }
    } else {
      var nows :| Skewed(nows, d) && !BoundedIn(Stamps(Admitted(rule, nows)), length, rule.limit);
      AnyOrderHappens(key, rule, nows);
      var moves :| Realises(moves, key, rule, nows);
      ThreadsLetThrough(moves, key, rule);
    }
  }

  ghost predicate GuaranteesRealThreads(key: string, rule: Rule, d: int, length: int) {
    forall moves :: ClockForward(moves) && OneRule(moves, key, rule) && Disordered(Locked(moves, key), d) ==>
      BoundedIn(LetThrough(Exec(moves).trace, key), length, rule.limit)
  }

  /** The same in real time: under threads the exact length is RealReach, where d is by how many
      nanoseconds a call can be late at the lock. */
  lemma RealThreadBoundIsExact(key: string, rule: Rule, d: int, length: int)
    requires Working(rule) && d >= 0
    ensures GuaranteesRealThreads(key, rule, d, length) <==> length <= RealReach(rule, d)
  {
    RealBoundIsExact(rule, d, length);
    if length <= RealReach(rule, d) {
      forall moves | ClockForward(moves) && OneRule(moves, key, rule) && Disordered(Locked(moves, key), d)
        ensures BoundedIn(LetThrough(Exec(moves).trace, key), length, rule.limit)
      {
        ThreadsLetThrough(moves, key, rule);
      }
    } else {
      var nows :| Disordered(nows, d) && !BoundedIn(Admitted(rule, nows), length, rule.limit);
      AnyOrderHappens(key, rule, nows);
      var moves :| Realises(moves, key, rule, nows);
      ThreadsLetThrough(moves, key, rule);
    }
  }
}
