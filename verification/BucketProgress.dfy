/** The locks of the in-memory store never block for good, no call runs for ever, and the
    window bound holds whatever the schedule. */
module BucketProgress {
  import opened Wrappers
  import opened SlidingWindow
  import opened WindowTheorems
  import opened Buckets
  import opened BucketSteps
  import opened Linearizability

  // ---- No deadlock ----

  /** No thread ever holds the map lock and a timeline lock together. */
  lemma NoTwoLocks(moves: seq<Move>, t: Tid, tl: nat)
    requires tl < |Exec(moves).heap| && Exec(moves).heap[tl].holder == Some(t)
    ensures t !in Exec(moves).readers && Exec(moves).writer != Some(t)
  {
    Reachable(moves);
    assert LockAt(Exec(moves), t);
  }

  /** A thread inside any lock can always take its next step. */
  lemma HolderMoves(s: State, t: Tid)
    requires Inv(s)
    requires t in s.readers || (s.writer == Some(t) && s.readers == {}) || Holding(PcOf(s, t)).Some?
    ensures PcOf(s, t) != Idle && Enabled(s, t)
  {
    assert LockAt(s, t);
  }

  ghost predicate CanStep(s: State, t: Tid)
    requires WellFormed(s)
  {
    PcOf(s, t) != Idle && Enabled(s, t)
  }

  /** In every reachable state in which some call is unfinished, some unfinished call can step. */
  lemma NoDeadlock(moves: seq<Move>, t: Tid)
    requires PcOf(Exec(moves), t) != Idle
    ensures exists mover: Tid :: CanStep(Exec(moves), mover)
  {
    Reachable(moves);
    var s, mover := Exec(moves), t;
    assert LockAt(s, t);
    if s.readers != {} {
      mover :| mover in s.readers;
      HolderMoves(s, mover);
    } else if s.writer.Some? {
      mover := s.writer.value;
      HolderMoves(s, mover);
    } else if PcOf(s, t).WantTimeline? {
      var tl := PcOf(s, t).tl;
      assert TimelineOf(PcOf(s, t)) == Some(tl);
      if s.heap[tl].holder.Some? {
        mover := s.heap[tl].holder.value;
        assert LockAt(s, mover);
        HolderMoves(s, mover);
      }
    }
    assert CanStep(s, mover);
  }

  // ---- Every call is bounded ----

  /** Steps that remain, leaving the turns of the trim loop out. */
  function Rank(pc: Pc): nat {
    match pc
    case Idle => 0
    case Entered(_) => 14
    case WantRead(_) => 13
    case Reading(_) => 12
    case GotRead(_, _) => 11
    case WantWrite(_) => 10
    case Draining(_) => 9
    case Writing(_) => 8
    case Written(_, _) => 7
    case WantTimeline(_, _) => 6
    case Trimming(_, _, _) => 5
    case Emptying(_, _) => 4
    case Deciding(_, _) => 3
    case Leaving(_, _) => 2
    case Returning(_) => 1
  }

  /** Turns of the trim loop that remain. */
  function Turns(s: State, pc: Pc): nat {
    if pc.Trimming? && pc.tl < |s.heap| && pc.i <= |s.heap[pc.tl].times| then |s.heap[pc.tl].times| - pc.i else 0
  }

  lemma MapStepCost(s: State, m: Move)
    requires Inv(s) && Enabled(s, m.tid) && PcOf(s, m.tid) != Idle && !AtTimeline(PcOf(s, m.tid))
    ensures Rank(PcOf(Next(s, m), m.tid)) < Rank(PcOf(s, m.tid)) && !PcOf(Next(s, m), m.tid).Trimming?
  {
  }

  lemma TimelineStepCost(s: State, m: Move)
    requires Inv(s) && Enabled(s, m.tid) && AtTimeline(PcOf(s, m.tid)) && TimelineOf(PcOf(s, m.tid)).value < |s.heap|
    ensures var pc, pc' := PcOf(s, m.tid), PcOf(Next(s, m), m.tid);
      || (Rank(pc') < Rank(pc) && !pc'.Trimming?)
      || (Rank(pc') < Rank(pc) && pc.WantTimeline? && Turns(Next(s, m), pc') <= |s.heap[pc.tl].times|)
      || (Rank(pc') == Rank(pc) && Turns(Next(s, m), pc') < Turns(s, pc))
  {
    assert JobAt(s, PcOf(s, m.tid));
  }

  /** A thread's own step brings its call strictly closer to its return: either the rank falls
      or the trim loop has one turn fewer left. */
  lemma OwnStepDecreases(s: State, m: Move)
    requires Inv(s) && Enabled(s, m.tid) && PcOf(s, m.tid) != Idle
    ensures var pc, pc' := PcOf(s, m.tid), PcOf(Next(s, m), m.tid);
      Rank(pc') < Rank(pc) || (Rank(pc') == Rank(pc) && Turns(Next(s, m), pc') < Turns(s, pc))
  {
    if AtTimeline(PcOf(s, m.tid)) {
      TimelineStepCost(s, m);
    } else {
      MapStepCost(s, m);
    }
  }

  /** And no other thread's step takes it back. */
  lemma OtherStepKeeps(s: State, m: Move, t: Tid)
    requires Inv(s) && t != m.tid
    ensures PcOf(Next(s, m), t) == PcOf(s, t) && Turns(Next(s, m), PcOf(s, t)) == Turns(s, PcOf(s, t))
  {
    if Enabled(s, m.tid) {
      assert LockAt(s, t) && LockAt(s, m.tid) && JobAt(s, PcOf(s, t));
      Frame(s, m);
      if PcOf(s, t).Trimming? {
        assert s.heap[PcOf(s, t).tl].holder == Some(t);
      }
    }
  }

  /** The length of the list a thread is about to lock. */
  function Found(s: State, t: Tid): nat {
    var pc := PcOf(s, t);
    if pc.WantTimeline? && pc.tl < |s.heap| then |s.heap[pc.tl].times| else 0
  }

  function StepsToGo(s: State, t: Tid): nat {
    Rank(PcOf(s, t)) + Turns(s, PcOf(s, t))
  }

  lemma OwnStepCost(s: State, m: Move)
    requires Inv(s) && Enabled(s, m.tid) && PcOf(s, m.tid) != Idle
    ensures StepsToGo(Next(s, m), m.tid) < StepsToGo(s, m.tid) + Found(s, m.tid)
    ensures !PcOf(s, m.tid).WantTimeline? ==> StepsToGo(Next(s, m), m.tid) < StepsToGo(s, m.tid)
  {
    if AtTimeline(PcOf(s, m.tid)) {
      TimelineStepCost(s, m);
    } else {
      MapStepCost(s, m);
    }
  }

  lemma InvokeCost(s: State, m: Move)
    requires Inv(s) && PcOf(s, m.tid) == Idle
    ensures StepsToGo(Next(s, m), m.tid) <= 14
  {
  }

  /** The steps a thread has taken in its present call, or in its last one if it is idle. */
  ghost function OwnSteps(moves: seq<Move>, t: Tid): nat {
    if moves == [] then 0
    else
      var before, m := moves[..|moves| - 1], moves[|moves| - 1];
      if m.tid != t || !Enabled(Exec(before), t) then OwnSteps(before, t)
      else if PcOf(Exec(before), t).Idle? then 0
      else OwnSteps(before, t) + 1
  }

  /** The length of the list that call found when it took a timeline's lock. */
  ghost function ListFound(moves: seq<Move>, t: Tid): nat {
    if moves == [] then 0
    else
      var before, m := moves[..|moves| - 1], moves[|moves| - 1];
      if m.tid != t || !Enabled(Exec(before), t) then ListFound(before, t)
      else if PcOf(Exec(before), t).Idle? then 0
      else if PcOf(Exec(before), t).WantTimeline? then Found(Exec(before), t)
      else ListFound(before, t)
  }

  lemma {:induction false} FoundOnce(moves: seq<Move>, t: Tid)
    ensures Rank(PcOf(Exec(moves), t)) >= 6 ==> ListFound(moves, t) == 0
  {
    if moves != [] {
      var before, m := moves[..|moves| - 1], moves[|moves| - 1];
      FoundOnce(before, t);
      Reachable(before);
      if m.tid != t {
        OtherStepKeeps(Exec(before), m, t);
      } else if Enabled(Exec(before), t) && PcOf(Exec(before), t) != Idle {
        OwnStepDecreases(Exec(before), m);
      }
    }
  }

  /** Every call is bounded on every schedule: it returns within 14 steps of its own and one
      more for each entry of the list it found. */
  lemma {:induction false} CallsAreBounded(moves: seq<Move>, t: Tid)
    ensures OwnSteps(moves, t) + StepsToGo(Exec(moves), t) <= 14 + ListFound(moves, t)
  {
    if moves != [] {
      var before, m := moves[..|moves| - 1], moves[|moves| - 1];
      CallsAreBounded(before, t);
      Reachable(before);
      if m.tid != t {
        OtherStepKeeps(Exec(before), m, t);
      } else if Enabled(Exec(before), t) {
        if PcOf(Exec(before), t) == Idle {
          InvokeCost(Exec(before), m);
        } else {
          OwnStepCost(Exec(before), m);
          FoundOnce(before, t);
        }
      }
    }
  }

  // ---- The window bound over all interleavings ----

  /** Readings of the calls on a key that were let through since its last reset, in the order
      in which they took its lock. */
  function LetThrough(trace: seq<Label>, key: string): seq<int> {
    if trace == [] then []
    else
      var before, last := LetThrough(trace[..|trace| - 1], key), trace[|trace| - 1];
      if !last.Take? || last.job.key != key then before
      else
        match last.job.op
        case Attempt(_, now) => if last.ok then before + [now] else before
        case Clear => []
  }

  lemma OnPush(trace: seq<Label>, key: string)
    requires trace != []
    ensures var before, last := Taken(trace[..|trace| - 1]), trace[|trace| - 1];
      On(Taken(trace), key) == if last.Take? && last.job.key == key then On(before, key) + [last.job.op] else On(before, key)
  {
    var before := Taken(trace[..|trace| - 1]);
    if trace[|trace| - 1].Take? {
      assert Taken(trace)[..|before|] == before;
    }
  }

  lemma AttemptOnReplay(ops: seq<BucketOp>, rule: Rule, now: int)
    requires FixedRule(ops, rule)
    ensures Admitted(rule, Since(ops) + [now])
         == if Admit(Replay(ops), rule, now).ok then Admitted(rule, Since(ops)) + [now] else Admitted(rule, Since(ops))
  {
    ReplaySince(ops, rule);
    AttemptUnfold(rule, Since(ops), now);
  }

  lemma SincePush(ops: seq<BucketOp>, op: BucketOp, rule: Rule)
    requires FixedRule(ops + [op], rule)
    ensures FixedRule(ops, rule) && (op.Attempt? ==> op.rule == rule)
    ensures Since(ops + [op]) == if op.Clear? then [] else Since(ops) + [op.now]
  {
    assert (ops + [op])[..|ops|] == ops && (ops + [op])[|ops|] == op;
    assert forall i :: 0 <= i < |ops| ==> ops[i] == (ops + [op])[i];
  }

  /** One more call on the key: the sequential bucket decides it as the trace says. */
  lemma TakenOnKey(ops: seq<BucketOp>, op: BucketOp, ok: bool, rule: Rule)
    requires FixedRule(ops + [op], rule) && ok == Effect(Replay(ops), op).ok
    ensures FixedRule(ops, rule)
    ensures Admitted(rule, Since(ops + [op]))
         == if op.Clear? then [] else if ok then Admitted(rule, Since(ops)) + [op.now] else Admitted(rule, Since(ops))
  {
    SincePush(ops, op, rule);
    if op.Attempt? {
      AttemptOnReplay(ops, rule, op.now);
    }
  }

  lemma {:induction false} LetThroughIsAdmitted(trace: seq<Label>, key: string, rule: Rule)
    requires Legal(trace) && FixedRule(On(Taken(trace), key), rule)
    ensures LetThrough(trace, key) == Admitted(rule, Since(On(Taken(trace), key)))
  {
    if trace != [] {
      var before, last := trace[..|trace| - 1], trace[|trace| - 1];
      OnPush(trace, key);
      if last.Take? && last.job.key == key {
        Isolation(Taken(before), key);
        TakenOnKey(On(Taken(before), key), last.job.op, last.ok, rule);
      }
      LetThroughIsAdmitted(before, key, rule);
    }
  }

  /** The window guarantee under concurrency. Whatever the schedule: if the calls on a key use
      one rule and, since its last reset, none is stamped more than d ms after a call that
      locks the bucket later, then every interval of stamps no longer than window - d holds at
      most `limit` of the calls let through. */
  lemma ConcurrentWindowBound(moves: seq<Move>, key: string, rule: Rule, d: int)
    requires Working(rule) && d >= 0
    requires FixedRule(On(Taken(Exec(moves).trace), key), rule)
    requires Skewed(Since(On(Taken(Exec(moves).trace), key)), d)
    ensures BoundedIn(Stamps(LetThrough(Exec(moves).trace, key)), WindowMillis(rule) - d, rule.limit)
  {
    Linearizable(moves);
    LetThroughIsAdmitted(Exec(moves).trace, key, rule);
    SkewBound(rule, Since(On(Taken(Exec(moves).trace), key)), d);
  }

  /** What the same schedule leaves in the bucket: never more than `limit` entries, and of
      those a further call reading n keeps only ones newer than its cut less d. */
  lemma ConcurrentHeld(moves: seq<Move>, key: string, rule: Rule, d: int, n: int)
    requires Working(rule) && d >= 0
    requires FixedRule(On(Taken(Exec(moves).trace), key), rule)
    requires Skewed(Since(On(Taken(Exec(moves).trace), key)), d)
    ensures |Abs(Exec(moves), key)| <= rule.limit
    ensures forall x :: x in Live(Abs(Exec(moves), key), Cut(n, rule.window)) ==> x > Cut(n, rule.window) - d
  {
    Linearizable(moves);
    var history := Taken(Exec(moves).trace);
    Isolation(history, key);
    ReplaySince(On(history, key), rule);
    HeldSuffix(rule, Since(On(history, key)));
    SkewHeld(rule, Since(On(history, key)), n, d);
  }
}
