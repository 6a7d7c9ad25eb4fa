/** Every interleaving of the step system behaves as the atomic map of buckets does. */
module Linearizability {
  import opened Wrappers
  import opened SlidingWindow
  import opened Buckets
  import opened BucketSteps

  // ---- The invariant ----

  predicate InRead(pc: Pc) {
    pc.Reading? || pc.GotRead?
  }

  predicate InWrite(pc: Pc) {
    pc.Draining? || pc.Writing? || pc.Written?
  }

  /** A thread holds exactly the locks its program counter says it holds. */
  ghost predicate LockAt(s: State, t: Tid) {
    var pc := PcOf(s, t);
    && (InRead(pc) <==> t in s.readers)
    && (InWrite(pc) <==> s.writer == Some(t))
    && (pc.Writing? || pc.Written? ==> s.readers == {})
    && (forall tl: nat :: tl < |s.heap| ==> (s.heap[tl].holder == Some(t) <==> Holding(pc) == Some(tl)))
  }

  ghost predicate Locks(s: State) {
    forall t: Tid :: LockAt(s, t)
  }

  predicate Proper(job: KeyedOp) {
    job.op.Attempt? ==> Working(job.op.rule)
  }

  /** A job that works on a timeline works on the one its key names. */
  predicate Names(s: State, job: KeyedOp, tl: nat) {
    Proper(job) && job.key in s.data && s.data[job.key] == tl
  }

  predicate JobAt(s: State, pc: Pc) {
    match pc
    case WantRead(job) => Proper(job)
    case Reading(job) => Proper(job)
    case GotRead(job, found) => Proper(job) && (found.Some? ==> Names(s, job, found.value))
    case WantWrite(job) => Proper(job) && job.op.Attempt?
    case Draining(job) => Proper(job) && job.op.Attempt?
    case Writing(job) => Proper(job) && job.op.Attempt?
    case Written(job, tl) => Names(s, job, tl) && job.op.Attempt?
    case WantTimeline(job, tl) => Names(s, job, tl)
    case Trimming(job, tl, i) =>
      && Names(s, job, tl) && job.op.Attempt?
      && tl < |s.heap| && i <= |s.heap[tl].times|
      && (forall j :: 0 <= j < i ==> s.heap[tl].times[j] <= Cut(job.op.now, job.op.rule.window))
    case Deciding(job, tl) => Names(s, job, tl) && job.op.Attempt?
    case Emptying(job, tl) => Names(s, job, tl) && job.op.Clear?
    case _ => true
  }

  /** No two keys share a timeline object. */
  ghost predicate Distinct(s: State) {
    forall j, k :: j in s.data && k in s.data && s.data[j] == s.data[k] ==> j == k
  }

  /** What the holder of a timeline will leave there, and with which result. */
  function Settle(times: seq<int>, pc: Pc): Outcome {
    match pc
    case Trimming(job, _, _) => Effect(times, job.op)
    case Deciding(job, _) =>
      if job.op.Clear? || |times| >= job.op.rule.limit then Outcome(false, times)
      else Outcome(true, times + [Stamp(job.op.now)])
    case Emptying(_, _) => Outcome(true, [])
    case Leaving(_, ok) => Outcome(ok, times)
    case _ => Outcome(false, times)
  }

  function Contents(s: State, cell: Cell): seq<int> {
    if cell.holder.None? then cell.times else Settle(cell.times, PcOf(s, cell.holder.value)).times
  }

  /** The abstract store: a timeline under a lock already counts as what it will become. */
  function Abs(s: State, key: string): seq<int>
    requires key in s.data ==> s.data[key] < |s.heap|
  {
    if key in s.data then Contents(s, s.heap[s.data[key]]) else []
  }

  function Pending(s: State, pc: Pc): Phase
    requires TimelineOf(pc).Some? ==> TimelineOf(pc).value < |s.heap|
  {
    match pc
    case Idle => Quiet
    case Entered(op) => Called(op)
    case WantRead(job) => Called(OpOf(job))
    case Reading(job) => Called(OpOf(job))
    case GotRead(job, found) => if found.None? && job.op.Clear? then Took(true) else Called(OpOf(job))
    case WantWrite(job) => Called(OpOf(job))
    case Draining(job) => Called(OpOf(job))
    case Writing(job) => Called(OpOf(job))
    case Written(job, _) => Called(OpOf(job))
    case WantTimeline(job, _) => Called(OpOf(job))
    case Trimming(_, tl, _) => Took(Settle(s.heap[tl].times, pc).ok)
    case Deciding(_, tl) => Took(Settle(s.heap[tl].times, pc).ok)
    case Emptying(_, tl) => Took(true)
    case Leaving(_, ok) => Took(ok)
    case Returning(ok) => Took(ok)
  }

  ghost predicate Phases(s: State)
    requires WellFormed(s)
  {
    forall t: Tid :: PhaseIn(s.trace, t) == Pending(s, PcOf(s, t))
  }

  ghost predicate Simulates(s: State)
    requires WellFormed(s)
  {
    forall key :: Abs(s, key) == Bucket(After(Taken(s.trace)), key)
  }

  ghost predicate Jobs(s: State) {
    forall t: Tid :: JobAt(s, PcOf(s, t))
  }

  ghost predicate Inv(s: State) {
    WellFormed(s) && Locks(s) && Distinct(s) && Jobs(s) && Phases(s) && Simulates(s) && Legal(s.trace)
  }

  // ---- Each step keeps it ----

  /** The steps that take, pass on or give back the read lock of the map, or touch no lock. */
  lemma OwnReadLockKept(s: State, m: Move)
    requires WellFormed(s) && LockAt(s, m.tid) && Enabled(s, m.tid)
    requires !AtTimeline(PcOf(s, m.tid)) && !PcOf(s, m.tid).WantWrite? && !InWrite(PcOf(s, m.tid))
    ensures LockAt(Act(s, m), m.tid)
  {
    var pc := PcOf(s, m.tid);
    assert TimelineOf(pc).Some? ==> TimelineOf(pc).value < |s.heap|;
  }

  lemma OwnWriteLockKept(s: State, m: Move)
    requires WellFormed(s) && LockAt(s, m.tid) && Enabled(s, m.tid)
    requires PcOf(s, m.tid).WantWrite? || InWrite(PcOf(s, m.tid))
    ensures LockAt(Act(s, m), m.tid)
  {
    var pc := PcOf(s, m.tid);
    assert TimelineOf(pc).Some? ==> TimelineOf(pc).value < |s.heap|;
  }

  /** The steps that take, keep or give back a timeline's lock. */
  lemma OwnTimelineLocksKept(s: State, m: Move)
    requires WellFormed(s) && LockAt(s, m.tid) && Enabled(s, m.tid)
    requires AtTimeline(PcOf(s, m.tid))
    ensures LockAt(Act(s, m), m.tid)
  {
    var pc := PcOf(s, m.tid);
    assert TimelineOf(pc).Some? && TimelineOf(pc).value < |s.heap|;
  }

  lemma OtherMapLocksKept(s: State, m: Move, t: Tid)
    requires WellFormed(s) && LockAt(s, m.tid) && LockAt(s, t) && Enabled(s, m.tid) && t != m.tid
    requires !AtTimeline(PcOf(s, m.tid))
    ensures LockAt(Act(s, m), t)
  {
    assert TimelineOf(PcOf(s, m.tid)).Some? ==> TimelineOf(PcOf(s, m.tid)).value < |s.heap|;
    OthersStay(s, m);
  }

  lemma OtherTimelineLocksKept(s: State, m: Move, t: Tid)
    requires WellFormed(s) && LockAt(s, m.tid) && LockAt(s, t) && Enabled(s, m.tid) && t != m.tid
    requires AtTimeline(PcOf(s, m.tid))
    ensures LockAt(Act(s, m), t)
  {
    assert TimelineOf(PcOf(s, m.tid)).value < |s.heap|;
    OthersStay(s, m);
  }

  lemma OtherLocksKept(s: State, m: Move, t: Tid)
    requires WellFormed(s) && LockAt(s, m.tid) && LockAt(s, t) && Enabled(s, m.tid) && t != m.tid
    ensures LockAt(Act(s, m), t)
  {
    if AtTimeline(PcOf(s, m.tid)) {
      OtherTimelineLocksKept(s, m, t);
    } else {
      OtherMapLocksKept(s, m, t);
    }
  }

  lemma OwnMapJobKept(s: State, m: Move)
    requires WellFormed(s) && JobAt(s, PcOf(s, m.tid)) && Enabled(s, m.tid) && !AtTimeline(PcOf(s, m.tid))
    ensures JobAt(Act(s, m), PcOf(Act(s, m), m.tid))
  {
    assert TimelineOf(PcOf(s, m.tid)).Some? ==> TimelineOf(PcOf(s, m.tid)).value < |s.heap|;
  }

  lemma OwnTimelineJobKept(s: State, m: Move)
    requires WellFormed(s) && JobAt(s, PcOf(s, m.tid)) && Enabled(s, m.tid) && AtTimeline(PcOf(s, m.tid))
    ensures JobAt(Act(s, m), PcOf(Act(s, m), m.tid))
  {
    assert TimelineOf(PcOf(s, m.tid)).value < |s.heap|;
  }

  /** A step changes only the list of a timeline its thread holds, and the map only grows. */
  lemma Frame(s: State, m: Move)
    requires WellFormed(s) && LockAt(s, m.tid) && Enabled(s, m.tid)
    ensures |s.heap| <= |Act(s, m).heap|
    ensures forall key :: key in s.data ==> key in Act(s, m).data && Act(s, m).data[key] == s.data[key]
    ensures forall tl: nat :: tl < |s.heap| && Holding(PcOf(s, m.tid)) != Some(tl) ==>
      Act(s, m).heap[tl].times == s.heap[tl].times
    ensures forall t: Tid :: t != m.tid ==> PcOf(Act(s, m), t) == PcOf(s, t)
  {
    assert TimelineOf(PcOf(s, m.tid)).Some? ==> TimelineOf(PcOf(s, m.tid)).value < |s.heap|;
    OthersStay(s, m);
    if AtTimeline(PcOf(s, m.tid)) {
      TimelineForm(s, m);
      TimelineFrame(s, m);
    } else {
      CellsKept(s, m);
    }
  }

  lemma TimelineFrame(s: State, m: Move)
    requires WellFormed(s) && AtTimeline(PcOf(s, m.tid)) && TimelineOf(PcOf(s, m.tid)).value < |s.heap|
    ensures |Act(s, m).heap| == |s.heap|
    ensures forall tl: nat :: tl < |s.heap| && Holding(PcOf(s, m.tid)) != Some(tl) ==>
      Act(s, m).heap[tl].times == s.heap[tl].times
  {
  }

  lemma OtherJobKept(s: State, m: Move, t: Tid)
    requires WellFormed(s) && LockAt(s, m.tid) && LockAt(s, t) && Enabled(s, m.tid) && t != m.tid
    requires JobAt(s, PcOf(s, t))
    ensures JobAt(Act(s, m), PcOf(Act(s, m), t))
  {
    Frame(s, m);
    assert Holding(PcOf(s, t)).Some? ==> s.heap[Holding(PcOf(s, t)).value].holder == Some(t);
  }

  lemma DistinctKept(s: State, m: Move)
    requires WellFormed(s) && Distinct(s) && Enabled(s, m.tid)
    ensures Distinct(Act(s, m))
  {
    assert TimelineOf(PcOf(s, m.tid)).Some? ==> TimelineOf(PcOf(s, m.tid)).value < |s.heap|;
  }

  /** A step inside the critical section does not change what the section will leave. */
  lemma SettleKept(s: State, times: seq<int>, pc: Pc)
    requires JobAt(s, pc) && Holding(pc).Some? && !pc.Leaving? && Holding(pc).value < |s.heap|
    requires times == s.heap[Holding(pc).value].times
    ensures Settle(Critical(times, pc).0, Critical(times, pc).1) == Settle(times, pc)
  {
  }

  // ---- The trace ----

  predicate Takes(s: State, m: Move)
    requires var o := TimelineOf(PcOf(s, m.tid)); o.Some? ==> o.value < |s.heap|
  {
    var trace := Act(s, m).trace;
    trace != s.trace && trace != [] && trace[|trace| - 1].Take?
  }

  /** A step adds at most one event, its own thread's; a call that takes effect is the one the
      thread has made. */
  lemma OneEvent(s: State, m: Move)
    requires WellFormed(s) && LockAt(s, m.tid) && Enabled(s, m.tid)
    ensures var trace := Act(s, m).trace;
      trace == s.trace || (trace != [] && trace[..|trace| - 1] == s.trace && trace[|trace| - 1].tid == m.tid)
  {
    assert TimelineOf(PcOf(s, m.tid)).Some? ==> TimelineOf(PcOf(s, m.tid)).value < |s.heap|;
  }

  predicate InSection(pc: Pc) {
    Holding(pc).Some? && !pc.Leaving?
  }

  lemma SectionPhaseKept(s: State, m: Move)
    requires WellFormed(s) && WellFormed(Act(s, m)) && InSection(PcOf(s, m.tid)) && JobAt(s, PcOf(s, m.tid))
    requires PhaseIn(s.trace, m.tid) == Pending(s, PcOf(s, m.tid))
    ensures PhaseIn(Act(s, m).trace, m.tid) == Pending(Act(s, m), PcOf(Act(s, m), m.tid))
  {
    var pc := PcOf(s, m.tid);
    assert TimelineOf(pc).value < |s.heap|;
    SettleKept(s, s.heap[Holding(pc).value].times, pc);
  }

  lemma LockingPhaseKept(s: State, m: Move)
    requires WellFormed(s) && WellFormed(Act(s, m)) && Enabled(s, m.tid) && PcOf(s, m.tid).WantTimeline?
    requires PhaseIn(s.trace, m.tid) == Pending(s, PcOf(s, m.tid))
    ensures PhaseIn(Act(s, m).trace, m.tid) == Pending(Act(s, m), PcOf(Act(s, m), m.tid))
  {
    assert TimelineOf(PcOf(s, m.tid)).value < |s.heap|;
    assert Act(s, m).trace[..|s.trace|] == s.trace;
  }

  lemma CallPhaseKept(s: State, m: Move)
    requires WellFormed(s)
    requires PcOf(s, m.tid).Idle? || PcOf(s, m.tid).Entered? || PcOf(s, m.tid).Returning?
    requires PhaseIn(s.trace, m.tid) == Pending(s, PcOf(s, m.tid))
    ensures PhaseIn(Act(s, m).trace, m.tid) == Pending(Act(s, m), PcOf(Act(s, m), m.tid))
  {
    if Act(s, m).trace != s.trace {
      assert Act(s, m).trace[..|s.trace|] == s.trace;
    }
  }

  predicate OnMap(pc: Pc) {
    pc.WantRead? || pc.Reading? || pc.GotRead? || pc.WantWrite? || pc.Draining? || pc.Writing? || pc.Written? || pc.Leaving?
  }

  lemma MapPhaseKept(s: State, m: Move)
    requires WellFormed(s) && WellFormed(Act(s, m)) && OnMap(PcOf(s, m.tid))
    requires PhaseIn(s.trace, m.tid) == Pending(s, PcOf(s, m.tid))
    ensures PhaseIn(Act(s, m).trace, m.tid) == Pending(Act(s, m), PcOf(Act(s, m), m.tid))
  {
    var pc, trace := PcOf(s, m.tid), Act(s, m).trace;
    assert TimelineOf(pc).Some? ==> TimelineOf(pc).value < |s.heap|;
    if trace != s.trace {
      assert trace[..|s.trace|] == s.trace;
    }
  }

  lemma OtherPhaseKept(s: State, m: Move, t: Tid)
    requires WellFormed(s) && WellFormed(Act(s, m)) && Enabled(s, m.tid) && t != m.tid
    requires LockAt(s, m.tid) && LockAt(s, t)
    requires PhaseIn(s.trace, t) == Pending(s, PcOf(s, t))
    ensures PhaseIn(Act(s, m).trace, t) == Pending(Act(s, m), PcOf(Act(s, m), t))
  {
    OneEvent(s, m);
    Frame(s, m);
    assert TimelineOf(PcOf(s, t)).Some? ==> TimelineOf(PcOf(s, t)).value < |s.heap|;
    assert Holding(PcOf(s, t)).Some? ==> s.heap[Holding(PcOf(s, t)).value].holder == Some(t);
  }

  // ---- The abstract store ----

  /** What a step does to the abstract content of a bucket. */
  function AbsNext(s: State, m: Move, key: string): seq<int>
    requires key in s.data ==> s.data[key] < |s.heap|
    requires var o := TimelineOf(PcOf(s, m.tid)); o.Some? ==> o.value < |s.heap|
  {
    var trace := Act(s, m).trace;
    if Takes(s, m) && trace[|trace| - 1].job.key == key then
      Effect(Abs(s, key), trace[|trace| - 1].job.op).times
    else Abs(s, key)
  }

  lemma SectionAbs(s: State, m: Move, key: string)
    requires WellFormed(s) && WellFormed(Act(s, m)) && Distinct(s) && InSection(PcOf(s, m.tid))
    requires LockAt(s, m.tid) && JobAt(s, PcOf(s, m.tid))
    ensures Abs(Act(s, m), key) == AbsNext(s, m, key) == Abs(s, key)
  {
    var pc := PcOf(s, m.tid);
    var tl := Holding(pc).value;
    assert TimelineOf(pc).value < |s.heap|;
    SettleKept(s, s.heap[tl].times, pc);
    if key in s.data && s.data[key] != tl {
      var holder := s.heap[s.data[key]].holder;
      assert holder != Some(m.tid);
    }
  }

  /** Taking the lock is the moment at which the call takes effect, and on its bucket only. */
  lemma LockingAbs(s: State, m: Move, key: string)
    requires WellFormed(s) && WellFormed(Act(s, m)) && Distinct(s) && PcOf(s, m.tid).WantTimeline?
    requires LockAt(s, m.tid) && JobAt(s, PcOf(s, m.tid)) && Enabled(s, m.tid)
    ensures Abs(Act(s, m), key) == AbsNext(s, m, key)
  {
    var tl := PcOf(s, m.tid).tl;
    assert TimelineOf(PcOf(s, m.tid)) == Some(tl);
    if key == PcOf(s, m.tid).job.key {
      LockingOwnAbs(s, m);
    } else if key in s.data {
      assert s.data[key] != tl;
      assert s.heap[s.data[key]].holder != Some(m.tid);
    }
  }

  lemma LockingOwnAbs(s: State, m: Move)
    requires WellFormed(s) && WellFormed(Act(s, m)) && PcOf(s, m.tid).WantTimeline?
    requires JobAt(s, PcOf(s, m.tid)) && Enabled(s, m.tid)
    ensures var key := PcOf(s, m.tid).job.key; Abs(Act(s, m), key) == AbsNext(s, m, key)
  {
    assert TimelineOf(PcOf(s, m.tid)) == Some(PcOf(s, m.tid).tl);
  }

  lemma LeavingAbs(s: State, m: Move, key: string)
    requires WellFormed(s) && WellFormed(Act(s, m)) && Distinct(s) && PcOf(s, m.tid).Leaving?
    requires LockAt(s, m.tid) && Enabled(s, m.tid)
    ensures Abs(Act(s, m), key) == AbsNext(s, m, key)
  {
    var tl := PcOf(s, m.tid).tl;
    assert TimelineOf(PcOf(s, m.tid)) == Some(tl);
    if key in s.data && s.data[key] != tl {
      assert s.heap[s.data[key]].holder != Some(m.tid);
    }
  }

  /** Steps that hold no timeline and take none: a bucket changes only by being created. */
  lemma MapAbs(s: State, m: Move, key: string)
    requires WellFormed(s) && WellFormed(Act(s, m)) && !AtTimeline(PcOf(s, m.tid))
    requires LockAt(s, m.tid) && Enabled(s, m.tid)
    ensures Abs(Act(s, m), key) == Abs(s, key)
  {
    Frame(s, m);
    CellsKept(s, m);
    if key in s.data {
      assert s.heap[s.data[key]].holder != Some(m.tid);
    }
  }

  lemma CellsKept(s: State, m: Move)
    requires WellFormed(s) && !AtTimeline(PcOf(s, m.tid))
    ensures Act(s, m).data != s.data ==>
      && PcOf(s, m.tid).Writing? && PcOf(s, m.tid).job.key !in s.data
      && Act(s, m).data == s.data[PcOf(s, m.tid).job.key := |s.heap|]
      && Act(s, m).heap == s.heap + [Cell([], None)]
    ensures Act(s, m).data == s.data ==> Act(s, m).heap == s.heap
  {
  }

  /** A call that takes effect without a timeline changes nothing: an early return, or a reset
      that found no timeline. */
  lemma MapTakes(s: State, m: Move)
    requires WellFormed(s) && !AtTimeline(PcOf(s, m.tid))
    requires Enabled(s, m.tid) && Takes(s, m)
    ensures var job := Act(s, m).trace[|Act(s, m).trace| - 1].job;
      Effect(Abs(s, job.key), job.op).times == Abs(s, job.key)
  {
  }

  // ---- The invariant holds in every reachable state ----

  lemma AbsKept(s: State, m: Move, key: string)
    requires Inv(s) && WellFormed(Act(s, m)) && Enabled(s, m.tid)
    ensures Abs(Act(s, m), key) == AbsNext(s, m, key)
  {
    var pc := PcOf(s, m.tid);
    assert LockAt(s, m.tid) && JobAt(s, pc);
    if InSection(pc) {
      SectionAbs(s, m, key);
    } else if pc.Leaving? {
      LeavingAbs(s, m, key);
    } else if pc.WantTimeline? {
      LockingAbs(s, m, key);
    } else {
      MapAbs(s, m, key);
      if Takes(s, m) {
        MapTakes(s, m);
      }
    }
  }

  /** The atomic store takes the call of the last event, if it is one that took effect. */
  lemma TraceStep(before: seq<Label>, trace: seq<Label>, key: string)
    requires trace != [] && trace[..|trace| - 1] == before
    ensures var last, now := trace[|trace| - 1], Bucket(After(Taken(before)), key);
      Bucket(After(Taken(trace)), key)
      == if last.Take? && last.job.key == key then Effect(now, last.job.op).times else now
  {
    if trace[|trace| - 1].Take? {
      TakenPush(trace);
      StepEffect(After(Taken(before)), trace[|trace| - 1].job, key);
    }
  }

  lemma TakenStep(s: State, m: Move, key: string, trace: seq<Label>, next: seq<int>)
    requires TimelineOf(PcOf(s, m.tid)).Some? ==> TimelineOf(PcOf(s, m.tid)).value < |s.heap|
    requires key in s.data ==> s.data[key] < |s.heap|
    requires trace == Act(s, m).trace && next == AbsNext(s, m, key)
    requires trace == s.trace || (trace != [] && trace[..|trace| - 1] == s.trace)
    requires Abs(s, key) == Bucket(After(Taken(s.trace)), key)
    ensures next == Bucket(After(Taken(trace)), key)
  {
    if trace != s.trace {
      TraceStep(s.trace, trace, key);
    }
  }

  lemma SimulatesAt(s: State, m: Move, key: string)
    requires Inv(s) && WellFormed(Act(s, m)) && Enabled(s, m.tid)
    ensures Abs(Act(s, m), key) == Bucket(After(Taken(Act(s, m).trace)), key)
  {
    assert LockAt(s, m.tid);
    assert Abs(s, key) == Bucket(After(Taken(s.trace)), key);
    OneEvent(s, m);
    AbsKept(s, m, key);
    TakenStep(s, m, key, Act(s, m).trace, AbsNext(s, m, key));
  }

  lemma SimulatesKept(s: State, m: Move)
    requires Inv(s) && WellFormed(Act(s, m)) && Enabled(s, m.tid)
    ensures Simulates(Act(s, m))
  {
    forall key ensures Abs(Act(s, m), key) == Bucket(After(Taken(Act(s, m).trace)), key) {
      SimulatesAt(s, m, key);
    }
  }

  lemma TakenPush(trace: seq<Label>)
    requires trace != [] && trace[|trace| - 1].Take?
    ensures var before := Taken(trace[..|trace| - 1]);
      After(Taken(trace)) == Step(After(before), trace[|trace| - 1].job)
  {
    var before := Taken(trace[..|trace| - 1]);
    assert Taken(trace)[..|before|] == before;
  }

  lemma LegalKept(s: State, m: Move)
    requires Inv(s) && WellFormed(Act(s, m)) && Enabled(s, m.tid)
    ensures Legal(Act(s, m).trace)
  {
    var s' := Act(s, m);
    OneEvent(s, m) by { assert LockAt(s, m.tid); }
    if Takes(s, m) {
      var job := s'.trace[|s.trace|].job;
      assert Abs(s, job.key) == Bucket(After(Taken(s.trace)), job.key);
      assert LockAt(s, m.tid) && JobAt(s, PcOf(s, m.tid));
      TakenVerdict(s, m);
    }
  }

  /** The result a call is given when it takes effect is the atomic store's. */
  lemma TakenVerdict(s: State, m: Move)
    requires WellFormed(s) && LockAt(s, m.tid) && JobAt(s, PcOf(s, m.tid)) && Enabled(s, m.tid) && Takes(s, m)
    ensures var last := Act(s, m).trace[|Act(s, m).trace| - 1];
      last.ok == Effect(Abs(s, last.job.key), last.job.op).ok
  {
    assert TimelineOf(PcOf(s, m.tid)).Some? ==> TimelineOf(PcOf(s, m.tid)).value < |s.heap|;
  }

  lemma PhasesKept(s: State, m: Move)
    requires Inv(s) && WellFormed(Act(s, m)) && Enabled(s, m.tid)
    ensures Phases(Act(s, m))
  {
    forall t: Tid ensures PhaseIn(Act(s, m).trace, t) == Pending(Act(s, m), PcOf(Act(s, m), t)) {
      assert LockAt(s, m.tid) && JobAt(s, PcOf(s, m.tid)) && LockAt(s, t);
      assert PhaseIn(s.trace, t) == Pending(s, PcOf(s, t));
      if t != m.tid {
        OtherPhaseKept(s, m, t);
      } else if InSection(PcOf(s, t)) {
        SectionPhaseKept(s, m);
      } else if PcOf(s, t).WantTimeline? {
        LockingPhaseKept(s, m);
      } else if OnMap(PcOf(s, t)) {
        MapPhaseKept(s, m);
      } else {
        CallPhaseKept(s, m);
      }
    }
  }

  lemma OwnControlKept(s: State, m: Move)
    requires WellFormed(s) && LockAt(s, m.tid) && JobAt(s, PcOf(s, m.tid)) && Enabled(s, m.tid)
    ensures LockAt(Act(s, m), m.tid) && JobAt(Act(s, m), PcOf(Act(s, m), m.tid))
  {
    if AtTimeline(PcOf(s, m.tid)) {
      OwnTimelineLocksKept(s, m);
      OwnTimelineJobKept(s, m);
    } else {
      if PcOf(s, m.tid).WantWrite? || InWrite(PcOf(s, m.tid)) {
        OwnWriteLockKept(s, m);
      } else {
        OwnReadLockKept(s, m);
      }
      OwnMapJobKept(s, m);
    }
  }

  lemma ControlKept(s: State, m: Move)
    requires Inv(s) && Enabled(s, m.tid)
    ensures Locks(Act(s, m)) && Jobs(Act(s, m)) && Distinct(Act(s, m))
  {
    assert LockAt(s, m.tid) && JobAt(s, PcOf(s, m.tid));
    forall t: Tid ensures LockAt(Act(s, m), t) && JobAt(Act(s, m), PcOf(Act(s, m), t)) {
      assert LockAt(s, t) && JobAt(s, PcOf(s, t));
      if t == m.tid {
        OwnControlKept(s, m);
      } else {
        OtherLocksKept(s, m, t);
        OtherJobKept(s, m, t);
      }
    }
    DistinctKept(s, m);
  }

  lemma NextKeepsInv(s: State, m: Move)
    requires Inv(s)
    ensures Inv(Next(s, m))
  {
    if Enabled(s, m.tid) {
      assert WellFormed(Next(s, m)) && Next(s, m) == Act(s, m);
      ControlKept(s, m);
      PhasesKept(s, m);
      SimulatesKept(s, m);
      LegalKept(s, m);
    }
  }

  lemma {:induction false} Reachable(moves: seq<Move>)
    ensures Inv(Exec(moves))
  {
    if moves != [] {
      Reachable(moves[..|moves| - 1]);
      NextKeepsInv(Exec(moves[..|moves| - 1]), moves[|moves| - 1]);
    }
  }

  lemma NoneBroken(s: State)
    requires WellFormed(s) && Phases(s)
    ensures forall t: Tid :: PhaseIn(s.trace, t) != Broken
  {
    forall t: Tid ensures PhaseIn(s.trace, t) != Broken {
      assert PhaseIn(s.trace, t) == Pending(s, PcOf(s, t));
    }
  }

  /** Linearizability. On every schedule of any threads over any keys, each thread's calls,
      effects and results alternate as they must; taken in the order of their effects, the
      calls get the results the atomic store gives them; and every bucket holds, once whoever
      holds its lock has left, what the atomic store holds. */
  lemma Linearizable(moves: seq<Move>)
    ensures forall t: Tid :: PhaseIn(Exec(moves).trace, t) != Broken
    ensures Legal(Exec(moves).trace)
    ensures Simulates(Exec(moves))
  {
    Reachable(moves);
    NoneBroken(Exec(moves));
  }

  /** A key's timeline object is created at most once, never replaced and never shared. */
  lemma {:induction false} TimelinesArePermanent(moves: seq<Move>, k: nat, key: string)
    requires k <= |moves| && key in Exec(moves[..k]).data
    ensures key in Exec(moves).data && Exec(moves).data[key] == Exec(moves[..k]).data[key]
    ensures Distinct(Exec(moves))
  {
    Reachable(moves);
    if k == |moves| {
      assert moves[..k] == moves;
    } else {
      var before := moves[..|moves| - 1];
      assert before[..k] == moves[..k];
      TimelinesArePermanent(before, k, key);
      Reachable(before);
      assert LockAt(Exec(before), moves[|moves| - 1].tid);
      if Enabled(Exec(before), moves[|moves| - 1].tid) {
        Frame(Exec(before), moves[|moves| - 1]);
      }
    }
  }
}
