/** The in-memory store under threads: every call is broken into the steps at which another
    thread can intervene, with the map lock, the lock of each timeline and the clock reading
    that is taken before either. */
module BucketSteps {
  import opened Wrappers
  import opened SlidingWindow
  import opened Buckets

  type Tid = nat

  datatype Op = AllowOp(key: string, rule: Rule) | ResetOp(key: string)

  /** Where a thread is. `job` is the call with the clock reading it has taken. */
  datatype Pc =
    | Idle
    | Entered(op: Op)                             // about to test the rule and read the clock
    | WantRead(job: KeyedOp)                      // about to RLock the map
    | Reading(job: KeyedOp)                       // read lock held, about to look the key up
    | GotRead(job: KeyedOp, found: Option<nat>)   // read lock held, about to RUnlock
    | WantWrite(job: KeyedOp)                     // about to Lock the map
    | Draining(job: KeyedOp)                      // new readers shut out, waiting for the old ones
    | Writing(job: KeyedOp)                       // write lock held, about to check again
    | Written(job: KeyedOp, tl: nat)              // write lock held, about to Unlock
    | WantTimeline(job: KeyedOp, tl: nat)         // about to Lock the timeline
    | Trimming(job: KeyedOp, tl: nat, i: nat)     // timeline held, in the trim loop
    | Deciding(job: KeyedOp, tl: nat)             // timeline held, slice advanced
    | Emptying(job: KeyedOp, tl: nat)             // timeline held, about to truncate
    | Leaving(tl: nat, ok: bool)                  // timeline held, about to Unlock
    | Returning(ok: bool)

  /** A timeline object: its list and the thread that holds its lock. */
  datatype Cell = Cell(times: seq<int>, holder: Option<Tid>)

  /** What is visible of a run: calls, the moments at which they take effect, results. */
  datatype Label =
    | Invoke(tid: Tid, op: Op)
    | Take(tid: Tid, job: KeyedOp, ok: bool)
    | Return(tid: Tid, ok: bool)

  datatype State = State(
    pcs: map<Tid, Pc>,
    data: map<string, nat>,   // key to index of its timeline object in heap
    heap: seq<Cell>,
    readers: set<Tid>,        // holders of the map's read lock
    writer: Option<Tid>,      // holder or next holder of its write lock
    trace: seq<Label>)

  /** The scheduler's choice: who moves, and what it calls or reads on the clock if it does. */
  datatype Move = Move(tid: Tid, op: Op, now: int)

  const INIT: State := State(map[], map[], [], {}, None, [])

  function PcOf(s: State, t: Tid): Pc {
    if t in s.pcs then s.pcs[t] else Idle
  }

  /** The timeline whose lock a thread holds. */
  function Holding(pc: Pc): Option<nat> {
    match pc
    case Trimming(_, tl, _) => Some(tl)
    case Deciding(_, tl) => Some(tl)
    case Emptying(_, tl) => Some(tl)
    case Leaving(tl, _) => Some(tl)
    case _ => None
  }

  /** The timeline a thread has a reference to. */
  function TimelineOf(pc: Pc): Option<nat> {
    match pc
    case GotRead(_, found) => found
    case Written(_, tl) => Some(tl)
    case WantTimeline(_, tl) => Some(tl)
    case _ => Holding(pc)
  }

  ghost predicate WellFormed(s: State) {
    && (forall t :: TimelineOf(PcOf(s, t)).Some? ==> TimelineOf(PcOf(s, t)).value < |s.heap|)
    && (forall key :: key in s.data ==> s.data[key] < |s.heap|)
  }

  // ---- Steps ----

  ghost predicate Enabled(s: State, t: Tid)
    requires WellFormed(s)
  {
    match PcOf(s, t)
    case WantRead(_) => s.writer.None?
    case WantWrite(_) => s.writer.None?
    case Draining(_) => s.readers == {}
    case WantTimeline(_, tl) =>
      assert TimelineOf(PcOf(s, t)) == Some(tl);
      s.heap[tl].holder.None?
    case _ => true
  }

  function Goto(s: State, t: Tid, pc: Pc): State {
    s.(pcs := s.pcs[t := pc])
  }

  function Log(s: State, event: Label): State {
    s.(trace := s.trace + [event])
  }

  function SetCell(s: State, tl: nat, cell: Cell): State
    requires tl < |s.heap|
  {
    s.(heap := s.heap[tl := cell])
  }

  function OpOf(job: KeyedOp): Op {
    match job.op
    case Attempt(rule, _) => AllowOp(job.key, rule)
    case Clear => ResetOp(job.key)
  }

  /** One step of the thread that holds a timeline, on its list: a turn of the trim loop, the
      decision with the append, or the truncation. */
  function Critical(times: seq<int>, pc: Pc): (r: (seq<int>, Pc))
    requires Holding(pc).Some? && !pc.Leaving?
    ensures Holding(r.1) == Holding(pc) && !r.1.Emptying? && (r.1.Trimming? ==> pc.Trimming?)
  {
    match pc
    case Trimming(job, tl, i) =>
      if i >= |times| then ([], Deciding(job, tl))
      else if job.op.Attempt? && times[i] <= Cut(job.op.now, job.op.rule.window) then
        (times, Trimming(job, tl, i + 1))
      else (times[i..], Deciding(job, tl))
    case Deciding(job, tl) =>
      if job.op.Clear? || |times| >= job.op.rule.limit then (times, Leaving(tl, false))
      else (times + [Stamp(job.op.now)], Leaving(tl, true))
    case Emptying(job, tl) => ([], Leaving(tl, true))
  }

  /** The step a thread takes when it is enabled. */
  function Act(s: State, m: Move): State
    requires var o := TimelineOf(PcOf(s, m.tid)); o.Some? ==> o.value < |s.heap|
  {
    var t := m.tid;
    match PcOf(s, t)
    case Idle => Log(Goto(s, t, Entered(m.op)), Invoke(t, m.op))
    case Entered(ResetOp(key)) => Goto(s, t, WantRead(KeyedOp(key, Clear)))
    case Entered(AllowOp(key, rule)) =>
      if rule.limit <= 0 then Log(Goto(s, t, Returning(false)), Take(t, KeyedOp(key, Attempt(rule, 0)), false))
      else if rule.window <= 0 then Log(Goto(s, t, Returning(true)), Take(t, KeyedOp(key, Attempt(rule, 0)), true))
      else Goto(s, t, WantRead(KeyedOp(key, Attempt(rule, m.now))))
    case WantRead(job) => Goto(s, t, Reading(job)).(readers := s.readers + {t})
    case Reading(job) =>
      if job.key in s.data then Goto(s, t, GotRead(job, Some(s.data[job.key])))
      else if job.op.Clear? then Log(Goto(s, t, GotRead(job, None)), Take(t, job, true))
      else Goto(s, t, GotRead(job, None))
    case GotRead(job, found) =>
      var next := match found
        case Some(tl) => WantTimeline(job, tl)
        case None => if job.op.Clear? then Returning(true) else WantWrite(job);
      Goto(s, t, next).(readers := s.readers - {t})
    case WantWrite(job) => Goto(s, t, Draining(job)).(writer := Some(t))
    case Draining(job) => Goto(s, t, Writing(job))
    case Writing(job) =>
      if job.key in s.data then Goto(s, t, Written(job, s.data[job.key]))
      else Goto(s, t, Written(job, |s.heap|)).(
        data := s.data[job.key := |s.heap|], heap := s.heap + [Cell([], None)])
    case Written(job, tl) => Goto(s, t, WantTimeline(job, tl)).(writer := None)
    case WantTimeline(job, tl) =>
      var held := SetCell(s, tl, s.heap[tl].(holder := Some(t)));
      var next := if job.op.Clear? then Emptying(job, tl) else Trimming(job, tl, 0);
      Log(Goto(held, t, next), Take(t, job, Effect(s.heap[tl].times, job.op).ok))
    case Leaving(tl, ok) => Goto(SetCell(s, tl, s.heap[tl].(holder := None)), t, Returning(ok))
    case Returning(ok) => Log(Goto(s, t, Idle), Return(t, ok))
    case pc =>
      var tl := Holding(pc).value;
      var (times, next) := Critical(s.heap[tl].times, pc);
      Goto(SetCell(s, tl, s.heap[tl].(times := times)), t, next)
  }

  predicate AtTimeline(pc: Pc) {
    Holding(pc).Some? || pc.WantTimeline?
  }

  lemma TimelineForm(s: State, m: Move)
    requires WellFormed(s) && AtTimeline(PcOf(s, m.tid)) && TimelineOf(PcOf(s, m.tid)).value < |s.heap|
    ensures |Act(s, m).heap| == |s.heap| && Act(s, m).data == s.data
    ensures var o := TimelineOf(PcOf(Act(s, m), m.tid)); o.Some? ==> o.value < |s.heap|
  {
  }

  lemma MapForm(s: State, m: Move)
    requires WellFormed(s) && !AtTimeline(PcOf(s, m.tid))
    requires TimelineOf(PcOf(s, m.tid)).Some? ==> TimelineOf(PcOf(s, m.tid)).value < |s.heap|
    ensures |Act(s, m).heap| >= |s.heap|
    ensures var o := TimelineOf(PcOf(Act(s, m), m.tid)); o.Some? ==> o.value < |Act(s, m).heap|
  {
  }

  lemma OwnForm(s: State, m: Move)
    requires WellFormed(s) && (TimelineOf(PcOf(s, m.tid)).Some? ==> TimelineOf(PcOf(s, m.tid)).value < |s.heap|)
    ensures var s' := Act(s, m); var o := TimelineOf(PcOf(s', m.tid));
      |s'.heap| >= |s.heap| && (o.Some? ==> o.value < |s'.heap|)
  {
    if AtTimeline(PcOf(s, m.tid)) {
      TimelineForm(s, m);
    } else {
      MapForm(s, m);
    }
  }

  lemma OtherForm(s: State, m: Move)
    requires WellFormed(s) && (TimelineOf(PcOf(s, m.tid)).Some? ==> TimelineOf(PcOf(s, m.tid)).value < |s.heap|)
    ensures forall t :: t != m.tid ==> PcOf(Act(s, m), t) == PcOf(s, t)
    ensures forall key :: key in Act(s, m).data ==> Act(s, m).data[key] < |Act(s, m).heap|
  {
    if AtTimeline(PcOf(s, m.tid)) {
      TimelineForm(s, m);
    } else {
      MapForm(s, m);
      DataForm(s, m);
    }
    OthersStay(s, m);
  }

  lemma DataForm(s: State, m: Move)
    requires WellFormed(s) && !AtTimeline(PcOf(s, m.tid))
    requires TimelineOf(PcOf(s, m.tid)).Some? ==> TimelineOf(PcOf(s, m.tid)).value < |s.heap|
    ensures forall key :: key in Act(s, m).data ==> Act(s, m).data[key] < |Act(s, m).heap|
  {
  }

  lemma OthersStay(s: State, m: Move)
    requires TimelineOf(PcOf(s, m.tid)).Some? ==> TimelineOf(PcOf(s, m.tid)).value < |s.heap|
    ensures forall t :: t != m.tid ==> PcOf(Act(s, m), t) == PcOf(s, t)
  {
  }

  ghost function Next(s: State, m: Move): (s': State)
    requires WellFormed(s)
    ensures WellFormed(s')
  {
    if Enabled(s, m.tid) then
      OwnForm(s, m);
      OtherForm(s, m);
      Act(s, m)
    else s
  }

  /** The state after a schedule; every reachable state is one of these. */
  ghost function Exec(moves: seq<Move>): (s: State)
    ensures WellFormed(s)
  {
    if moves == [] then INIT else Next(Exec(moves[..|moves| - 1]), moves[|moves| - 1])
  }

  // ---- What a trace must look like ----

  /** A thread as the trace shows it: not in a call, called and not yet taken effect, or taken
      effect with a result that is still to be returned. */
  datatype Phase = Quiet | Called(op: Op) | Took(ok: bool) | Broken

  function Advance(phase: Phase, event: Label): Phase {
    match event
    case Invoke(_, op) => if phase.Quiet? then Called(op) else Broken
    case Take(_, job, ok) => if phase == Called(OpOf(job)) then Took(ok) else Broken
    case Return(_, ok) => if phase == Took(ok) then Quiet else Broken
  }

  function PhaseIn(trace: seq<Label>, t: Tid): Phase {
    if trace == [] then Quiet
    else
      var before, last := PhaseIn(trace[..|trace| - 1], t), trace[|trace| - 1];
      if last.tid == t then Advance(before, last) else before
  }

  /** The calls in the order in which they took effect. */
  function Taken(trace: seq<Label>): seq<KeyedOp> {
    if trace == [] then []
    else
      var before, last := Taken(trace[..|trace| - 1]), trace[|trace| - 1];
      if last.Take? then before + [last.job] else before
  }

  /** Every call had, when it took effect, the result the atomic store would have given. */
  ghost predicate Legal(trace: seq<Label>) {
    trace != [] ==>
      var before, last := trace[..|trace| - 1], trace[|trace| - 1];
      && Legal(before)
      && (last.Take? ==> last.ok == Effect(Bucket(After(Taken(before)), last.job.key), last.job.op).ok)
  }
}
