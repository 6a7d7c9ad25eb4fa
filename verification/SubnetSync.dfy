/** External mode: many instances cache the lists of one shared repository and reload them on
    broadcast messages. Administrative calls commit and then publish; a reload reads the two
    lists one after the other while further calls go on. */
module SubnetSync {
  import opened SubnetLists

  /** How far an instance's subscriber is with the reload it is doing. */
  datatype Stage =
    | Idle
    | Begun                                // message taken
    | HasWhite(read: set<string>)          // whitelist read, not yet loaded
    | WhiteDone                            // whitelist loaded
    | HasBlack(read: set<string>)          // blacklist read, not yet loaded

  /** A failed reload ends the subscriber and with it the process. */
  datatype Instance = Up(white: Nets, black: Nets, queue: nat, stage: Stage) | Down

  datatype System = System(
    white: set<string>,       // the repository
    black: set<string>,
    unpublished: nat,         // calls that have committed and not yet published
    instances: seq<Instance>)

  datatype Move =
    | Commit(white: set<string>, black: set<string>)   // the lists after an administrative call
    | Publish
    | Advance(i: nat)                                  // the next step of an instance's subscriber

  /** All instances loaded and subscribed. */
  predicate Initial(parse: Parser, s: System) {
    && AllAcceptable(parse, s.white) && AllAcceptable(parse, s.black) && s.unpublished == 0
    && forall i :: 0 <= i < |s.instances| ==>
         s.instances[i] == Up(NetsOf(parse, s.white), NetsOf(parse, s.black), 0, Idle)
  }

  predicate Enabled(s: System, m: Move) {
    match m
    case Commit(_, _) => true
    case Publish => s.unpublished > 0
    case Advance(i) => i < |s.instances| && Busy(s.instances[i])
  }

  predicate Busy(inst: Instance) {
    inst.Up? && (inst.queue > 0 || !inst.stage.Idle?)
  }

  function Notify(inst: Instance): Instance {
    if inst.Up? then inst.(queue := inst.queue + 1) else inst
  }

  /** The loop of the subscriber and the two loads of a reload, step by step. */
  function Work(parse: Parser, s: System, inst: Instance): Instance
    requires Busy(inst)
  {
    match inst.stage
    case Idle => inst.(queue := inst.queue - 1, stage := Begun)
    case Begun => inst.(stage := HasWhite(s.white))
    case HasWhite(read) =>
      if AllAcceptable(parse, read) then inst.(white := NetsOf(parse, read), stage := WhiteDone) else Down
    case WhiteDone => inst.(stage := HasBlack(s.black))
    case HasBlack(read) =>
      if AllAcceptable(parse, read) then inst.(black := NetsOf(parse, read), stage := Idle) else Down
  }

  function Next(parse: Parser, s: System, m: Move): System {
    if !Enabled(s, m) then s
    else
      match m
      case Commit(white, black) => s.(white := white, black := black, unpublished := s.unpublished + 1)
      case Publish =>
        s.(unpublished := s.unpublished - 1,
           instances := seq(|s.instances|, i requires 0 <= i < |s.instances| => Notify(s.instances[i])))
      case Advance(i) => s.(instances := s.instances[i := Work(parse, s, s.instances[i])])
  }

  function Exec(parse: Parser, s: System, moves: seq<Move>): System {
    if moves == [] then s else Next(parse, Exec(parse, s, moves[..|moves| - 1]), moves[|moves| - 1])
  }

  // ---- Why a stale cache is always about to be refreshed ----

  /** A reload is coming that has yet to read both lists. */
  predicate Coming(s: System, inst: Instance)
    requires inst.Up?
  {
    s.unpublished > 0 || inst.queue > 0 || inst.stage.Begun?
  }

  /** A list is what a cache should be made of. */
  predicate Mirrors(parse: Parser, nets: Nets, cidrs: set<string>) {
    AllAcceptable(parse, cidrs) && nets == NetsOf(parse, cidrs)
  }

  predicate WhiteFresh(parse: Parser, s: System, inst: Instance)
    requires inst.Up?
  {
    Coming(s, inst) || if inst.stage.HasWhite? then inst.stage.read == s.white else Mirrors(parse, inst.white, s.white)
  }

  predicate BlackFresh(parse: Parser, s: System, inst: Instance)
    requires inst.Up?
  {
    || Coming(s, inst) || inst.stage.HasWhite? || inst.stage.WhiteDone?
    || if inst.stage.HasBlack? then inst.stage.read == s.black else Mirrors(parse, inst.black, s.black)
  }

  predicate Fresh(parse: Parser, s: System, inst: Instance) {
    inst.Up? ==> WhiteFresh(parse, s, inst) && BlackFresh(parse, s, inst)
  }

  ghost predicate AllFresh(parse: Parser, s: System) {
    forall i :: 0 <= i < |s.instances| ==> Fresh(parse, s, s.instances[i])
  }

  lemma FreshKept(parse: Parser, s: System, m: Move)
    requires AllFresh(parse, s)
    ensures AllFresh(parse, Next(parse, s, m))
  {
    forall i | 0 <= i < |Next(parse, s, m).instances|
      ensures Fresh(parse, Next(parse, s, m), Next(parse, s, m).instances[i])
    {
      assert Fresh(parse, s, s.instances[i]);
    }
  }

  /** In every reachable state a cached list that differs from the repository means a call
      between commit and publish, a message queued for that instance, or a reload under way
      that has not yet loaded that list from a current read. */
  lemma {:induction false} AlwaysFresh(parse: Parser, s: System, moves: seq<Move>)
    requires Initial(parse, s)
    ensures AllFresh(parse, Exec(parse, s, moves))
  {
    if moves != [] {
      AlwaysFresh(parse, s, moves[..|moves| - 1]);
      FreshKept(parse, Exec(parse, s, moves[..|moves| - 1]), moves[|moves| - 1]);
    }
  }

  ghost predicate Quiescent(s: System) {
    s.unpublished == 0 && forall i :: 0 <= i < |s.instances| ==> !Busy(s.instances[i])
  }

  /** At quiescence every instance that is up caches exactly the repository's lists. */
  lemma QuiescentAgrees(parse: Parser, s: System, moves: seq<Move>, i: nat)
    requires Initial(parse, s) && Quiescent(Exec(parse, s, moves))
    requires i < |Exec(parse, s, moves).instances| && Exec(parse, s, moves).instances[i].Up?
    ensures var t := Exec(parse, s, moves);
      && t.instances[i].white == NetsOf(parse, t.white) && t.instances[i].white.Keys == t.white
      && t.instances[i].black == NetsOf(parse, t.black) && t.instances[i].black.Keys == t.black
  {
    AlwaysFresh(parse, s, moves);
    var t := Exec(parse, s, moves);
    assert Fresh(parse, t, t.instances[i]) && !Busy(t.instances[i]);
  }

  /** One CIDR that is still stored at quiescence and cannot be loaded has taken every instance
      down. */
  lemma BadCidrTakesAllDown(parse: Parser, s: System, moves: seq<Move>)
    requires Initial(parse, s) && Quiescent(Exec(parse, s, moves))
    requires var t := Exec(parse, s, moves); !AllAcceptable(parse, t.white + t.black)
    ensures var t := Exec(parse, s, moves); forall i :: 0 <= i < |t.instances| ==> t.instances[i].Down?
  {
    AlwaysFresh(parse, s, moves);
    var t := Exec(parse, s, moves);
    forall i | 0 <= i < |t.instances| ensures t.instances[i].Down? {
      assert Fresh(parse, t, t.instances[i]) && !Busy(t.instances[i]);
    }
  }

  // ---- Valid CIDRs keep everyone up ----

  ghost predicate ValidCommits(parse: Parser, moves: seq<Move>) {
    forall k :: 0 <= k < |moves| && moves[k].Commit? ==>
      AllAcceptable(parse, moves[k].white) && AllAcceptable(parse, moves[k].black)
  }

  predicate ReadsOk(parse: Parser, inst: Instance) {
    inst.Up? && match inst.stage
      case HasWhite(read) => AllAcceptable(parse, read)
      case HasBlack(read) => AllAcceptable(parse, read)
      case _ => true
  }

  lemma {:induction false} StaysUp(parse: Parser, s: System, moves: seq<Move>)
    requires Initial(parse, s) && ValidCommits(parse, moves)
    ensures var t := Exec(parse, s, moves);
      && AllAcceptable(parse, t.white) && AllAcceptable(parse, t.black) && |t.instances| == |s.instances|
      && forall i :: 0 <= i < |t.instances| ==> ReadsOk(parse, t.instances[i])
  {
    if moves != [] {
      StaysUp(parse, s, moves[..|moves| - 1]);
      assert moves[|moves| - 1].Commit? ==> AllAcceptable(parse, moves[|moves| - 1].white);
    }
  }

  // ---- Quiescence is reached ----

  function Weight(inst: Instance): nat {
    if inst.Down? then 0
    else
      6 * inst.queue + match inst.stage
        case Idle => 0
        case Begun => 5
        case HasWhite(_) => 4
        case WhiteDone => 3
        case HasBlack(_) => 2
  }

  function TotalWeight(instances: seq<Instance>): nat {
    if instances == [] then 0 else TotalWeight(instances[..|instances| - 1]) + Weight(instances[|instances| - 1])
  }

  /** A bound on the steps that are left when no further call is made. */
  function StepsLeft(s: System): nat {
    s.unpublished * (6 * |s.instances| + 1) + TotalWeight(s.instances)
  }

  lemma {:induction false} WeightUpdate(instances: seq<Instance>, i: nat, inst: Instance)
    requires i < |instances|
    ensures TotalWeight(instances[i := inst]) == TotalWeight(instances) - Weight(instances[i]) + Weight(inst)
  {
    var last := |instances| - 1;
    if i < last {
      WeightUpdate(instances[..last], i, inst);
      assert instances[i := inst][..last] == instances[..last][i := inst];
    } else {
      assert instances[i := inst][..last] == instances[..last];
    }
  }

  lemma {:induction false} WeightNotify(instances: seq<Instance>, notified: seq<Instance>)
    requires |notified| == |instances|
    requires forall i :: 0 <= i < |instances| ==> notified[i] == Notify(instances[i])
    ensures TotalWeight(notified) <= TotalWeight(instances) + 6 * |instances|
  {
    if instances != [] {
      WeightNotify(instances[..|instances| - 1], notified[..|instances| - 1]);
    }
  }

  /** Every step other than a new call brings the system closer to quiescence. */
  lemma StepsDecrease(parse: Parser, s: System, m: Move)
    requires Enabled(s, m) && !m.Commit?
    ensures StepsLeft(Next(parse, s, m)) < StepsLeft(s)
  {
    var t := Next(parse, s, m);
    match m
    case Publish =>
      WeightNotify(s.instances, t.instances);
      assert s.unpublished * (6 * |s.instances| + 1) == t.unpublished * (6 * |s.instances| + 1) + 6 * |s.instances| + 1;
    case Advance(i) =>
      WeightUpdate(s.instances, i, Work(parse, s, s.instances[i]));
  }

  lemma NotStuck(s: System)
    requires !Quiescent(s)
    ensures exists m :: Enabled(s, m) && !m.Commit?
  {
    if s.unpublished > 0 {
      assert Enabled(s, Publish);
    } else {
      var i :| 0 <= i < |s.instances| && Busy(s.instances[i]);
      assert Enabled(s, Advance(i));
    }
  }

  /** A schedule in which every move is enabled and nobody makes a new call. */
  ghost predicate Settling(parse: Parser, s: System, moves: seq<Move>) {
    forall k :: 0 <= k < |moves| ==> !moves[k].Commit? && Enabled(Exec(parse, s, moves[..k]), moves[k])
  }

  /** Convergence. Once calls stop, every schedule comes to an end within StepsLeft moves, and
      it can end only in quiescence, where by QuiescentAgrees the caches are the repository. */
  lemma {:induction false} Converges(parse: Parser, s: System, moves: seq<Move>)
    requires Settling(parse, s, moves)
    ensures |moves| + StepsLeft(Exec(parse, s, moves)) <= StepsLeft(s)
    ensures (forall m :: Enabled(Exec(parse, s, moves), m) ==> m.Commit?) ==> Quiescent(Exec(parse, s, moves))
  {
    if !Quiescent(Exec(parse, s, moves)) {
      NotStuck(Exec(parse, s, moves));
    }
    if moves != [] {
      var before := moves[..|moves| - 1];
      assert forall k :: 0 <= k < |before| ==> before[..k] == moves[..k] && before[k] == moves[k];
      Converges(parse, s, before);
      StepsDecrease(parse, Exec(parse, s, before), moves[|moves| - 1]);
    }
  }

  // ---- Exactly when the subscribers survive ----

  /** The lists after one administrative call. */
  datatype Lists = Lists(white: set<string>, black: set<string>)

  predicate Loadable(parse: Parser, lists: Lists) {
    AllAcceptable(parse, lists.white) && AllAcceptable(parse, lists.black)
  }

  /** The calls of a schedule, in order. */
  function CallsOf(moves: seq<Move>): seq<Lists> {
    if moves == [] then []
    else
      var before, last := CallsOf(moves[..|moves| - 1]), moves[|moves| - 1];
      if last.Commit? then before + [Lists(last.white, last.black)] else before
  }

  ghost predicate AllUp(s: System) {
    forall i :: 0 <= i < |s.instances| ==> s.instances[i].Up?
  }

  lemma {:induction false} ExecConcat(parse: Parser, s: System, a: seq<Move>, b: seq<Move>)
    ensures Exec(parse, s, a + b) == Exec(parse, Exec(parse, s, a), b)
    ensures CallsOf(a + b) == CallsOf(a) + CallsOf(b)
  {
    if b == [] {
      assert a + b == a;
    } else {
      ExecConcat(parse, s, a, b[..|b| - 1]);
      assert (a + b)[..|a + b| - 1] == a + b[..|b| - 1];
    }
  }

  function Commits(calls: seq<Lists>): (moves: seq<Move>)
    ensures |moves| == |calls|
  {
    seq(|calls|, i requires 0 <= i < |calls| => Commit(calls[i].white, calls[i].black))
  }

  /** Calls alone change the repository and leave the instances to wait. */
  lemma {:induction false} AfterCommits(parse: Parser, s: System, calls: seq<Lists>)
    ensures CallsOf(Commits(calls)) == calls
    ensures var t := Exec(parse, s, Commits(calls));
      && t.instances == s.instances && t.unpublished == s.unpublished + |calls|
      && Lists(t.white, t.black) == if calls == [] then Lists(s.white, s.black) else calls[|calls| - 1]
  {
    if calls != [] {
      AfterCommits(parse, s, calls[..|calls| - 1]);
      assert Commits(calls)[..|calls| - 1] == Commits(calls[..|calls| - 1]);
    }
  }

  lemma ValidByCalls(parse: Parser, moves: seq<Move>)
    requires forall k :: 0 <= k < |CallsOf(moves)| ==> Loadable(parse, CallsOf(moves)[k])
    ensures ValidCommits(parse, moves)
  {
    forall k | 0 <= k < |moves| && moves[k].Commit?
      ensures AllAcceptable(parse, moves[k].white) && AllAcceptable(parse, moves[k].black)
    {
      CallIsListed(moves, k);
    }
  }

  lemma {:induction false} CallIsListed(moves: seq<Move>, k: nat)
    requires k < |moves| && moves[k].Commit?
    ensures Lists(moves[k].white, moves[k].black) in CallsOf(moves)
  {
    if k < |moves| - 1 {
      CallIsListed(moves[..|moves| - 1], k);
    }
  }

  /** A subscriber that runs on while nobody else moves. */
  function Advances(n: nat): (moves: seq<Move>)
    ensures |moves| == n
  {
    seq(n, _ => Advance(0))
  }

  function AfterWork(parse: Parser, s: System, inst: Instance, n: nat): Instance {
    if n == 0 then inst
    else
      var before := AfterWork(parse, s, inst, n - 1);
      if Busy(before) then Work(parse, s, before) else before
  }

  lemma {:induction false} AfterAdvances(parse: Parser, s: System, n: nat)
    requires |s.instances| > 0
    ensures CallsOf(Advances(n)) == []
    ensures var t := Exec(parse, s, Advances(n));
      && t.white == s.white && t.black == s.black && |t.instances| > 0
      && t.instances[0] == AfterWork(parse, s, s.instances[0], n)
  {
    if n > 0 {
      AfterAdvances(parse, s, n - 1);
      assert Advances(n)[..n - 1] == Advances(n - 1);
    }
  }

  /** Five steps take a subscriber with a message through the reload; it ends if the reload
      meets what it cannot load. */
  lemma BadReload(parse: Parser, s: System, inst: Instance)
    requires inst.Up? && inst.queue > 0 && inst.stage.Idle? && !Loadable(parse, Lists(s.white, s.black))
    ensures AfterWork(parse, s, inst, 5).Down?
  {
    assert AfterWork(parse, s, inst, 0) == inst;
    var begun := AfterWork(parse, s, inst, 1);
    assert begun == inst.(queue := inst.queue - 1, stage := Begun);
    assert AfterWork(parse, s, inst, 2) == begun.(stage := HasWhite(s.white));
    if AllAcceptable(parse, s.white) {
      var white := AfterWork(parse, s, inst, 3);
      assert white.Up? && white.stage.WhiteDone?;
      assert AfterWork(parse, s, inst, 4) == white.(stage := HasBlack(s.black));
    } else {
      assert AfterWork(parse, s, inst, 3).Down? && AfterWork(parse, s, inst, 4).Down?;
    }
  }

  lemma AfterPublish(parse: Parser, s: System)
    requires s.unpublished > 0
    ensures Exec(parse, s, [Publish]) == Next(parse, s, Publish) && CallsOf([Publish]) == []
  {
    assert [Publish][..0] == [];
    assert Exec(parse, s, []) == s;
  }

  lemma {:induction false} DownForGood(parse: Parser, s: System, moves: seq<Move>)
    requires |s.instances| > 0 && s.instances[0].Down?
    ensures |Exec(parse, s, moves).instances| > 0 && Exec(parse, s, moves).instances[0].Down?
  {
    if moves != [] {
      DownForGood(parse, s, moves[..|moves| - 1]);
    }
  }

  /** A call that leaves an unacceptable CIDR behind takes an instance down on the schedule
      that publishes at once. */
  lemma BadCallHurts(parse: Parser, s: System, calls: seq<Lists>, k: nat) returns (moves: seq<Move>)
    requires Initial(parse, s) && |s.instances| > 0 && k < |calls| && !Loadable(parse, calls[k])
    ensures CallsOf(moves) == calls && !AllUp(Exec(parse, s, moves))
  {
    var first, rest := Commits(calls[..k + 1]), Commits(calls[k + 1..]);
    var s1 := Exec(parse, s, first);
    var s2 := Exec(parse, s1, [Publish]);
    var s3 := Exec(parse, s2, Advances(5));
    AfterCommits(parse, s, calls[..k + 1]);
    AfterPublish(parse, s1);
    AfterAdvances(parse, s2, 5);
    BadReload(parse, s2, s2.instances[0]);
    DownForGood(parse, s3, rest);
    AfterCommits(parse, s3, calls[k + 1..]);
    ExecConcat(parse, s, first, [Publish]);
    ExecConcat(parse, s, first + [Publish], Advances(5));
    ExecConcat(parse, s, first + [Publish] + Advances(5), rest);
    moves := first + [Publish] + Advances(5) + rest;
    assert calls == calls[..k + 1] + calls[k + 1..];
  }

  /** For given calls, every interleaving keeps every subscriber up exactly when after each
      single call all stored CIDRs can be loaded. */
  lemma SurvivalIsCertain(parse: Parser, s: System, calls: seq<Lists>)
    requires Initial(parse, s) && |s.instances| > 0
    ensures (forall moves :: CallsOf(moves) == calls ==> AllUp(Exec(parse, s, moves)))
       <==> (forall k :: 0 <= k < |calls| ==> Loadable(parse, calls[k]))
  {
    if k :| 0 <= k < |calls| && !Loadable(parse, calls[k]) {
      var moves := BadCallHurts(parse, s, calls, k);
    } else {
      forall moves | CallsOf(moves) == calls ensures AllUp(Exec(parse, s, moves)) {
        ValidByCalls(parse, moves);
        StaysUp(parse, s, moves);
      }
    }
  }

  /** The schedule's own reloads find only what they can load. */
  ghost predicate Sound(parse: Parser, s: System) {
    Loadable(parse, Lists(s.white, s.black)) && forall i :: 0 <= i < |s.instances| ==> ReadsOk(parse, s.instances[i])
  }

  lemma SoundKept(parse: Parser, s: System, m: Move)
    requires Sound(parse, s) && !m.Commit?
    ensures Sound(parse, Next(parse, s, m)) && Lists(Next(parse, s, m).white, Next(parse, s, m).black) == Lists(s.white, s.black)
  {
  }

  /** Without further calls the system can always come to rest. */
  lemma {:induction false} ComeToRest(parse: Parser, s: System) returns (moves: seq<Move>)
    requires Sound(parse, s)
    ensures CallsOf(moves) == [] && Quiescent(Exec(parse, s, moves)) && Sound(parse, Exec(parse, s, moves))
    decreases StepsLeft(s)
  {
    moves := [];
    if !Quiescent(s) {
      NotStuck(s);
      var m :| Enabled(s, m) && !m.Commit?;
      StepsDecrease(parse, s, m);
      SoundKept(parse, s, m);
      var rest := ComeToRest(parse, Next(parse, s, m));
      moves := [m] + rest;
      ExecConcat(parse, s, [m], rest);
      assert [m][..0] == [];
    }
  }

  lemma MaySurvive(parse: Parser, s: System, calls: seq<Lists>) returns (moves: seq<Move>)
    requires Initial(parse, s) && (calls != [] ==> Loadable(parse, calls[|calls| - 1]))
    ensures CallsOf(moves) == calls && Quiescent(Exec(parse, s, moves)) && AllUp(Exec(parse, s, moves))
  {
    var first := Commits(calls);
    AfterCommits(parse, s, calls);
    var rest := ComeToRest(parse, Exec(parse, s, first));
    ExecConcat(parse, s, first, rest);
    moves := first + rest;
  }

  lemma CannotSurvive(parse: Parser, s: System, moves: seq<Move>)
    requires Initial(parse, s) && |s.instances| > 0 && Quiescent(Exec(parse, s, moves))
    requires var calls := CallsOf(moves); calls != [] && !Loadable(parse, calls[|calls| - 1])
    ensures !AllUp(Exec(parse, s, moves))
  {
    LastCallStored(parse, s, moves);
    StillAsMany(parse, s, moves);
    BadCidrTakesAllDown(parse, s, moves);
    assert Exec(parse, s, moves).instances[0].Down?;
  }

  /** Some interleaving brings every subscriber to rest and up exactly when the lists the calls
      end with can be loaded: what was unacceptable only in between may go unread. */
  lemma SurvivalIsPossible(parse: Parser, s: System, calls: seq<Lists>)
    requires Initial(parse, s) && |s.instances| > 0
    ensures (exists moves :: CallsOf(moves) == calls && Quiescent(Exec(parse, s, moves)) && AllUp(Exec(parse, s, moves)))
       <==> (calls != [] ==> Loadable(parse, calls[|calls| - 1]))
  {
    if calls != [] ==> Loadable(parse, calls[|calls| - 1]) {
      var moves := MaySurvive(parse, s, calls);
    } else {
      forall moves | CallsOf(moves) == calls && Quiescent(Exec(parse, s, moves)) ensures !AllUp(Exec(parse, s, moves)) {
        CannotSurvive(parse, s, moves);
      }
    }
  }

  lemma {:induction false} LastCallStored(parse: Parser, s: System, moves: seq<Move>)
    ensures var t, calls := Exec(parse, s, moves), CallsOf(moves);
      Lists(t.white, t.black) == if calls == [] then Lists(s.white, s.black) else calls[|calls| - 1]
  {
    if moves != [] {
      LastCallStored(parse, s, moves[..|moves| - 1]);
    }
  }

  lemma {:induction false} StillAsMany(parse: Parser, s: System, moves: seq<Move>)
    ensures |Exec(parse, s, moves).instances| == |s.instances|
  {
    if moves != [] {
      StillAsMany(parse, s, moves[..|moves| - 1]);
    }
  }
}
