/** The pool never wedges: a blocked acquire is always waiting for a task that can finish on
    its own, a pool whose limits are positive can always spawn again, and a pool whose loops
    are gone winds down within a bounded number of steps. */
module PoolProgress {
  import opened Counting
  import opened Pool
  import opened PoolSafety

  /** Steps of the tasks and the clock only. */
  predicate TaskOrClock(step: Step) {
    step.Advance? || step.Tick?
  }

  ghost predicate OnlyTasks(steps: seq<Step>) {
    forall k :: 0 <= k < |steps| ==> TaskOrClock(steps[k])
  }

  /** How many moves a task can still make. */
  function Rank(t: Task): int {
    match t.phase
    case Spawned => 7
    case Idle => 6
    case Resolved => 5
    case BadBackoff(_) => 4
    case ConnectingLocal => 4
    case MinBackoff(_) => 3
    case Active => 3
    case LocalBackoff(_) => 2
    case Draining(_) => 2
    case Returned => 1
    case Done => 0
  }

  /** What is left at `now` of a delay that began at `since`. */
  function Left(since: nat, delay: nat, now: nat): nat {
    if now >= since + delay then 0 else since + delay - now
  }

  /** A move every unfinished task can make after `Wait`, needing no permit. */
  function NextMove(t: Task, settled: bool): Move {
    match t.phase
    case Spawned => Begin
    case Idle => Resolve(if settled then Shutdown else TimedOut)
    case Resolved => Proceed
    case ConnectingLocal => LocalDown
    case Active => if settled then Drain else Hangup
    case Returned => Exit
    case _ => Wake
  }

  function Wait(t: Task, now: nat, settled: bool): nat {
    match t.phase
    case Idle => if settled then 0 else Left(t.started, MAX_IDLE_CONNECTION_TIME, now)
    case BadBackoff(since) => Left(since, BAD_ERROR_DELAY, now)
    case MinBackoff(since) => Left(since, MIN_EBBFLOW_ERROR_DELAY, now)
    case LocalBackoff(since) => Left(since, MIN_EBBFLOW_ERROR_DELAY, now)
    case Draining(since) => Left(since, KILL_ACTIVE_DELAY, now)
    case _ => 0
  }

  /** How many milliseconds a task left to itself takes to its end. One that is idle or proxying is
      waited for until it is told to stop: then it has 5 s and 60 s. */
  function Patience(t: Task, now: nat, settled: bool): nat {
    match t.phase
    case Spawned => if settled then 5_000 else 3_720_000
    case Idle => if settled then 5_000 else Left(t.started, 3_720_000, now)
    case Resolved => if t.verdict.Refused? then 60_000 else if t.verdict.TimedOut? then 0 else 5_000
    case BadBackoff(since) => Left(since, 55_000, now) + 5_000
    case MinBackoff(since) => Left(since, 5_000, now)
    case ConnectingLocal => 5_000
    case LocalBackoff(since) => Left(since, 5_000, now)
    case Active => if settled then 60_000 else 0
    case Draining(since) => Left(since, 60_000, now)
    case Returned => 0
    case Done => 0
  }

  /** Steps that take nothing but the executor, the clock and a signal already given: no answer,
      failure or hang-up of Ebbflow or of the local server. */
  predicate ByClock(step: Step) {
    step.Tick? ||
    (step.Advance? &&
     (step.move.Begin? || step.move == Resolve(TimedOut) || step.move == Resolve(Shutdown)
      || step.move.Proceed? || step.move.Wake?))
  }

  ghost predicate OnlyClock(steps: seq<Step>) {
    forall k :: 0 <= k < |steps| ==> ByClock(steps[k])
  }

  /** The same, and a local connect that fails, the order to drain, and the task's exit. */
  predicate Unaided(step: Step) {
    ByClock(step) || (step.Advance? && (step.move.LocalDown? || step.move.Drain? || step.move.Exit?))
  }

  ghost predicate OnlyUnaided(steps: seq<Step>) {
    forall k :: 0 <= k < |steps| ==> Unaided(steps[k])
  }

  /** The time that passes along `steps`. */
  ghost function Elapsed(steps: seq<Step>): nat {
    if steps == [] then 0 else (if steps[0].Tick? then steps[0].ms else 0) + Elapsed(steps[1..])
  }

  lemma {:induction false} ElapsedConcat(a: seq<Step>, b: seq<Step>)
    ensures Elapsed(a + b) == Elapsed(a) + Elapsed(b)
  {
    if a == [] {
      assert a + b == b;
    } else {
      assert (a + b)[1..] == a[1..] + b;
      ElapsedConcat(a[1..], b);
    }
  }

  lemma MovesLowerTheRank(t: Task, now: nat, settled: bool, m: Move)
    requires CanMove(t, now, settled, m)
    ensures 0 <= Rank(Moved(t, now, m)) < Rank(t)
  {
  }

  /** After its wait a task can make its next move, and the time it still needs is what it needed
      before less the wait. */
  lemma NextMoveIsOnTime(t: Task, now: nat, settled: bool)
    requires TaskOk(t, now, settled) && !t.phase.Done?
    ensures var later := now + Wait(t, now, settled);
            var m := NextMove(t, settled);
            && CanMove(t, later, settled, m)
            && Wait(t, now, settled) + Patience(Moved(t, later, m), later, settled) == Patience(t, now, settled)
  {
  }

  lemma NextHop(t: Task, now: nat, settled: bool, g: nat, i: nat) returns (wait: nat, m: Move, u: Task)
    requires TaskOk(t, now, settled) && !t.phase.Done?
    ensures CanMove(t, now + wait, settled, m) && u == Moved(t, now + wait, m)
    ensures wait + Patience(u, now + wait, settled) == Patience(t, now, settled)
    ensures 0 <= Rank(u) < Rank(t)
    ensures HoldsIdle(t) ==> ByClock(Advance(g, i, m))
    ensures settled ==> Unaided(Advance(g, i, m))
  {
    wait, m := Wait(t, now, settled), NextMove(t, settled);
    u := Moved(t, now + wait, m);
    NextMoveIsOnTime(t, now, settled);
    MovesLowerTheRank(t, now + wait, settled, m);
  }

  /** Only task `i` of generation `g` differs, and it is now `u`. */
  ghost predicate OnlyTaskChanged(s: State, g: nat, i: nat, u: Task, s': State)
    requires g < |s.gens| && i < |s.gens[g].tasks|
  {
    && s'.limits == s.limits
    && |s'.gens| == |s.gens|
    && (forall k :: 0 <= k < |s.gens| && k != g ==> s'.gens[k] == s.gens[k])
    && s'.gens[g].tasks == s.gens[g].tasks[i := u]
    && s'.gens[g].loop == s.gens[g].loop
    && s'.gens[g].signal == s.gens[g].signal
  }

  lemma TaskIsOk(s: State, g: nat, i: nat)
    requires Inv(s) && g < |s.gens| && i < |s.gens[g].tasks|
    ensures TaskOk(s.gens[g].tasks[i], s.now, s.gens[g].signal.Settled())
  {
    assert GenOk(s.limits, s.now, s.gens[g]);
  }

  lemma TickThenMove(s: State, g: nat, i: nat, wait: nat, m: Move) returns (steps: seq<Step>)
    requires g < |s.gens| && i < |s.gens[g].tasks|
    requires CanMove(s.gens[g].tasks[i], s.now + wait, s.gens[g].signal.Settled(), m)
    ensures Valid(s, steps) && OnlyTasks(steps)
    ensures ByClock(Advance(g, i, m)) ==> OnlyClock(steps)
    ensures Unaided(Advance(g, i, m)) ==> OnlyUnaided(steps)
    ensures Run(s, steps).now == s.now + wait && Elapsed(steps) == wait
    ensures OnlyTaskChanged(s, g, i, Moved(s.gens[g].tasks[i], s.now + wait, m), Run(s, steps))
  {
    steps := Then(s, [], Tick(wait));
    steps := Then(s, steps, Advance(g, i, m));
    ElapsedConcat([Tick(wait)], [Advance(g, i, m)]);
  }

  /** Let time pass, then the connection's next move. As long as it holds its idle permit that takes
      the clock alone, and once it is told to stop it is unaided to the end. */
  lemma Hop(s: State, g: nat, i: nat) returns (steps: seq<Step>, u: Task)
    requires g < |s.gens| && i < |s.gens[g].tasks| && !s.gens[g].tasks[i].phase.Done?
    requires TaskOk(s.gens[g].tasks[i], s.now, s.gens[g].signal.Settled())
    ensures Valid(s, steps) && OnlyTasks(steps)
    ensures HoldsIdle(s.gens[g].tasks[i]) ==> OnlyClock(steps)
    ensures s.gens[g].signal.Settled() ==> OnlyUnaided(steps)
    ensures OnlyTaskChanged(s, g, i, u, Run(s, steps))
    ensures 0 <= Rank(u) < Rank(s.gens[g].tasks[i])
    ensures Patience(s.gens[g].tasks[i], s.now, s.gens[g].signal.Settled())
         == Elapsed(steps) + Patience(u, Run(s, steps).now, s.gens[g].signal.Settled())
  {
    var t, settled := s.gens[g].tasks[i], s.gens[g].signal.Settled();
    var wait, m;
    wait, m, u := NextHop(t, s.now, settled, g, i);
    steps := TickThenMove(s, g, i, wait, m);
  }

  /** A holder of an idle permit gives it back by the clock alone, disturbing nothing else. */
  lemma {:induction false} ReleaseIdle(s: State, g: nat, i: nat) returns (steps: seq<Step>, u: Task)
    requires Inv(s) && g < |s.gens| && i < |s.gens[g].tasks|
    ensures Valid(s, steps) && OnlyClock(steps) && !HoldsIdle(u) && Inv(Run(s, steps))
    ensures OnlyTaskChanged(s, g, i, u, Run(s, steps))
    ensures Elapsed(steps) <= Patience(s.gens[g].tasks[i], s.now, s.gens[g].signal.Settled())
    decreases Rank(s.gens[g].tasks[i])
  {
    u := s.gens[g].tasks[i];
    steps := [];
    if HoldsIdle(u) {
      TaskIsOk(s, g, i);
      var first, _ := Hop(s, g, i);
      RunKeepsInv(s, first);
      var rest;
      rest, u := ReleaseIdle(Run(s, first), g, i);
      RunConcat(s, first, rest);
      ElapsedConcat(first, rest);
      steps := first + rest;
    }
  }

  /** Running task `i` of generation `g` alone finishes it in exactly the time it needs and disturbs
      nothing else; told to stop, it needs nobody's help. */
  lemma {:induction false} Finish(s: State, g: nat, i: nat) returns (steps: seq<Step>, u: Task)
    requires Inv(s) && g < |s.gens| && i < |s.gens[g].tasks|
    ensures Valid(s, steps) && OnlyTasks(steps) && u.phase.Done? && Inv(Run(s, steps))
    ensures s.gens[g].signal.Settled() ==> OnlyUnaided(steps)
    ensures OnlyTaskChanged(s, g, i, u, Run(s, steps))
    ensures Elapsed(steps) == Patience(s.gens[g].tasks[i], s.now, s.gens[g].signal.Settled())
    decreases Rank(s.gens[g].tasks[i])
  {
    u := s.gens[g].tasks[i];
    steps := [];
    if !u.phase.Done? {
      TaskIsOk(s, g, i);
      var first, _ := Hop(s, g, i);
      RunKeepsInv(s, first);
      var rest;
      rest, u := Finish(Run(s, first), g, i);
      RunConcat(s, first, rest);
      ElapsedConcat(first, rest);
      steps := first + rest;
    }
  }

  /** A stop is obeyed: in every reachable state, every task of a generation whose signal has fired or
      lost its sender can end unaided. A proxying connection takes 60 s, one that is idle or has not
      begun resolves as shut down at once and takes its 5 s back-off, and none takes longer than 60 s. */
  lemma StopIsObeyed(limits: Limits, steps: seq<Step>, g: nat, i: nat) returns (more: seq<Step>, u: Task)
    requires Valid(Init(limits), steps)
    requires g < |Run(Init(limits), steps).gens| && i < |Run(Init(limits), steps).gens[g].tasks|
    requires Run(Init(limits), steps).gens[g].signal.Settled()
    ensures var s := Run(Init(limits), steps);
            var t := s.gens[g].tasks[i];
            && Valid(s, more) && OnlyUnaided(more)
            && u.phase.Done? && OnlyTaskChanged(s, g, i, u, Run(s, more))
            && (t.phase.Active? ==> Elapsed(more) == 60_000)
            && (t.phase.Spawned? || t.phase.Idle? ==> Elapsed(more) == 5_000)
            && Elapsed(more) <= 60_000
  {
    RunFromInit(limits, steps);
    var s := Run(Init(limits), steps);
    assert GenOk(limits, s.now, s.gens[g]);
    more, u := Finish(s, g, i);
  }

  /** A blocked acquire is waiting for a permit that some unfinished task holds. */
  lemma BlockedOnAHolder(limits: Limits, steps: seq<Step>, g: nat) returns (i: nat)
    requires limits.idleconns >= 1 && limits.maxconns >= 1
    requires Valid(Init(limits), steps)
    requires g < |Run(Init(limits), steps).gens|
    requires var gen := Run(Init(limits), steps).gens[g];
             (gen.loop.WantMax? && gen.maxFree == 0) || (gen.loop.WantIdle? && gen.idleFree == 0)
    ensures var gen := Run(Init(limits), steps).gens[g];
            && i < |gen.tasks|
            && HoldsMax(gen.tasks[i])
            && (gen.loop.WantIdle? ==> HoldsIdle(gen.tasks[i]))
  {
    PermitsAreConserved(limits, steps, g);
    var gen := Run(Init(limits), steps).gens[g];
    if gen.loop.WantMax? {
      i := CountWitness(gen.tasks, HoldsMax);
    } else {
      i := CountWitness(gen.tasks, HoldsIdle);
    }
  }

  predicate CanAcquire(s: State, g: nat) {
    Enabled(s, TakeMax(g)) || Enabled(s, TakeIdle(g))
  }

  /** Deadlock freedom: from every reachable state in which a loop waits for a permit, letting the
      holder alone run makes the acquire succeed. If it is the idle permit that is missing, the clock
      alone brings it back, even if Ebbflow never answers again. */
  lemma AcquireAlwaysPossible(limits: Limits, steps: seq<Step>, g: nat) returns (more: seq<Step>)
    requires limits.idleconns >= 1 && limits.maxconns >= 1
    requires Valid(Init(limits), steps)
    requires g < |Run(Init(limits), steps).gens|
    requires var gen := Run(Init(limits), steps).gens[g]; gen.loop.WantMax? || gen.loop.WantIdle?
    ensures OnlyTasks(more)
    ensures Run(Init(limits), steps).gens[g].loop.WantIdle? ==> OnlyClock(more)
    ensures Valid(Run(Init(limits), steps), more)
    ensures CanAcquire(Run(Run(Init(limits), steps), more), g)
  {
    RunFromInit(limits, steps);
    PermitsAreConserved(limits, steps, g);
    var s := Run(Init(limits), steps);
    more := [];
    if !CanAcquire(s, g) {
      var i := BlockedOnAHolder(limits, steps, g);
      var u;
      if s.gens[g].loop.WantIdle? {
        more, u := ReleaseIdle(s, g, i);
      } else {
        more, u := Finish(s, g, i);
      }
      var s' := Run(s, more);
      assert GenOk(limits, s'.now, s'.gens[g]);
      HolderFrees(limits, s.gens[g], i, u, s'.gens[g]);
    }
  }

  /** The permit of a task that no longer holds it is free again. */
  lemma HolderFrees(limits: Limits, gen: Generation, i: nat, u: Task, gen': Generation)
    requires Conserved(limits, gen) && Conserved(limits, gen')
    requires i < |gen.tasks| && gen'.tasks == gen.tasks[i := u] && gen'.loop == gen.loop
    ensures HoldsMax(gen.tasks[i]) && !HoldsMax(u) ==> gen'.maxFree > 0
    ensures HoldsIdle(gen.tasks[i]) && !HoldsIdle(u) ==> gen'.idleFree > 0
  {
    CountUpdate(gen.tasks, i, u, HoldsMax);
    CountUpdate(gen.tasks, i, u, HoldsIdle);
  }

  /** The exact condition for a pool to be of any use: connections can be spawned if and only if
      both limits are positive. */
  lemma SpawnsIffLimitsPositive(limits: Limits)
    ensures (limits.idleconns >= 1 && limits.maxconns >= 1) <==>
            exists steps :: Valid(Init(limits), steps) && SomeTask(Run(Init(limits), steps))
  {
    if limits.idleconns >= 1 && limits.maxconns >= 1 {
      var s := Init(limits);
      var steps := Then(s, [], StartGeneration);
      steps := Then(s, steps, TakeMax(0));
      steps := Then(s, steps, TakeIdle(0));
      steps := Then(s, steps, Spawn(0));
      assert Run(s, steps).gens[0].tasks != [];
    }
    forall steps | Valid(Init(limits), steps) && SomeTask(Run(Init(limits), steps))
      ensures limits.idleconns >= 1 && limits.maxconns >= 1
    {
      RunFromInit(limits, steps);
      var s := Run(Init(limits), steps);
      var g :| 0 <= g < |s.gens| && s.gens[g].tasks != [];
      assert GenOk(limits, s.now, s.gens[g]);
    }
  }

  ghost predicate SomeTask(s: State) {
    exists g :: 0 <= g < |s.gens| && s.gens[g].tasks != []
  }

  // ---------------------------------------------------------------- winding down

  ghost function RankIn(gen: Generation): int {
    Sum(gen.tasks, Rank)
  }

  ghost function TotalRank(s: State): int {
    Sum(s.gens, RankIn)
  }

  lemma RanksAreNonNegative(s: State)
    ensures 0 <= TotalRank(s)
  {
    forall g | 0 <= g < |s.gens| ensures 0 <= RankIn(s.gens[g]) {
      SumNonNegative(s.gens[g].tasks, Rank);
    }
    SumNonNegative(s.gens, RankIn);
  }

  lemma {:induction false} SumNonNegative<T>(ts: seq<T>, f: T -> int)
    requires forall i :: 0 <= i < |ts| ==> 0 <= f(ts[i])
    ensures 0 <= Sum(ts, f)
  {
    if ts != [] {
      SumNonNegative(ts[..|ts| - 1], f);
    }
  }

  lemma AdvanceLowersTotal(s: State, step: Step)
    requires step.Advance? && Enabled(s, step)
    ensures TotalRank(Apply(s, step)) < TotalRank(s)
  {
    var g, i := step.g, step.i;
    var s' := Apply(s, step);
    var t := s.gens[g].tasks[i];
    MovesLowerTheRank(t, s.now, s.gens[g].signal.Settled(), step.move);
    SumUpdate(s.gens[g].tasks, i, Moved(t, s.now, step.move), Rank);
    SumUpdate(s.gens, g, s'.gens[g], RankIn);
  }

  lemma {:induction false} CountHead<T>(ts: seq<T>, p: T -> bool)
    requires ts != []
    ensures Count(ts, p) == Bit(p(ts[0])) + Count(ts[1..], p)
  {
    var n := |ts| - 1;
    if n > 0 {
      CountHead(ts[..n], p);
      assert ts[1..][..n - 1] == ts[..n][1..];
    }
  }
}
