/** The supervisor task of `spawn_endpoint`, composed with its health window and with the
    connection pool it starts and stops. Each turn of its loop waits for health, starts a
    generation, watches it until health or the endpoint ends, and races both waits against
    the endpoint's stop signal. */
module Supervisor {
  import opened Counting
  import opened Health
  import Pool
  import PoolSafety
  import opened PoolProgress
  import opened Wrappers

  datatype Pc =
    | AwaitingHealthy   // select(await_healthy, stop)
    | Launching         // healthy, about to build the generation and its signal
    | Watching          // select(await_unhealthy, stop)
    | Killing           // unhealthy, about to fire the generation's signal
    | Restarting        // fired, the sender goes out of scope at the end of the turn
    | Ended

  datatype State = State(
    check: Option<Thresholds>, pc: Pc, stop: bool, history: seq<Check>, pool: Pool.State)

  datatype Step =
    | Report(ok: bool, time: nat)
    | NoCheck
    | Launch
    | Kill
    | Restart
    | RequestStop
    | ObserveStop
    | Inner(step: Pool.Step)

  /** Steps of the pool that are not the supervisor's to take. */
  predicate IsInner(p: Pool.Step) {
    !p.StartGeneration? && !p.FireSignal? && !p.DropSender?
  }

  function Init(check: Option<Thresholds>, limits: Pool.Limits): State {
    State(check, AwaitingHealthy, false, [], Pool.Init(limits))
  }

  predicate Enabled(s: State, step: Step) {
    match step
    case Report(_, _) => s.check.Some? && (s.pc.AwaitingHealthy? || s.pc.Watching?)
    case NoCheck => s.check.None? && s.pc.AwaitingHealthy?
    case Launch => s.pc.Launching?
    case Kill => s.pc.Killing? && Pool.Enabled(s.pool, Pool.FireSignal(Last(s)))
    case Restart => s.pc.Restarting? && Pool.Enabled(s.pool, Pool.DropSender(Last(s)))
    case RequestStop => true
    case ObserveStop =>
      && s.stop
      && (s.pc.AwaitingHealthy? || (s.pc.Watching? && Pool.Enabled(s.pool, Pool.DropSender(Last(s)))))
    case Inner(p) => IsInner(p) && Pool.Enabled(s.pool, p)
  }

  function Last(s: State): nat {
    if s.pool.gens == [] then 0 else |s.pool.gens| - 1
  }

  ghost function Apply(s: State, step: Step): State
    requires Enabled(s, step)
  {
    match step
    case Report(ok, time) =>
      var history := s.history + [Check(ok, time)];
      var flag := Flag(s.check.value, history);
      var pc :=
        if s.pc.AwaitingHealthy? then (if flag then Launching else AwaitingHealthy)
        else if flag then Watching else Killing;
      s.(history := history, pc := pc)
    case NoCheck => s.(pc := Launching)
    case Launch => s.(pc := Watching, pool := Pool.Apply(s.pool, Pool.StartGeneration))
    case Kill => s.(pc := Restarting, pool := Pool.Apply(s.pool, Pool.FireSignal(Last(s))))
    case Restart => s.(pc := AwaitingHealthy, pool := Pool.Apply(s.pool, Pool.DropSender(Last(s))))
    case RequestStop => s.(stop := true)
    case ObserveStop =>
      if s.pc.Watching? then s.(pc := Ended, pool := Pool.Apply(s.pool, Pool.DropSender(Last(s))))
      else s.(pc := Ended)
    case Inner(p) => s.(pool := Pool.Apply(s.pool, p))
  }

  ghost predicate Valid(s: State, steps: seq<Step>)
    decreases |steps|
  {
    steps == [] || (Enabled(s, steps[0]) && Valid(Apply(s, steps[0]), steps[1..]))
  }

  ghost function Run(s: State, steps: seq<Step>): State
    requires Valid(s, steps)
    decreases |steps|
  {
    if steps == [] then s else Run(Apply(s, steps[0]), steps[1..])
  }

  // ---------------------------------------------------------------- invariants

  ghost predicate SignalsOk(s: State) {
    var gens := s.pool.gens;
    var n := |gens|;
    && (forall g :: 0 <= g < n - 1 ==> gens[g].signal.fired)
    && (s.pc.AwaitingHealthy? || s.pc.Launching? ==> n > 0 ==> gens[n - 1].signal.fired)
    && (s.pc.Watching? || s.pc.Killing? ==> n > 0 && gens[n - 1].signal == Pool.Signal(false, true))
    && (s.pc.Restarting? ==> n > 0 && gens[n - 1].signal == Pool.Signal(true, true))
    && (s.pc.Ended? ==> n > 0 ==> gens[n - 1].signal.Settled())
  }

  ghost predicate FlagOk(s: State) {
    var n := |s.pool.gens|;
    match s.check
    case None =>
      && s.history == []
      && (s.pc.AwaitingHealthy? || s.pc.Launching? ==> n == 0)
      && !s.pc.Killing? && !s.pc.Restarting?
      && n <= 1
    case Some(cfg) =>
      && (s.pc.AwaitingHealthy? ==> !Flag(cfg, s.history) && Flips(cfg, s.history) == 2 * n)
      && (s.pc.Launching? ==> Flag(cfg, s.history) && Flips(cfg, s.history) == 2 * n + 1)
      && (s.pc.Watching? ==> Flag(cfg, s.history) && Flips(cfg, s.history) == 2 * n - 1)
      && (s.pc.Killing? || s.pc.Restarting? ==> !Flag(cfg, s.history) && Flips(cfg, s.history) == 2 * n)
      && (s.pc.Ended? ==> Flips(cfg, s.history) == 2 * n || Flips(cfg, s.history) == 2 * n - 1)
  }

  /** The supervisor's own part of the invariant. */
  ghost predicate Steady(s: State) {
    && SignalsOk(s)
    && FlagOk(s)
    && (s.pc.Ended? ==> s.stop)
  }

  ghost predicate Inv(s: State) {
    Pool.Inv(s.pool) && Steady(s)
  }

  lemma ReportKeepsSteady(s: State, step: Step)
    requires Steady(s) && Enabled(s, step) && step.Report?
    ensures Steady(Apply(s, step))
  {
  }

  lemma SignalStepKeepsSteady(s: State, step: Step)
    requires Steady(s) && Enabled(s, step) && (step.Launch? || step.Kill? || step.Restart? || step.ObserveStop?)
    ensures Steady(Apply(s, step))
  {
  }

  lemma InnerKeepsSteady(s: State, p: Pool.Step)
    requires Steady(s) && Enabled(s, Inner(p))
    ensures Steady(Apply(s, Inner(p)))
  {
    InnerKeepsSignals(s.pool, p);
  }

  lemma StepKeepsPool(s: State, step: Step)
    requires Pool.Inv(s.pool) && Enabled(s, step)
    ensures Pool.Inv(Apply(s, step).pool)
  {
    match step
    case Launch => Pool.StepKeepsInv(s.pool, Pool.StartGeneration);
    case Kill => Pool.StepKeepsInv(s.pool, Pool.FireSignal(Last(s)));
    case Restart => Pool.StepKeepsInv(s.pool, Pool.DropSender(Last(s)));
    case ObserveStop =>
      if s.pc.Watching? {
        Pool.StepKeepsInv(s.pool, Pool.DropSender(Last(s)));
      }
    case Inner(p) => Pool.StepKeepsInv(s.pool, p);
    case _ =>
  }

  lemma StepKeepsSteady(s: State, step: Step)
    requires Steady(s) && Enabled(s, step)
    ensures Steady(Apply(s, step))
  {
    match step
    case Report(_, _) => ReportKeepsSteady(s, step);
    case NoCheck =>
    case RequestStop =>
    case Inner(p) => InnerKeepsSteady(s, p);
    case _ => SignalStepKeepsSteady(s, step);
  }

  lemma InnerKeepsSignals(pool: Pool.State, p: Pool.Step)
    requires IsInner(p) && Pool.Enabled(pool, p)
    ensures var pool' := Pool.Apply(pool, p);
            && |pool'.gens| == |pool.gens|
            && forall g :: 0 <= g < |pool.gens| ==> pool'.gens[g].signal == pool.gens[g].signal
  {
  }

  lemma {:induction false} RunKeepsInv(s: State, steps: seq<Step>)
    requires Inv(s) && Valid(s, steps)
    ensures Inv(Run(s, steps))
    ensures Run(s, steps).check == s.check
    decreases |steps|
  {
    if steps != [] {
      StepKeepsPool(s, steps[0]);
      StepKeepsSteady(s, steps[0]);
      RunKeepsInv(Apply(s, steps[0]), steps[1..]);
    }
  }

  // ---------------------------------------------------------------- theorems

  /** A generation is open while nothing has told its connections to stop. */
  predicate Open(gen: Pool.Generation) {
    !gen.signal.Settled()
  }

  /** At most one generation is open, namely the newest; every earlier one has fired. When the
      supervisor has ended it has seen the stop request, and every generation it ever started is
      fired or closed, so every wait on its signal returns. */
  lemma OneGenerationAtATime(check: Option<Thresholds>, limits: Pool.Limits, steps: seq<Step>)
    requires Valid(Init(check, limits), steps)
    ensures var s := Run(Init(check, limits), steps);
            && Pool.Inv(s.pool)
            && (forall g :: 0 <= g < |s.pool.gens| - 1 ==> s.pool.gens[g].signal.fired)
            && ((exists g :: 0 <= g < |s.pool.gens| && Open(s.pool.gens[g])) <==> s.pc.Watching? || s.pc.Killing?)
            && (s.pc.Ended? ==> s.stop && forall g :: 0 <= g < |s.pool.gens| ==> s.pool.gens[g].signal.Settled())
            && (check.None? ==> |s.pool.gens| <= 1)
  {
    RunKeepsInv(Init(check, limits), steps);
    OnlyTheNewestIsOpen(Run(Init(check, limits), steps));
  }

  lemma OnlyTheNewestIsOpen(s: State)
    requires SignalsOk(s)
    ensures (exists g :: 0 <= g < |s.pool.gens| && Open(s.pool.gens[g])) <==> s.pc.Watching? || s.pc.Killing?
    ensures s.pc.Ended? ==> forall g :: 0 <= g < |s.pool.gens| ==> s.pool.gens[g].signal.Settled()
  {
  }

  /** With a health check configured, the flag is true from the launch of a generation until it is
      found unhealthy, and false whenever the supervisor is waiting for health. */
  lemma SupervisorAgreesWithHealth(cfg: Thresholds, limits: Pool.Limits, steps: seq<Step>)
    requires Valid(Init(Some(cfg), limits), steps)
    ensures var s := Run(Init(Some(cfg), limits), steps);
            && (s.pc.Launching? || s.pc.Watching? ==> Flag(cfg, s.history))
            && (s.pc.AwaitingHealthy? || s.pc.Killing? || s.pc.Restarting? ==> !Flag(cfg, s.history))
  {
    RunKeepsInv(Init(Some(cfg), limits), steps);
  }

  /** Restart rate: starting n generations takes at least n*healthy + (n-1)*unhealthy check
      results, however the checks, stops and connections interleave. */
  lemma GenerationsNeedReports(cfg: Thresholds, limits: Pool.Limits, steps: seq<Step>)
    requires Damped(cfg)
    requires Valid(Init(Some(cfg), limits), steps)
    requires Run(Init(Some(cfg), limits), steps).pool.gens != []
    ensures var s := Run(Init(Some(cfg), limits), steps);
            var n := |s.pool.gens|;
            |s.history| >= n * cfg.healthy as nat + (n - 1) * cfg.unhealthy as nat
  {
    RunKeepsInv(Init(Some(cfg), limits), steps);
    var s := Run(Init(Some(cfg), limits), steps);
    RisesNeedReports(cfg, s.history, |s.pool.gens|);
  }

  /** The end is final: no generation is started after it, whatever still runs. */
  lemma {:induction false} EndIsFinal(s: State, steps: seq<Step>)
    requires s.pc.Ended? && Valid(s, steps)
    ensures Run(s, steps).pc.Ended? && |Run(s, steps).pool.gens| == |s.pool.gens|
    decreases |steps|
  {
    if steps != [] {
      if steps[0].Inner? {
        InnerKeepsSignals(s.pool, steps[0].step);
      }
      EndIsFinal(Apply(s, steps[0]), steps[1..]);
    }
  }

  // ---------------------------------------------------------------- clean shutdown

  ghost predicate Drained(pool: Pool.State) {
    forall g :: 0 <= g < |pool.gens| ==> pool.gens[g].loop.Dropped? && PoolSafety.AllDone(pool.gens[g])
  }

  ghost predicate AllSettled(pool: Pool.State) {
    forall g :: 0 <= g < |pool.gens| ==> pool.gens[g].signal.Settled()
  }

  ghost predicate AllInner(steps: seq<Pool.Step>) {
    forall k :: 0 <= k < |steps| ==> IsInner(steps[k])
  }

  /** A loop is dropped, or a task goes on unaided. */
  predicate WindsDown(p: Pool.Step) {
    p.DropLoop? || Unaided(p)
  }

  ghost predicate AllWindDown(steps: seq<Pool.Step>) {
    forall k :: 0 <= k < |steps| ==> WindsDown(steps[k])
  }

  /** The loop and the unfinished tasks a generation still has. */
  ghost function AliveIn(gen: Pool.Generation): int {
    Count(gen.tasks, Pool.HoldsMax) + Bit(!gen.loop.Dropped?)
  }

  lemma DropOne(pool: Pool.State, g: nat) returns (steps: seq<Pool.Step>)
    requires Pool.Inv(pool) && AllSettled(pool) && g < |pool.gens| && !pool.gens[g].loop.Dropped?
    ensures Pool.Valid(pool, steps) && AllWindDown(steps)
    ensures var pool' := Pool.Run(pool, steps);
            Pool.Inv(pool') && AllSettled(pool') && Sum(pool'.gens, AliveIn) == Sum(pool.gens, AliveIn) - 1
  {
    steps := PoolSafety.Then(pool, [], Pool.DropLoop(g));
    Pool.StepKeepsInv(pool, Pool.DropLoop(g));
    SumUpdate(pool.gens, g, Pool.Apply(pool, Pool.DropLoop(g)).gens[g], AliveIn);
  }

  lemma FinishOne(pool: Pool.State, g: nat, i: nat) returns (steps: seq<Pool.Step>)
    requires Pool.Inv(pool) && AllSettled(pool) && g < |pool.gens| && i < |pool.gens[g].tasks|
    requires !pool.gens[g].tasks[i].phase.Done?
    ensures Pool.Valid(pool, steps) && AllWindDown(steps)
    ensures var pool' := Pool.Run(pool, steps);
            Pool.Inv(pool') && AllSettled(pool') && Sum(pool'.gens, AliveIn) == Sum(pool.gens, AliveIn) - 1
  {
    var u;
    steps, u := Finish(pool, g, i);
    var pool' := Pool.Run(pool, steps);
    CountUpdate(pool.gens[g].tasks, i, u, Pool.HoldsMax);
    assert AliveIn(pool'.gens[g]) == AliveIn(pool.gens[g]) - 1;
    assert pool'.gens == pool.gens[g := pool'.gens[g]];
    SumUpdate(pool.gens, g, pool'.gens[g], AliveIn);
  }

  lemma {:induction false} DrainAll(pool: Pool.State) returns (steps: seq<Pool.Step>)
    requires Pool.Inv(pool) && AllSettled(pool)
    ensures Pool.Valid(pool, steps) && AllWindDown(steps)
    ensures Pool.Inv(Pool.Run(pool, steps)) && Drained(Pool.Run(pool, steps))
    decreases Sum(pool.gens, AliveIn)
  {
    if Drained(pool) {
      steps := [];
    } else {
      SumNonNegative(pool.gens, AliveIn);
      var g :| 0 <= g < |pool.gens| && !(pool.gens[g].loop.Dropped? && PoolSafety.AllDone(pool.gens[g]));
      var first;
      if !pool.gens[g].loop.Dropped? {
        first := DropOne(pool, g);
      } else {
        var i :| 0 <= i < |pool.gens[g].tasks| && !pool.gens[g].tasks[i].phase.Done?;
        first := FinishOne(pool, g, i);
      }
      var rest := DrainAll(Pool.Run(pool, first));
      PoolSafety.RunConcat(pool, first, rest);
      steps := first + rest;
    }
  }

  function Lifted(steps: seq<Pool.Step>): seq<Step> {
    seq(|steps|, k requires 0 <= k < |steps| => Inner(steps[k]))
  }

  lemma {:induction false} LiftRun(s: State, steps: seq<Pool.Step>)
    requires Pool.Valid(s.pool, steps) && AllInner(steps)
    ensures Valid(s, Lifted(steps))
    ensures AllWindDown(steps) ==> SelfDriven(Lifted(steps))
    ensures Run(s, Lifted(steps)) == s.(pool := Pool.Run(s.pool, steps))
    decreases |steps|
  {
    if steps != [] {
      assert Lifted(steps)[1..] == Lifted(steps[1..]);
      assert IsInner(steps[0]);
      LiftRun(Apply(s, Inner(steps[0])), steps[1..]);
    }
  }

  /** Once asked to stop, the supervisor can end without another check result. */
  lemma StopEnds(s: State) returns (steps: seq<Step>)
    requires Inv(s) && s.stop
    ensures Valid(s, steps) && SelfDriven(steps) && Run(s, steps).pc.Ended?
  {
    steps := [];
    if s.pc.Launching? {
      steps := Then(s, steps, Launch);
    }
    if s.pc.Killing? {
      steps := Then(s, steps, Kill);
    }
    if s.pc.Killing? || s.pc.Restarting? {
      steps := Then(s, steps, Restart);
    }
    if !s.pc.Ended? {
      steps := Then(s, steps, ObserveStop);
    }
  }

  ghost predicate NoStops(steps: seq<Step>) {
    forall k :: 0 <= k < |steps| ==> !steps[k].RequestStop?
  }

  /** Steps that need no check result, no further stop request and nobody at the other end of a
      connection. */
  ghost predicate SelfDriven(steps: seq<Step>) {
    forall k :: 0 <= k < |steps| ==>
      !steps[k].Report? && !steps[k].RequestStop? && (steps[k].Inner? ==> WindsDown(steps[k].step))
  }

  /** The supervisor has ended, every loop is gone, every task done, every permit back and both
      counters read zero. */
  ghost predicate ShutDown(s: State) {
    && s.pc.Ended?
    && Drained(s.pool)
    && s.pool.idle == 0
    && s.pool.active == 0
    && (forall g :: 0 <= g < |s.pool.gens| ==>
          && s.pool.gens[g].maxFree == s.pool.limits.maxconns
          && s.pool.gens[g].idleFree == s.pool.limits.idleconns)
  }

  /** From any state in which a stop was requested the endpoint can shut down by itself. */
  lemma StopShutsDown(s: State) returns (more: seq<Step>)
    requires Inv(s) && s.stop
    ensures Valid(s, more) && SelfDriven(more) && ShutDown(Run(s, more))
  {
    var end := StopEnds(s);
    RunKeepsInv(s, end);
    var ended := Run(s, end);
    OnlyTheNewestIsOpen(ended);
    var inner := DrainAll(ended.pool);
    assert AllInner(inner);
    LiftRun(ended, inner);
    RunConcat(s, end, Lifted(inner));
    more := end + Lifted(inner);
    DrainedIsClean(Pool.Run(ended.pool, inner));
  }

  /** Clean shutdown: from every reachable state, a stop request can be carried through. With no check
      result, no answer and no hang-up of either end of any connection, the supervisor ends and the
      pool is drained. */
  lemma ShutdownCanComplete(check: Option<Thresholds>, limits: Pool.Limits, steps: seq<Step>)
    returns (more: seq<Step>)
    requires Valid(Init(check, limits), steps)
    ensures var s := Run(Init(check, limits), steps);
            && Valid(s, [RequestStop] + more)
            && SelfDriven(more)
            && ShutDown(Run(s, [RequestStop] + more))
  {
    RunKeepsInv(Init(check, limits), steps);
    var s := Run(Init(check, limits), steps);
    var stop := Then(s, [], RequestStop);
    RunKeepsInv(s, stop);
    more := StopShutsDown(Run(s, stop));
    RunConcat(s, stop, more);
  }

  lemma DrainedIsClean(pool: Pool.State)
    requires Pool.Inv(pool) && Drained(pool)
    ensures pool.idle == 0 && pool.active == 0
    ensures forall g :: 0 <= g < |pool.gens| ==>
              pool.gens[g].maxFree == pool.limits.maxconns && pool.gens[g].idleFree == pool.limits.idleconns
  {
    forall g | 0 <= g < |pool.gens|
      ensures pool.gens[g].maxFree == pool.limits.maxconns && pool.gens[g].idleFree == pool.limits.idleconns
      ensures Pool.IdleIn(pool.gens[g]) == 0 && Pool.ActiveIn(pool.gens[g]) == 0
    {
      assert Pool.GenOk(pool.limits, pool.now, pool.gens[g]);
      CountNone(pool.gens[g].tasks, Pool.HoldsMax);
      CountNone(pool.gens[g].tasks, Pool.HoldsIdle);
      CountNone(pool.gens[g].tasks, Pool.InIdle);
      CountNone(pool.gens[g].tasks, Pool.InActive);
    }
    PoolSafety.SumAtMostOne(pool.gens, Pool.IdleIn, |pool.gens|, 0);
    PoolSafety.SumAtMostOne(pool.gens, Pool.ActiveIn, |pool.gens|, 0);
  }

  ghost predicate LoopsGone(pool: Pool.State) {
    forall g :: 0 <= g < |pool.gens| ==> pool.gens[g].loop.Dropped?
  }

  predicate MovesATask(step: Step) {
    step.Inner? && step.step.Advance?
  }

  /** And nothing can prolong it: once the supervisor has ended and its loops are gone, no schedule
      makes more task moves than the tasks then had left, for no new connection appears. */
  lemma {:induction false} ShutdownIsBounded(s: State, steps: seq<Step>)
    requires s.pc.Ended? && LoopsGone(s.pool) && Valid(s, steps)
    ensures Count(steps, MovesATask) <= TotalRank(s.pool)
    decreases |steps|
  {
    if steps == [] {
      RanksAreNonNegative(s.pool);
    } else {
      var s1 := Apply(s, steps[0]);
      if MovesATask(steps[0]) {
        AdvanceLowersTotal(s.pool, steps[0].step);
      } else {
        assert s1.pool.gens == s.pool.gens;
      }
      ShutdownIsBounded(s1, steps[1..]);
      CountHead(steps, MovesATask);
    }
  }

  // ---------------------------------------------------------------- building runs

  lemma {:induction false} RunConcat(s: State, a: seq<Step>, b: seq<Step>)
    requires Valid(s, a) && Valid(Run(s, a), b)
    ensures Valid(s, a + b) && Run(s, a + b) == Run(Run(s, a), b)
    decreases |a|
  {
    if a == [] {
      assert a + b == b;
    } else {
      assert (a + b)[1..] == a[1..] + b;
      RunConcat(Apply(s, a[0]), a[1..], b);
    }
  }

  lemma Then(s: State, steps: seq<Step>, step: Step) returns (longer: seq<Step>)
    requires Valid(s, steps) && Enabled(Run(s, steps), step)
    ensures longer == steps + [step]
    ensures Valid(s, longer) && Run(s, longer) == Apply(Run(s, steps), step)
  {
    longer := steps + [step];
    RunConcat(s, steps, [step]);
    assert Valid(Run(s, steps), [step]);
  }

  // ---------------------------------------------------------------- the exact restart rate

  /** The supervisor has acted on every result so far. */
  predicate Settled(s: State) {
    s.pc.AwaitingHealthy? || s.pc.Watching?
  }

  /** Then it has started one generation for every rise of the flag. */
  lemma GenerationsAreRises(cfg: Thresholds, limits: Pool.Limits, steps: seq<Step>)
    requires Valid(Init(Some(cfg), limits), steps) && Settled(Run(Init(Some(cfg), limits), steps))
    ensures var s := Run(Init(Some(cfg), limits), steps); |s.pool.gens| == (Flips(cfg, s.history) + 1) / 2
  {
    RunKeepsInv(Init(Some(cfg), limits), steps);
  }

  /** Acting on the last result. */
  lemma ActedOn(s: State) returns (steps: seq<Step>)
    requires Steady(s) && !s.pc.Restarting? && !s.pc.Ended?
    ensures Valid(s, steps) && Settled(Run(s, steps)) && Run(s, steps).history == s.history
  {
    steps := [];
    if s.pc.Launching? {
      steps := Then(s, steps, Launch);
    } else if s.pc.Killing? {
      steps := Then(s, steps, Kill);
      steps := Then(s, steps, Restart);
    }
  }

  lemma TellOne(s: State, c: Check) returns (steps: seq<Step>)
    requires Inv(s) && Settled(s) && s.check.Some?
    ensures Valid(s, steps) && Settled(Run(s, steps)) && Run(s, steps).history == s.history + [c]
  {
    var report := Then(s, [], Report(c.ok, c.time));
    RunKeepsInv(s, report);
    var act := ActedOn(Run(s, report));
    RunConcat(s, report, act);
    steps := report + act;
  }

  /** `steps` is a run on which the supervisor was told `history` and has acted on all of it. */
  ghost predicate Tells(cfg: Thresholds, limits: Pool.Limits, steps: seq<Step>, history: seq<Check>) {
    && Valid(Init(Some(cfg), limits), steps)
    && Settled(Run(Init(Some(cfg), limits), steps))
    && Run(Init(Some(cfg), limits), steps).history == history
  }

  lemma TellNext(cfg: Thresholds, limits: Pool.Limits, before: seq<Step>, history: seq<Check>, c: Check)
    returns (steps: seq<Step>)
    requires Tells(cfg, limits, before, history)
    ensures Tells(cfg, limits, steps, history + [c])
  {
    var start := Init(Some(cfg), limits);
    RunKeepsInv(start, before);
    var more := TellOne(Run(start, before), c);
    RunConcat(start, before, more);
    steps := before + more;
  }

  lemma {:induction false} TellAll(cfg: Thresholds, limits: Pool.Limits, history: seq<Check>)
    returns (steps: seq<Step>)
    ensures Tells(cfg, limits, steps, history)
    decreases |history|
  {
    steps := [];
    if history != [] {
      var k := |history| - 1;
      var before := TellAll(cfg, limits, history[..k]);
      steps := TellNext(cfg, limits, before, history[..k], history[k]);
      assert history == history[..k] + [history[k]];
    }
  }

  /** Every history can be what a supervisor is told, and a supervisor that acts at once has then
      started one generation for every rise of the flag. */
  lemma Told(cfg: Thresholds, limits: Pool.Limits, history: seq<Check>) returns (steps: seq<Step>)
    ensures Tells(cfg, limits, steps, history)
    ensures |Run(Init(Some(cfg), limits), steps).pool.gens| == (Flips(cfg, history) + 1) / 2
  {
    steps := TellAll(cfg, limits, history);
    GenerationsAreRises(cfg, limits, steps);
  }

  ghost predicate RestartsAreRated(cfg: Thresholds, s: State) {
    var n := |s.pool.gens|;
    n > 0 ==> |s.history| >= n * cfg.healthy as nat + (n - 1) * cfg.unhealthy as nat
  }

  /** A history with too few results for its rises gives a run that restarts too fast. */
  lemma TooFewResults(cfg: Thresholds, limits: Pool.Limits, history: seq<Check>, n: nat) returns (steps: seq<Step>)
    requires n > 0 && (Flips(cfg, history) + 1) / 2 == n
    requires |history| < n * cfg.healthy as nat + (n - 1) * cfg.unhealthy as nat
    ensures Valid(Init(Some(cfg), limits), steps)
    ensures !RestartsAreRated(cfg, Run(Init(Some(cfg), limits), steps))
  {
    steps := Told(cfg, limits, history);
  }

  /** With one threshold zero and the other above 2, results of one kind restart it faster. */
  lemma RestartsTooFast(cfg: Thresholds, limits: Pool.Limits) returns (steps: seq<Step>)
    requires !Damped(cfg)
    ensures Valid(Init(Some(cfg), limits), steps)
    ensures !RestartsAreRated(cfg, Run(Init(Some(cfg), limits), steps))
  {
    var h, u := cfg.healthy as nat, cfg.unhealthy as nat;
    if h == 0 {
      FailuresFlap(cfg, u + 5);
      steps := TooFewResults(cfg, limits, Repeated(false, u + 5), 4);
    } else {
      SuccessesFlap(cfg, h + 2);
      steps := TooFewResults(cfg, limits, Repeated(true, h + 2), 2);
    }
  }

  /** Restart rate: that n generations take n*healthy + (n-1)*unhealthy check results holds on every
      run if and only if both thresholds are positive or neither exceeds 2. */
  lemma RestartRateIff(cfg: Thresholds, limits: Pool.Limits)
    ensures (forall steps :: Valid(Init(Some(cfg), limits), steps) ==>
               RestartsAreRated(cfg, Run(Init(Some(cfg), limits), steps)))
       <==> Damped(cfg)
  {
    if Damped(cfg) {
      forall steps | Valid(Init(Some(cfg), limits), steps)
        ensures RestartsAreRated(cfg, Run(Init(Some(cfg), limits), steps))
      {
        if Run(Init(Some(cfg), limits), steps).pool.gens != [] {
          GenerationsNeedReports(cfg, limits, steps);
        }
      }
    } else {
      var steps := RestartsTooFast(cfg, limits);
    }
  }
}
