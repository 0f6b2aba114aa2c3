/** What the two shared counters of an endpoint can show. `maxconns` bounds the connections of one
    generation; whether it also bounds the counters, which all generations share, and whether a
    status request that reads them one after the other stays within it, is decided here exactly. */
module SharedCounters {
  import opened Counting
  import opened Wrappers
  import opened Health
  import Pool
  import PoolSafety
  import opened Supervisor

  function Min(a: nat, b: nat): nat {
    if a < b then a else b
  }

  predicate Usable(limits: Pool.Limits) {
    limits.idleconns >= 1 && limits.maxconns >= 1
  }

  // ---------------------------------------------------------------- upper bounds

  lemma {:induction false} LimitsAreFixed(s: State, steps: seq<Step>)
    requires Valid(s, steps)
    ensures Run(s, steps).pool.limits == s.pool.limits
    decreases |steps|
  {
    if steps != [] {
      LimitsAreFixed(Apply(s, steps[0]), steps[1..]);
    }
  }

  /** Every generation contributes at most its own limits, and nothing if a limit is zero. */
  lemma CountersAreBounded(pool: Pool.State)
    requires Pool.Inv(pool)
    ensures pool.idle + pool.active <= |pool.gens| * pool.limits.maxconns
    ensures 0 <= pool.idle <= |pool.gens| * Min(pool.limits.idleconns, pool.limits.maxconns)
    ensures 0 <= pool.active
    ensures !Usable(pool.limits) ==> pool.idle == 0 && pool.active == 0
  {
    var limits := pool.limits;
    var high := if Usable(limits) then limits.maxconns else 0;
    forall g | 0 <= g < |pool.gens|
      ensures 0 <= PoolSafety.OpenIn(pool.gens[g]) <= high
      ensures 0 <= Pool.ActiveIn(pool.gens[g]) <= high
      ensures 0 <= Pool.IdleIn(pool.gens[g]) <= Min(limits.idleconns, limits.maxconns)
    {
      assert Pool.GenOk(limits, pool.now, pool.gens[g]);
      PoolSafety.GenerationBounds(limits, pool.gens[g]);
    }
    PoolSafety.SumOfSums(pool.gens);
    SumBounds(pool.gens, PoolSafety.OpenIn, high);
    SumBounds(pool.gens, Pool.ActiveIn, high);
    SumBounds(pool.gens, Pool.IdleIn, Min(limits.idleconns, limits.maxconns));
  }

  lemma ReachableIsBounded(check: Option<Thresholds>, limits: Pool.Limits, steps: seq<Step>)
    requires Valid(Init(check, limits), steps)
    ensures var pool := Run(Init(check, limits), steps).pool;
            && pool.idle + pool.active <= |pool.gens| * limits.maxconns
            && 0 <= pool.idle <= |pool.gens| * Min(limits.idleconns, limits.maxconns)
            && 0 <= pool.active
            && (check.None? ==> |pool.gens| <= 1)
            && (!Usable(limits) ==> pool.idle == 0 && pool.active == 0)
  {
    OneGenerationAtATime(check, limits, steps);
    LimitsAreFixed(Init(check, limits), steps);
    CountersAreBounded(Run(Init(check, limits), steps).pool);
  }

  // ---------------------------------------------------------------- filling a generation

  /** The newest generation runs, its loop is about to acquire, and this is what it has. */
  ghost predicate Newest(pool: Pool.State, maxFree: int, idleFree: int, tasks: seq<Pool.Task>) {
    && pool.gens != []
    && pool.gens[|pool.gens| - 1] == Pool.Generation(Pool.Signal(false, true), maxFree, idleFree, Pool.WantMax, tasks)
  }

  ghost function NewestOf(pool: Pool.State): Pool.Generation
    requires pool.gens != []
  {
    pool.gens[|pool.gens| - 1]
  }

  /** Limits, time and number of generations are the same, and the counters moved as said. */
  predicate Counted(pool: Pool.State, idle: int, active: int, pool': Pool.State) {
    && pool'.limits == pool.limits && pool'.now == pool.now && |pool'.gens| == |pool.gens|
    && pool'.idle == pool.idle + idle && pool'.active == pool.active + active
  }

  lemma SpawnOne(pool: Pool.State, m: nat, i: nat, tasks: seq<Pool.Task>) returns (steps: seq<Pool.Step>)
    requires Newest(pool, m, i, tasks) && m >= 1 && i >= 1
    ensures Pool.Valid(pool, steps) && AllInner(steps)
    ensures var pool' := Pool.Run(pool, steps);
            Counted(pool, 0, 0, pool') && Newest(pool', m - 1, i - 1, tasks + [Pool.NewTask()])
  {
    var k := |pool.gens| - 1;
    steps := PoolSafety.Then(pool, [], Pool.TakeMax(k));
    steps := PoolSafety.Then(pool, steps, Pool.TakeIdle(k));
    steps := PoolSafety.Then(pool, steps, Pool.Spawn(k));
  }

  /** Task `j` of the newest generation makes a move of its own. */
  lemma MoveOne(pool: Pool.State, m: int, i: int, tasks: seq<Pool.Task>, j: nat, mv: Pool.Move)
    returns (steps: seq<Pool.Step>)
    requires Newest(pool, m, i, tasks) && j < |tasks| && Pool.CanMove(tasks[j], pool.now, false, mv)
    ensures Pool.Valid(pool, steps) && AllInner(steps)
    ensures var pool' := Pool.Run(pool, steps);
            && Counted(pool, Pool.IdleDelta(mv), Pool.ActiveDelta(tasks[j], mv), pool')
            && Newest(pool', m + Pool.MaxPermitsBack(mv), i + Pool.IdlePermitsBack(tasks[j], mv),
                      tasks[j := Pool.Moved(tasks[j], pool.now, mv)])
  {
    steps := PoolSafety.Then(pool, [], Pool.Advance(|pool.gens| - 1, j, mv));
  }

  lemma AndThen(pool: Pool.State, a: seq<Pool.Step>, b: seq<Pool.Step>) returns (steps: seq<Pool.Step>)
    requires Pool.Valid(pool, a) && AllInner(a) && Pool.Valid(Pool.Run(pool, a), b) && AllInner(b)
    ensures Pool.Valid(pool, steps) && AllInner(steps)
    ensures Pool.Run(pool, steps) == Pool.Run(Pool.Run(pool, a), b)
  {
    PoolSafety.RunConcat(pool, a, b);
    steps := a + b;
  }

  /** A new task is answered with `v` at once. */
  lemma ResolveOne(pool: Pool.State, m: int, i: int, tasks: seq<Pool.Task>, v: Pool.Verdict)
    returns (steps: seq<Pool.Step>, t: Pool.Task)
    requires Newest(pool, m, i, tasks + [Pool.NewTask()]) && (v.Traffic? || v.Refused? || v.Failed?)
    ensures Pool.Valid(pool, steps) && AllInner(steps)
    ensures t == Pool.NewTask().(phase := Pool.Resolved, verdict := v, started := pool.now)
    ensures Counted(pool, 0, 0, Pool.Run(pool, steps)) && Newest(Pool.Run(pool, steps), m, i, tasks + [t])
  {
    var j, spawned := |tasks|, tasks + [Pool.NewTask()];
    var begin := MoveOne(pool, m, i, spawned, j, Pool.Begin);
    var begun := Pool.Run(pool, begin);
    var idle := tasks + [Pool.NewTask().(phase := Pool.Idle, started := pool.now)];
    assert spawned[j := Pool.Moved(spawned[j], pool.now, Pool.Begin)] == idle;
    var resolve := MoveOne(begun, m, i, idle, j, Pool.Resolve(v));
    steps := AndThen(pool, begin, resolve);
    t := Pool.Moved(idle[j], pool.now, Pool.Resolve(v));
    assert idle[j := t] == tasks + [t];
  }

  lemma ActivateOne(pool: Pool.State, m: nat, i: nat, tasks: seq<Pool.Task>)
    returns (steps: seq<Pool.Step>, t: Pool.Task)
    requires Newest(pool, m, i, tasks + [Pool.NewTask()])
    ensures Pool.Valid(pool, steps) && AllInner(steps) && t.phase.Active?
    ensures var pool' := Pool.Run(pool, steps);
            Counted(pool, 0, 1, pool') && Newest(pool', m, i + 1, tasks + [t])
  {
    var j := |tasks|;
    var resolve, t1 := ResolveOne(pool, m, i, tasks, Pool.Traffic);
    var pool1 := Pool.Run(pool, resolve);
    var proceed := MoveOne(pool1, m, i, tasks + [t1], j, Pool.Proceed);
    var pool2 := Pool.Run(pool1, proceed);
    var t2 := Pool.Moved(t1, pool.now, Pool.Proceed);
    assert (tasks + [t1])[j := t2] == tasks + [t2];
    var up := MoveOne(pool2, m, i + 1, tasks + [t2], j, Pool.LocalUp);
    t := Pool.Moved(t2, pool.now, Pool.LocalUp);
    assert (tasks + [t2])[j := t] == tasks + [t];
    proceed := AndThen(pool1, proceed, up);
    steps := AndThen(pool, resolve, proceed);
  }

  /** The newest generation brings `n` further connections to life. */
  lemma {:induction false} ConnectMany(pool: Pool.State, m: nat, i: nat, tasks: seq<Pool.Task>, n: nat)
    returns (steps: seq<Pool.Step>, more: seq<Pool.Task>)
    requires Newest(pool, m, i, tasks) && n <= m && i >= 1
    ensures Pool.Valid(pool, steps) && AllInner(steps)
    ensures |more| == n && forall j :: 0 <= j < n ==> more[j].phase.Active?
    ensures var pool' := Pool.Run(pool, steps);
            Counted(pool, 0, n, pool') && Newest(pool', m - n, i, tasks + more)
    decreases n
  {
    if n == 0 {
      steps, more := [], [];
      assert tasks + more == tasks;
    } else {
      var first := SpawnOne(pool, m, i, tasks);
      var pool1 := Pool.Run(pool, first);
      var second, t := ActivateOne(pool1, m - 1, i - 1, tasks);
      PoolSafety.RunConcat(pool, first, second);
      var pool2 := Pool.Run(pool1, second);
      var third, rest := ConnectMany(pool2, m - 1, i, tasks + [t], n - 1);
      PoolSafety.RunConcat(pool, first + second, third);
      steps, more := first + second + third, [t] + rest;
      assert tasks + more == tasks + [t] + rest;
    }
  }

  // ---------------------------------------------------------------- rising and falling

  /** Reporting `ok` often enough turns the flag, whatever the thresholds. */
  lemma {:induction false} ReportUntil(s: State, ok: bool) returns (steps: seq<Step>, history: seq<Check>)
    requires s.check.Some? && Flag(s.check.value, s.history) != ok
    requires if ok then s.pc.AwaitingHealthy? else s.pc.Watching?
    ensures Valid(s, steps) && NoStops(steps) && Flag(s.check.value, history) == ok
    ensures Run(s, steps) == s.(history := history, pc := if ok then Launching else Killing)
    decreases NextThreshold(s.check.value, s.history) - TrailingRun(s.history, ok)
  {
    history := s.history + [Check(ok, 0)];
    ReportAgainst(s.check.value, s.history, Check(ok, 0));
    steps := Then(s, [], Report(ok, 0));
    if Flag(s.check.value, history) != ok {
      var rest;
      rest, history := ReportUntil(Run(s, steps), ok);
      RunConcat(s, steps, rest);
      steps := steps + rest;
    }
  }

  ghost predicate Waits(s: State) {
    s.pc.AwaitingHealthy? && (s.check.Some? ==> !Flag(s.check.value, s.history))
  }

  /** A waiting supervisor can launch its next generation. */
  lemma LaunchNext(s: State) returns (steps: seq<Step>, history: seq<Check>)
    requires Waits(s)
    ensures Valid(s, steps) && NoStops(steps) && (s.check.Some? ==> Flag(s.check.value, history))
    ensures Run(s, steps) == s.(history := history, pc := Watching, pool := Pool.Apply(s.pool, Pool.StartGeneration))
  {
    history := s.history;
    if s.check.Some? {
      steps, history := ReportUntil(s, true);
    } else {
      steps := Then(s, [], NoCheck);
    }
    steps := Then(s, steps, Launch);
  }

  /** And fill it with `k` active connections. */
  lemma LaunchAndConnect(s: State, k: nat) returns (steps: seq<Step>, tasks: seq<Pool.Task>)
    requires Waits(s) && Usable(s.pool.limits) && k <= s.pool.limits.maxconns
    ensures Valid(s, steps) && NoStops(steps) && |tasks| == k && forall j :: 0 <= j < k ==> tasks[j].phase.Active?
    ensures var up := Run(s, steps);
            && up.check == s.check && up.pc.Watching?
            && (s.check.Some? ==> Flag(s.check.value, up.history))
            && Counted(Pool.Apply(s.pool, Pool.StartGeneration), 0, k, up.pool)
            && Newest(up.pool, s.pool.limits.maxconns - k, s.pool.limits.idleconns, tasks)
  {
    var first, _ := LaunchNext(s);
    var launched := Run(s, first);
    var inner;
    inner, tasks := ConnectMany(launched.pool, s.pool.limits.maxconns, s.pool.limits.idleconns, [], k);
    assert [] + tasks == tasks;
    LiftRun(launched, inner);
    RunConcat(s, first, Lifted(inner));
    steps := first + Lifted(inner);
  }

  /** A whole turn of the supervisor that leaves `k` connections of the old generation open. */
  lemma LeaveOpen(s: State, k: nat) returns (steps: seq<Step>)
    requires Waits(s) && s.check.Some? && Usable(s.pool.limits) && k <= s.pool.limits.maxconns
    ensures Valid(s, steps) && Waits(Run(s, steps)) && Run(s, steps).check == s.check
    ensures Counted(Pool.Apply(s.pool, Pool.StartGeneration), 0, k, Run(s, steps).pool)
  {
    var rise, _ := LaunchAndConnect(s, k);
    var fall, _ := ReportUntil(Run(s, rise), false);
    RunConcat(s, rise, fall);
    steps := rise + fall;
    steps := Then(s, steps, Kill);
    steps := Then(s, steps, Restart);
  }

  // ---------------------------------------------------------------- the counters together

  /** With a health check the counters grow with every generation: for any thresholds and usable
      limits, `n` generations can leave `k <= maxconns` connections each, all counted active at
      once. With k = 1 the active counter takes every value, with k = maxconns the bound
      `generations * maxconns` is reached. */
  lemma {:induction false} ActiveGrowsWithGenerations(cfg: Thresholds, limits: Pool.Limits, n: nat, k: nat)
    returns (steps: seq<Step>)
    requires Usable(limits) && k <= limits.maxconns
    ensures var start := Init(Some(cfg), limits);
            && Valid(start, steps)
            && Waits(Run(start, steps)) && Run(start, steps).check == Some(cfg)
            && |Run(start, steps).pool.gens| == n
            && Run(start, steps).pool.idle == 0
            && Run(start, steps).pool.active == n * k
  {
    var start := Init(Some(cfg), limits);
    steps := [];
    if n > 0 {
      var before := ActiveGrowsWithGenerations(cfg, limits, n - 1, k);
      LimitsAreFixed(start, before);
      var s := Run(start, before);
      var more := LeaveOpen(s, k);
      RunConcat(start, before, more);
      steps := before + more;
      assert (n - 1) * k + k == n * k;
    }
  }

  /** The shared counters respect maxconns on every run if and only if the endpoint has no health
      check or one of its limits is zero. */
  lemma CountersWithinMaxIff(check: Option<Thresholds>, limits: Pool.Limits)
    ensures (forall steps :: Valid(Init(check, limits), steps) ==>
               Run(Init(check, limits), steps).pool.idle + Run(Init(check, limits), steps).pool.active
               <= limits.maxconns)
       <==> check.None? || limits.idleconns == 0 || limits.maxconns == 0
  {
    if check.None? || !Usable(limits) {
      forall steps | Valid(Init(check, limits), steps)
        ensures Run(Init(check, limits), steps).pool.idle + Run(Init(check, limits), steps).pool.active
             <= limits.maxconns
      {
        ReachableIsBounded(check, limits, steps);
      }
    } else {
      var steps := ActiveGrowsWithGenerations(check.value, limits, 2, limits.maxconns);
      assert Run(Init(check, limits), steps).pool.active > limits.maxconns;
    }
  }

  // ---------------------------------------------------------------- status reads

  /** What a status request reports as connections: the active counter read in the first state, the
      idle counter in the second. */
  ghost function StatusRead(s: State, t: State): int {
    s.pool.active + t.pool.idle
  }

  /** A connection hangs up, and the next one becomes idle in its place. */
  lemma ReplaceOne(pool: Pool.State, i: nat, tasks: seq<Pool.Task>, j: nat)
    returns (steps: seq<Pool.Step>, tasks': seq<Pool.Task>)
    requires Newest(pool, 0, i, tasks) && i >= 1 && j < |tasks| && tasks[j].phase.Active?
    ensures Pool.Valid(pool, steps) && AllInner(steps)
    ensures |tasks'| == |tasks| + 1 && forall x :: j < x < |tasks| ==> tasks'[x] == tasks[x]
    ensures var pool' := Pool.Run(pool, steps);
            Counted(pool, 1, -1, pool') && Newest(pool', 0, i - 1, tasks')
  {
    var k := |pool.gens| - 1;
    steps := PoolSafety.Then(pool, [], Pool.Advance(k, j, Pool.Hangup));
    steps := PoolSafety.Then(pool, steps, Pool.Advance(k, j, Pool.Exit));
    var freed := Pool.Run(pool, steps);
    var spawn := SpawnOne(freed, 1, i, NewestOf(freed).tasks);
    PoolSafety.RunConcat(pool, steps, spawn);
    steps := PoolSafety.Then(pool, steps + spawn, Pool.Advance(k, |tasks|, Pool.Begin));
    tasks' := NewestOf(Pool.Run(pool, steps)).tasks;
  }

  lemma {:induction false} ReplaceMany(pool: Pool.State, i: nat, tasks: seq<Pool.Task>, j: nat, n: nat)
    returns (steps: seq<Pool.Step>)
    requires Newest(pool, 0, i, tasks) && n <= i && j + n <= |tasks|
    requires forall x :: j <= x < j + n ==> tasks[x].phase.Active?
    ensures Pool.Valid(pool, steps) && AllInner(steps)
    ensures Pool.Run(pool, steps).idle == pool.idle + n && |Pool.Run(pool, steps).gens| == |pool.gens|
    decreases n
  {
    steps := [];
    if n > 0 {
      var tasks';
      steps, tasks' := ReplaceOne(pool, i, tasks, j);
      var rest := ReplaceMany(Pool.Run(pool, steps), i - 1, tasks', j + 1, n - 1);
      PoolSafety.RunConcat(pool, steps, rest);
      steps := steps + rest;
    }
  }

  /** A torn read: with usable limits, a single generation can be seen with all its connections
      active and, an instant later, with as many idle as the limits allow. */
  lemma TornRead(check: Option<Thresholds>, limits: Pool.Limits) returns (before: seq<Step>, between: seq<Step>)
    requires Usable(limits)
    ensures var start := Init(check, limits);
            && Valid(start, before) && Valid(Run(start, before), between)
            && |Run(Run(start, before), between).pool.gens| == 1
            && StatusRead(Run(start, before), Run(Run(start, before), between))
               == limits.maxconns + Min(limits.idleconns, limits.maxconns)
  {
    var start := Init(check, limits);
    var tasks;
    before, tasks := LaunchAndConnect(start, limits.maxconns);
    var s := Run(start, before);
    var inner := ReplaceMany(s.pool, limits.idleconns, tasks, 0, Min(limits.idleconns, limits.maxconns));
    LiftRun(s, inner);
    between := Lifted(inner);
  }

  /** Status reads, exactly. A read never shows more than every generation's limits allow. Without a
      health check that is maxconns + min(idleconns, maxconns), which usable limits do reach; and it
      stays within maxconns on every pair of states if and only if one of the limits is zero. */
  lemma StatusReadsWithinMaxIff(check: Option<Thresholds>, limits: Pool.Limits)
    ensures (forall before, between ::
               Valid(Init(check, limits), before) && Valid(Run(Init(check, limits), before), between) ==>
                 StatusRead(Run(Init(check, limits), before), Run(Run(Init(check, limits), before), between))
                 <= limits.maxconns)
       <==> limits.idleconns == 0 || limits.maxconns == 0
  {
    if Usable(limits) {
      var before, between := TornRead(check, limits);
    } else {
      forall before, between
        | Valid(Init(check, limits), before) && Valid(Run(Init(check, limits), before), between)
        ensures StatusRead(Run(Init(check, limits), before), Run(Run(Init(check, limits), before), between))
             <= limits.maxconns
      {
        StatusReadsAreBounded(check, limits, before, between);
      }
    }
  }

  lemma StatusReadsAreBounded(check: Option<Thresholds>, limits: Pool.Limits, before: seq<Step>, between: seq<Step>)
    requires Valid(Init(check, limits), before) && Valid(Run(Init(check, limits), before), between)
    ensures var s := Run(Init(check, limits), before);
            var t := Run(s, between);
            && StatusRead(s, t) <= |s.pool.gens| * limits.maxconns
                                   + |t.pool.gens| * Min(limits.idleconns, limits.maxconns)
            && (check.None? ==> StatusRead(s, t) <= limits.maxconns + Min(limits.idleconns, limits.maxconns))
            && (!Usable(limits) ==> StatusRead(s, t) == 0)
  {
    RunConcat(Init(check, limits), before, between);
    ReachableIsBounded(check, limits, before);
    ReachableIsBounded(check, limits, before + between);
  }
}
