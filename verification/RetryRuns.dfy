/** The retry rate is exact: for every kind of failing attempt and all usable limits there are runs
    of one generation that retry as fast as the bound of `PoolSafety.RetryRate` allows. */
module RetryRuns {
  import opened Counting
  import Pool
  import PoolSafety
  import opened Supervisor
  import opened SharedCounters

  /** An attempt of a kind that began and failed at `at`, and now serves its first back-off. */
  predicate Sleeping(t: Pool.Task, kind: PoolSafety.Kind, at: nat) {
    && kind.Includes(t) && t.started == at
    && t.phase == match kind
                  case WithoutTraffic => Pool.MinBackoff(at)
                  case WasRefused => Pool.BadBackoff(at)
                  case NeverServed => Pool.LocalBackoff(at)
  }

  /** A failed local connect has given its idle permit back already. */
  function IdleKept(kind: PoolSafety.Kind): int {
    if kind.NeverServed? then 0 else 1
  }

  lemma StartOne(pool: Pool.State, m: nat, i: nat, tasks: seq<Pool.Task>, kind: PoolSafety.Kind)
    returns (steps: seq<Pool.Step>, t: Pool.Task)
    requires Newest(pool, m, i, tasks) && m >= 1 && i >= 1
    ensures Pool.Valid(pool, steps) && AllInner(steps) && Sleeping(t, kind, pool.now)
    ensures var pool' := Pool.Run(pool, steps);
            Counted(pool, 0, 0, pool') && Newest(pool', m - 1, i - IdleKept(kind), tasks + [t])
  {
    var j := |tasks|;
    var v := match kind case WithoutTraffic => Pool.Failed case WasRefused => Pool.Refused case NeverServed => Pool.Traffic;
    steps := SpawnOne(pool, m, i, tasks);
    var resolve;
    resolve, t := ResolveOne(Pool.Run(pool, steps), m - 1, i - 1, tasks, v);
    steps := AndThen(pool, steps, resolve);
    var proceed := MoveOne(Pool.Run(pool, steps), m - 1, i - 1, tasks + [t], j, Pool.Proceed);
    steps := AndThen(pool, steps, proceed);
    assert (tasks + [t])[j := Pool.Moved(t, pool.now, Pool.Proceed)] == tasks + [Pool.Moved(t, pool.now, Pool.Proceed)];
    t := Pool.Moved(t, pool.now, Pool.Proceed);
    if kind.NeverServed? {
      var down := MoveOne(Pool.Run(pool, steps), m - 1, i, tasks + [t], j, Pool.LocalDown);
      steps := AndThen(pool, steps, down);
      assert (tasks + [t])[j := Pool.Moved(t, pool.now, Pool.LocalDown)] == tasks + [Pool.Moved(t, pool.now, Pool.LocalDown)];
      t := Pool.Moved(t, pool.now, Pool.LocalDown);
    }
  }

  /** `n` attempts begin and fail at the same instant. */
  lemma {:induction false} StartMany(
      pool: Pool.State, m: nat, i: nat, tasks: seq<Pool.Task>, kind: PoolSafety.Kind, n: nat)
    returns (steps: seq<Pool.Step>, more: seq<Pool.Task>)
    requires Newest(pool, m, i, tasks) && n <= m && i >= 1 && (!kind.NeverServed? ==> n <= i)
    ensures Pool.Valid(pool, steps) && AllInner(steps)
    ensures |more| == n && forall j :: 0 <= j < n ==> Sleeping(more[j], kind, pool.now)
    ensures var pool' := Pool.Run(pool, steps);
            && Counted(pool, 0, 0, pool')
            && Newest(pool', m - n, if kind.NeverServed? then i else i - n, tasks + more)
    decreases n
  {
    if n == 0 {
      steps, more := [], [];
      assert tasks + more == tasks;
    } else {
      var rest;
      rest, more := StartMany(pool, m, i, tasks, kind, n - 1);
      var left := if kind.NeverServed? then i else i - (n - 1);
      var one, last := StartOne(Pool.Run(pool, rest), m - (n - 1), left, tasks + more, kind);
      steps := AndThen(pool, rest, one);
      assert tasks + more + [last] == tasks + (more + [last]);
      more := more + [last];
    }
  }

  // ---------------------------------------------------------------- sleeping it out

  function Part(n: nat, all: bool): nat {
    if all then n else 0
  }

  /** The tasks from `from` on all make the same move. */
  ghost predicate AllMoved(tasks: seq<Pool.Task>, from: nat, now: nat, mv: Pool.Move, tasks': seq<Pool.Task>) {
    && |tasks'| == |tasks|
    && (forall j :: 0 <= j < |tasks| && j < from ==> tasks'[j] == tasks[j])
    && (forall j :: 0 <= j < |tasks| && from <= j ==> tasks'[j] == Pool.Moved(tasks[j], now, mv))
  }

  lemma {:induction false} MoveAll(
      pool: Pool.State, m: nat, i: nat, tasks: seq<Pool.Task>, from: nat, mv: Pool.Move, back: bool)
    returns (steps: seq<Pool.Step>, tasks': seq<Pool.Task>)
    requires Newest(pool, m, i, tasks) && from <= |tasks|
    requires forall j :: from <= j < |tasks| ==>
               && Pool.CanMove(tasks[j], pool.now, false, mv)
               && Pool.IdlePermitsBack(tasks[j], mv) == Bit(back)
    ensures Pool.Valid(pool, steps) && AllInner(steps) && AllMoved(tasks, from, pool.now, mv, tasks')
    ensures var pool', n := Pool.Run(pool, steps), |tasks| - from;
            && pool'.now == pool.now && pool'.limits == pool.limits && |pool'.gens| == |pool.gens|
            && Newest(pool', m + Part(n, mv.Exit?), i + Part(n, back), tasks')
    decreases |tasks| - from
  {
    if from == |tasks| {
      steps, tasks' := [], tasks;
    } else {
      var first := MoveOne(pool, m, i, tasks, from, mv);
      var mid := tasks[from := Pool.Moved(tasks[from], pool.now, mv)];
      var rest;
      rest, tasks' := MoveAll(Pool.Run(pool, first), m + Part(1, mv.Exit?), i + Part(1, back), mid, from + 1, mv, back);
      steps := AndThen(pool, first, rest);
    }
  }

  lemma Later(pool: Pool.State, ms: nat) returns (steps: seq<Pool.Step>)
    ensures Pool.Valid(pool, steps) && AllInner(steps) && Pool.Run(pool, steps) == pool.(now := pool.now + ms)
  {
    steps := PoolSafety.Then(pool, [], Pool.Tick(ms));
  }

  /** The attempt is over and has left no trace but its timestamps. */
  predicate Rested(t: Pool.Task, kind: PoolSafety.Kind, t': Pool.Task) {
    t'.phase.Done? && kind.Includes(t') && t'.started == t.started
  }

  ghost predicate AllRested(tasks: seq<Pool.Task>, from: nat, kind: PoolSafety.Kind, tasks': seq<Pool.Task>) {
    && |tasks'| == |tasks|
    && (forall j :: 0 <= j < |tasks| && j < from ==> tasks'[j] == tasks[j])
    && (forall j :: 0 <= j < |tasks| && from <= j ==> Rested(tasks[j], kind, tasks'[j]))
  }

  /** Serves the last 5 s of its back-off. */
  predicate Dozing(t: Pool.Task, kind: PoolSafety.Kind, at: nat) {
    kind.Includes(t) && t.phase == if kind.NeverServed? then Pool.LocalBackoff(at) else Pool.MinBackoff(at)
  }

  lemma DozeAll(pool: Pool.State, m: nat, i: nat, tasks: seq<Pool.Task>, from: nat, kind: PoolSafety.Kind)
    returns (steps: seq<Pool.Step>, tasks': seq<Pool.Task>)
    requires Newest(pool, m, i, tasks) && from <= |tasks|
    requires forall j :: from <= j < |tasks| ==> Dozing(tasks[j], kind, pool.now)
    ensures Pool.Valid(pool, steps) && AllInner(steps) && AllRested(tasks, from, kind, tasks')
    ensures var pool', n := Pool.Run(pool, steps), |tasks| - from;
            && pool'.now == pool.now + 5_000 && pool'.limits == pool.limits && |pool'.gens| == |pool.gens|
            && Newest(pool', m + n, i + Part(n, !kind.NeverServed?), tasks')
  {
    var n, back := |tasks| - from, !kind.NeverServed?;
    var tick := Later(pool, 5_000);
    var late := Pool.Run(pool, tick);
    var wake, woken := MoveAll(late, m, i, tasks, from, Pool.Wake, back);
    var awake := Pool.Run(late, wake);
    var exit;
    exit, tasks' := MoveAll(awake, m, i + Part(n, back), woken, from, Pool.Exit, false);
    steps := AndThen(pool, tick, wake);
    steps := AndThen(pool, steps, exit);
  }

  /** After exactly the hold time of their kind, all that slept are done and their permits back. */
  lemma RestAll(pool: Pool.State, m: nat, i: nat, tasks: seq<Pool.Task>, from: nat, kind: PoolSafety.Kind)
    returns (steps: seq<Pool.Step>, tasks': seq<Pool.Task>)
    requires Newest(pool, m, i, tasks) && from <= |tasks|
    requires forall j :: from <= j < |tasks| ==> Sleeping(tasks[j], kind, pool.now)
    ensures Pool.Valid(pool, steps) && AllInner(steps) && AllRested(tasks, from, kind, tasks')
    ensures var pool', n := Pool.Run(pool, steps), |tasks| - from;
            && pool'.now == pool.now + kind.Hold() && pool'.limits == pool.limits && |pool'.gens| == |pool.gens|
            && Newest(pool', m + n, i + Part(n, !kind.NeverServed?), tasks')
  {
    if kind.WasRefused? {
      var tick := Later(pool, 55_000);
      var late := Pool.Run(pool, tick);
      var wake, woken := MoveAll(late, m, i, tasks, from, Pool.Wake, false);
      var doze;
      doze, tasks' := DozeAll(Pool.Run(late, wake), m, i, woken, from, kind);
      steps := AndThen(pool, tick, wake);
      steps := AndThen(pool, steps, doze);
    } else {
      steps, tasks' := DozeAll(pool, m, i, tasks, from, kind);
    }
  }

  // ---------------------------------------------------------------- round after round

  ghost predicate AllBegan(tasks: seq<Pool.Task>, kind: PoolSafety.Kind, now: nat) {
    forall j :: 0 <= j < |tasks| ==> !tasks[j].phase.Spawned? && kind.Includes(tasks[j]) && tasks[j].started <= now
  }

  /** One generation after `n` full rounds, with all permits back. */
  ghost predicate AfterRounds(pool: Pool.State, limits: Pool.Limits, kind: PoolSafety.Kind, n: nat, tasks: seq<Pool.Task>) {
    && pool.limits == limits && |pool.gens| == 1 && pool.now == n * kind.Hold()
    && Newest(pool, limits.maxconns, limits.idleconns, tasks)
    && |tasks| == kind.Permits(limits) * n
    && AllBegan(tasks, kind, pool.now)
  }

  lemma OneRound(pool: Pool.State, limits: Pool.Limits, kind: PoolSafety.Kind, n: nat, tasks: seq<Pool.Task>)
    returns (steps: seq<Pool.Step>, tasks': seq<Pool.Task>)
    requires Usable(limits) && AfterRounds(pool, limits, kind, n, tasks)
    ensures Pool.Valid(pool, steps) && AfterRounds(Pool.Run(pool, steps), limits, kind, n + 1, tasks')
  {
    var k := kind.Permits(limits);
    var start, more := StartMany(pool, limits.maxconns, limits.idleconns, tasks, kind, k);
    var rest;
    rest, tasks' := RestAll(Pool.Run(pool, start), limits.maxconns - k,
                            limits.idleconns - Part(k, !kind.NeverServed?), tasks + more, |tasks|, kind);
    steps := AndThen(pool, start, rest);
    NextProduct(n, kind.Hold());
    NextProduct(n, k);
  }

  lemma NextProduct(n: nat, x: nat)
    ensures (n + 1) * x == n * x + x && x * (n + 1) == x * n + x
  {
  }

  lemma {:induction false} Rounds(limits: Pool.Limits, kind: PoolSafety.Kind, n: nat)
    returns (steps: seq<Pool.Step>, tasks: seq<Pool.Task>)
    requires Usable(limits)
    ensures Pool.Valid(Pool.Init(limits), steps)
    ensures AfterRounds(Pool.Run(Pool.Init(limits), steps), limits, kind, n, tasks)
  {
    var start := Pool.Init(limits);
    if n == 0 {
      tasks := [];
      steps := PoolSafety.Then(start, [], Pool.StartGeneration);
    } else {
      var before, was := Rounds(limits, kind, n - 1);
      var more;
      more, tasks := OneRound(Pool.Run(start, before), limits, kind, n - 1, was);
      PoolSafety.RunConcat(start, before, more);
      steps := before + more;
    }
  }

  lemma {:induction false} CountAll<T>(ts: seq<T>, p: T -> bool)
    requires forall i :: 0 <= i < |ts| ==> p(ts[i])
    ensures Count(ts, p) == |ts|
  {
    if ts != [] {
      CountAll(ts[..|ts| - 1], p);
    }
  }

  /** The bound is reached: for every kind, all usable limits and every n there is a run of a single
      generation in which exactly permits * (n + 1) attempts of the kind begin within n hold times,
      which is what `PoolSafety.RetryRate` allows in that window. */
  lemma RetryRateIsReached(limits: Pool.Limits, kind: PoolSafety.Kind, n: nat) returns (steps: seq<Pool.Step>)
    requires Usable(limits)
    ensures Pool.Valid(Pool.Init(limits), steps)
    ensures |Pool.Run(Pool.Init(limits), steps).gens| == 1
    ensures Count(Pool.Run(Pool.Init(limits), steps).gens[0].tasks, PoolSafety.Began(kind, 0, n * kind.Hold() + 1))
         == kind.Permits(limits) * (n + 1)
  {
    var k := kind.Permits(limits);
    var before, tasks := Rounds(limits, kind, n);
    var pool := Pool.Run(Pool.Init(limits), before);
    var start, more := StartMany(pool, limits.maxconns, limits.idleconns, tasks, kind, k);
    PoolSafety.RunConcat(Pool.Init(limits), before, start);
    steps := before + start;
    CountAll(tasks + more, PoolSafety.Began(kind, 0, n * kind.Hold() + 1));
    NextProduct(n, k);
  }
}
