/** The retry rate of a whole endpoint: the attempts of all its generations together, over every run
    of its supervisor. The bound of one generation carries over exactly if a second generation can
    never come into play. */
module EndpointRate {
  import opened Counting
  import opened Wrappers
  import opened Health
  import Pool
  import PoolSafety
  import opened Supervisor
  import opened SharedCounters

  /** Attempts of a kind that a generation began in the closed window [from, from + w]. */
  ghost function BeganIn(kind: PoolSafety.Kind, from: nat, w: nat): Pool.Generation -> int {
    (gen: Pool.Generation) => Count(gen.tasks, PoolSafety.Began(kind, from, from + w + 1))
  }

  ghost function Attempts(s: State, kind: PoolSafety.Kind, from: nat, w: nat): int {
    Sum(s.pool.gens, BeganIn(kind, from, w))
  }

  /** What one generation is allowed in a window of `w` ms. */
  function Allowance(limits: Pool.Limits, kind: PoolSafety.Kind, w: nat): nat {
    kind.Permits(limits) * (w / kind.Hold() + 1)
  }

  lemma AttemptsInPool(pool: Pool.State, kind: PoolSafety.Kind, from: nat, w: nat, high: nat)
    requires Pool.Inv(pool)
    requires high == if Usable(pool.limits) then Allowance(pool.limits, kind, w) else 0
    ensures 0 <= Sum(pool.gens, BeganIn(kind, from, w)) <= |pool.gens| * high
  {
    forall g | 0 <= g < |pool.gens| ensures 0 <= BeganIn(kind, from, w)(pool.gens[g]) <= high {
      assert Pool.GenOk(pool.limits, pool.now, pool.gens[g]);
      PoolSafety.WindowBound(pool.limits, pool.now, pool.gens[g], kind, from, w);
    }
    SumBounds(pool.gens, BeganIn(kind, from, w), high);
  }

  /** Over every run of the supervisor, the attempts of all generations are within the allowance of
      each; without a health check that is the allowance of one, and with a zero limit there are none. */
  lemma AttemptsAreBounded(
      check: Option<Thresholds>, limits: Pool.Limits, steps: seq<Step>, kind: PoolSafety.Kind, from: nat, w: nat)
    requires Valid(Init(check, limits), steps)
    ensures var s := Run(Init(check, limits), steps);
            && Attempts(s, kind, from, w) <= |s.pool.gens| * Allowance(limits, kind, w)
            && (check.None? ==> Attempts(s, kind, from, w) <= Allowance(limits, kind, w))
            && (!Usable(limits) ==> Attempts(s, kind, from, w) == 0)
  {
    OneGenerationAtATime(check, limits, steps);
    LimitsAreFixed(Init(check, limits), steps);
    var pool := Run(Init(check, limits), steps).pool;
    var allowance := Allowance(limits, kind, w);
    var high := if Usable(limits) then allowance else 0;
    AttemptsInPool(pool, kind, from, w, high);
    Product(|pool.gens|, high, allowance);
  }

  lemma Product(n: nat, high: nat, allowance: nat)
    requires high == allowance || high == 0
    ensures n * high <= n * allowance
    ensures n <= 1 ==> n * high <= allowance
    ensures high == 0 ==> n * high == 0
  {
  }

  // ---------------------------------------------------------------- one refused attempt per generation

  /** An attempt that began at `at` and was refused counts for every kind. */
  predicate RefusedAt(t: Pool.Task, at: nat) {
    t.phase.Resolved? && t.verdict.Refused? && t.started == at && !t.served
  }

  /** Only the newest generation differs. */
  predicate OldUntouched(pool: Pool.State, pool': Pool.State) {
    && |pool'.gens| == |pool.gens| > 0 && pool'.now == pool.now
    && forall g :: 0 <= g < |pool.gens| - 1 ==> pool'.gens[g] == pool.gens[g]
  }

  lemma RefuseOne(pool: Pool.State, m: nat, i: nat) returns (steps: seq<Pool.Step>, t: Pool.Task)
    requires Newest(pool, m, i, []) && m >= 1 && i >= 1
    ensures Pool.Valid(pool, steps) && AllInner(steps) && RefusedAt(t, pool.now)
    ensures var pool' := Pool.Run(pool, steps);
            OldUntouched(pool, pool') && Newest(pool', m - 1, i - 1, [t])
  {
    var k := |pool.gens| - 1;
    steps := PoolSafety.Then(pool, [], Pool.TakeMax(k));
    steps := PoolSafety.Then(pool, steps, Pool.TakeIdle(k));
    steps := PoolSafety.Then(pool, steps, Pool.Spawn(k));
    steps := PoolSafety.Then(pool, steps, Pool.Advance(k, 0, Pool.Begin));
    steps := PoolSafety.Then(pool, steps, Pool.Advance(k, 0, Pool.Resolve(Pool.Refused)));
    t := NewestOf(Pool.Run(pool, steps)).tasks[0];
  }

  /** The supervisor finds the generation unhealthy, fires its signal and waits again. */
  lemma FallBack(s: State) returns (steps: seq<Step>)
    requires s.check.Some? && s.pc.Watching? && Flag(s.check.value, s.history)
    requires s.pool.gens != [] && NewestOf(s.pool).signal.senderAlive
    ensures Valid(s, steps) && Waits(Run(s, steps)) && Run(s, steps).check == s.check
    ensures OldUntouched(s.pool, Run(s, steps).pool)
    ensures NewestOf(Run(s, steps).pool).tasks == NewestOf(s.pool).tasks
  {
    var fall, _ := ReportUntil(s, false);
    steps := Then(s, fall, Kill);
    steps := Then(s, steps, Restart);
  }

  /** A generation starts, and its first attempt is refused at once. */
  lemma LaunchRefused(s: State) returns (steps: seq<Step>, t: Pool.Task)
    requires Waits(s) && s.check.Some? && Usable(s.pool.limits)
    ensures Valid(s, steps) && RefusedAt(t, s.pool.now)
    ensures var up := Run(s, steps);
            && up.check == s.check && up.pc.Watching? && Flag(s.check.value, up.history)
            && OldUntouched(Pool.Apply(s.pool, Pool.StartGeneration), up.pool)
            && NewestOf(up.pool).signal.senderAlive && NewestOf(up.pool).tasks == [t]
  {
    var rise, _ := LaunchNext(s);
    var launched := Run(s, rise);
    var inner;
    inner, t := RefuseOne(launched.pool, s.pool.limits.maxconns, s.pool.limits.idleconns);
    LiftRun(launched, inner);
    RunConcat(s, rise, Lifted(inner));
    steps := rise + Lifted(inner);
  }

  lemma GensGrow(pool: Pool.State, up: Pool.State, down: Pool.State)
    requires OldUntouched(Pool.Apply(pool, Pool.StartGeneration), up) && OldUntouched(up, down)
    ensures down.gens == pool.gens + [NewestOf(down)] && down.now == pool.now
  {
  }

  /** A whole turn of the supervisor adds a generation with one attempt, refused at once. */
  lemma RefusedTurn(s: State) returns (steps: seq<Step>, gen: Pool.Generation)
    requires Waits(s) && s.check.Some? && Usable(s.pool.limits)
    ensures Valid(s, steps) && Waits(Run(s, steps)) && Run(s, steps).check == s.check
    ensures Run(s, steps).pool.gens == s.pool.gens + [gen] && Run(s, steps).pool.now == s.pool.now
    ensures |gen.tasks| == 1 && RefusedAt(gen.tasks[0], s.pool.now)
  {
    var up, t := LaunchRefused(s);
    var risen := Run(s, up);
    var fall := FallBack(risen);
    RunConcat(s, up, fall);
    steps := up + fall;
    GensGrow(s.pool, risen.pool, Run(risen, fall).pool);
    gen := NewestOf(Run(s, steps).pool);
  }

  lemma OneBegan(gen: Pool.Generation, kind: PoolSafety.Kind)
    requires |gen.tasks| == 1 && RefusedAt(gen.tasks[0], 0)
    ensures BeganIn(kind, 0, 0)(gen) == 1
  {
    var began := PoolSafety.Began(kind, 0, 1);
    assert began(gen.tasks[0]);
    assert Count(gen.tasks, began) == Count(gen.tasks[..0], began) + 1;
  }

  /** With a health check, n generations can begin n attempts in the same millisecond, all refused. */
  lemma {:induction false} RefusalsAddUp(cfg: Thresholds, limits: Pool.Limits, kind: PoolSafety.Kind, n: nat)
    returns (steps: seq<Step>)
    requires Usable(limits)
    ensures var start := Init(Some(cfg), limits);
            && Valid(start, steps)
            && var s := Run(start, steps);
               && Waits(s) && s.check == Some(cfg) && s.pool.now == 0
               && |s.pool.gens| == n && Attempts(s, kind, 0, 0) == n
  {
    var start := Init(Some(cfg), limits);
    steps := [];
    if n > 0 {
      var before := RefusalsAddUp(cfg, limits, kind, n - 1);
      LimitsAreFixed(start, before);
      var s := Run(start, before);
      var more, gen := RefusedTurn(s);
      RunConcat(start, before, more);
      steps := before + more;
      SumAppend(s.pool.gens, gen, BeganIn(kind, 0, 0));
      OneBegan(gen, kind);
    }
  }

  /** The retry bound of one generation holds for the whole endpoint, on every run and in every
      window, if and only if the endpoint has no health check or one of its limits is zero. */
  lemma EndpointRetryRateIff(check: Option<Thresholds>, limits: Pool.Limits, kind: PoolSafety.Kind)
    ensures (forall steps, from, w: nat :: Valid(Init(check, limits), steps) ==>
               Attempts(Run(Init(check, limits), steps), kind, from, w) <= Allowance(limits, kind, w))
       <==> check.None? || limits.idleconns == 0 || limits.maxconns == 0
  {
    if check.None? || !Usable(limits) {
      forall steps, from, w: nat | Valid(Init(check, limits), steps)
        ensures Attempts(Run(Init(check, limits), steps), kind, from, w) <= Allowance(limits, kind, w)
      {
        AttemptsAreBounded(check, limits, steps, kind, from, w);
      }
    } else {
      var n := kind.Permits(limits) + 1;
      var steps := RefusalsAddUp(check.value, limits, kind, n);
      assert Allowance(limits, kind, 0) == kind.Permits(limits);
      assert Attempts(Run(Init(check, limits), steps), kind, 0, 0) > Allowance(limits, kind, 0);
    }
  }
}
