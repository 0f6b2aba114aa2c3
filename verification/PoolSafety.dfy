/** What every run of the connection pool guarantees: permit conservation, the idle and
    maximum bounds of each generation, the meaning of the shared counters, and the bound
    on how fast failing attempts can be retried. */
module PoolSafety {
  import opened Counting
  import opened Pool

  lemma {:induction false} RunConcat(s: State, a: seq<Step>, b: seq<Step>)
    requires Valid(s, a) && Valid(Run(s, a), b)
    ensures Valid(s, a + b) && Run(s, a + b) == Run(Run(s, a), b)
    decreases |a|
  {
    if a == [] {
      assert a + b == b;
    } else {
      assert (a + b)[1..] == a[1..] + b;
      RunConcat(Apply(s, a[0]), a[1..], b);
    }
  }

  lemma Then(s: State, steps: seq<Step>, step: Step) returns (longer: seq<Step>)
    requires Valid(s, steps) && Enabled(Run(s, steps), step)
    ensures longer == steps + [step]
    ensures Valid(s, longer) && Run(s, longer) == Apply(Run(s, steps), step)
  {
    longer := steps + [step];
    RunConcat(s, steps, [step]);
    assert Valid(Run(s, steps), [step]);
  }

  lemma {:induction false} LimitsAreFixed(s: State, steps: seq<Step>)
    requires Valid(s, steps)
    ensures Run(s, steps).limits == s.limits
    decreases |steps|
  {
    if steps != [] {
      LimitsAreFixed(Apply(s, steps[0]), steps[1..]);
    }
  }

  lemma RunFromInit(limits: Limits, steps: seq<Step>)
    requires Valid(Init(limits), steps)
    ensures Inv(Run(Init(limits), steps))
    ensures Run(Init(limits), steps).limits == limits
  {
    RunKeepsInv(Init(limits), steps);
    LimitsAreFixed(Init(limits), steps);
  }

  /** Conservation of both semaphores in every reachable state of every interleaving. */
  lemma PermitsAreConserved(limits: Limits, steps: seq<Step>, g: nat)
    requires Valid(Init(limits), steps)
    requires g < |Run(Init(limits), steps).gens|
    ensures var gen := Run(Init(limits), steps).gens[g];
            && gen.maxFree >= 0
            && gen.idleFree >= 0
            && gen.maxFree + Count(gen.tasks, HoldsMax)
               + Bit(gen.loop.WantIdle? || gen.loop.HoldingBoth?) == limits.maxconns
            && gen.idleFree + Count(gen.tasks, HoldsIdle) + Bit(gen.loop.HoldingBoth?) == limits.idleconns
  {
    RunFromInit(limits, steps);
    assert GenOk(limits, Run(Init(limits), steps).now, Run(Init(limits), steps).gens[g]);
  }

  lemma GenerationBounds(limits: Limits, gen: Generation)
    requires Conserved(limits, gen)
    ensures 0 <= IdleIn(gen) <= limits.idleconns
    ensures 0 <= ActiveIn(gen)
    ensures IdleIn(gen) + ActiveIn(gen) <= limits.maxconns
  {
    CountLeq(gen.tasks, gen.tasks, InIdle, HoldsIdle);
    CountDisjoint(gen.tasks, InIdle, InActive, HoldsMax);
  }

  /** Idle connections never exceed idleconns, nor idle plus active maxconns, at any instant. */
  lemma ConnectionBounds(limits: Limits, steps: seq<Step>, g: nat)
    requires Valid(Init(limits), steps)
    requires g < |Run(Init(limits), steps).gens|
    ensures var gen := Run(Init(limits), steps).gens[g];
            && IdleIn(gen) <= limits.idleconns
            && IdleIn(gen) + ActiveIn(gen) <= limits.maxconns
  {
    RunFromInit(limits, steps);
    assert GenOk(limits, Run(Init(limits), steps).now, Run(Init(limits), steps).gens[g]);
    GenerationBounds(limits, Run(Init(limits), steps).gens[g]);
  }

  ghost predicate AllDone(gen: Generation) {
    forall i :: 0 <= i < |gen.tasks| ==> gen.tasks[i].phase.Done?
  }

  lemma {:induction false} SumAtMostOne(gens: seq<Generation>, f: Generation -> int, only: nat, high: nat)
    requires forall g :: 0 <= g < |gens| ==> 0 <= f(gens[g]) <= high
    requires forall g :: 0 <= g < |gens| && g != only ==> f(gens[g]) == 0
    ensures 0 <= Sum(gens, f) <= high
    ensures only >= |gens| ==> Sum(gens, f) == 0
  {
    if gens != [] {
      SumAtMostOne(gens[..|gens| - 1], f, only, high);
    }
  }

  ghost function OpenIn(gen: Generation): int {
    IdleIn(gen) + ActiveIn(gen)
  }

  lemma {:induction false} SumOfSums(gens: seq<Generation>)
    ensures Sum(gens, OpenIn) == Sum(gens, IdleIn) + Sum(gens, ActiveIn)
  {
    if gens != [] {
      SumOfSums(gens[..|gens| - 1]);
    }
  }

  lemma GenerationCounts(limits: Limits, now: nat, gen: Generation)
    requires GenOk(limits, now, gen)
    ensures 0 <= IdleIn(gen) <= limits.maxconns
    ensures 0 <= ActiveIn(gen) <= limits.maxconns
    ensures 0 <= OpenIn(gen) <= limits.maxconns
    ensures AllDone(gen) ==> IdleIn(gen) == 0 && ActiveIn(gen) == 0
  {
    GenerationBounds(limits, gen);
    if AllDone(gen) {
      CountNone(gen.tasks, InIdle);
      CountNone(gen.tasks, InActive);
    }
  }

  lemma CountersAreSums(s: State, only: nat)
    requires Inv(s)
    ensures s.idle == Sum(s.gens, IdleIn) && s.active == Sum(s.gens, ActiveIn)
    ensures s.idle >= 0 && s.active >= 0
    ensures s.idle + s.active <= |s.gens| * s.limits.maxconns
    ensures (forall g :: 0 <= g < |s.gens| && g != only ==> AllDone(s.gens[g])) ==>
              s.idle + s.active <= s.limits.maxconns
    ensures (forall g :: 0 <= g < |s.gens| ==> AllDone(s.gens[g])) ==> s.idle == 0 && s.active == 0
  {
    var high := s.limits.maxconns;
    forall g | 0 <= g < |s.gens|
      ensures 0 <= IdleIn(s.gens[g]) <= high && 0 <= ActiveIn(s.gens[g]) <= high && 0 <= OpenIn(s.gens[g]) <= high
      ensures AllDone(s.gens[g]) ==> IdleIn(s.gens[g]) == 0 && ActiveIn(s.gens[g]) == 0
    {
      GenerationCounts(s.limits, s.now, s.gens[g]);
    }
    SumOfSums(s.gens);
    SumBounds(s.gens, IdleIn, high);
    SumBounds(s.gens, ActiveIn, high);
    SumBounds(s.gens, OpenIn, high);
    if forall g :: 0 <= g < |s.gens| && g != only ==> AllDone(s.gens[g]) {
      SumAtMostOne(s.gens, OpenIn, only, high);
    }
    if forall g :: 0 <= g < |s.gens| ==> AllDone(s.gens[g]) {
      SumAtMostOne(s.gens, IdleIn, |s.gens|, high);
      SumAtMostOne(s.gens, ActiveIn, |s.gens|, high);
    }
  }

  /** The shared counters are the true sums over all generations, draining ones included;
      they are zero once every task is done, and while at most one generation still has
      unfinished tasks their sum respects maxconns. */
  lemma CountersAreExact(limits: Limits, steps: seq<Step>, only: nat)
    requires Valid(Init(limits), steps)
    ensures var s := Run(Init(limits), steps);
            && s.idle == Sum(s.gens, IdleIn)
            && s.active == Sum(s.gens, ActiveIn)
            && s.idle >= 0
            && s.active >= 0
            && s.idle + s.active <= |s.gens| * limits.maxconns
            && ((forall g :: 0 <= g < |s.gens| && g != only ==> AllDone(s.gens[g])) ==>
                  s.idle + s.active <= limits.maxconns)
            && ((forall g :: 0 <= g < |s.gens| ==> AllDone(s.gens[g])) ==> s.idle == 0 && s.active == 0)
  {
    RunFromInit(limits, steps);
    CountersAreSums(Run(Init(limits), steps), only);
  }

  /** Both fetch_sub calls always find a positive counter, whatever ran before. */
  lemma NoCounterUnderflow(limits: Limits, steps: seq<Step>, g: nat, i: nat, m: Move)
    requires Valid(Init(limits), steps)
    requires Enabled(Run(Init(limits), steps), Advance(g, i, m))
    ensures var s := Run(Init(limits), steps);
            && s.idle + IdleDelta(m) >= 0
            && s.active + ActiveDelta(s.gens[g].tasks[i], m) >= 0
  {
    var next := [Advance(g, i, m)];
    RunConcat(Init(limits), steps, next);
    CountersAreExact(limits, steps + next, 0);
  }

  // ---------------------------------------------------------------- retry rate

  /** Attempts that were not (yet) given traffic, attempts that were refused, and attempts that
      have not (yet) proxied anything. */
  datatype Kind = WithoutTraffic | WasRefused | NeverServed {
    predicate Includes(t: Task) {
      match this
      case WithoutTraffic => !t.verdict.Traffic?
      case WasRefused => t.verdict.Refused?
      case NeverServed => !t.served
    }

    /** How long each such attempt keeps its permit at least. */
    function Hold(): nat {
      if this.WasRefused? then 60_000 else 5_000
    }

    /** How many can hold it at once: all of them need a max permit, and those that were not given
        traffic an idle permit too. */
    function Permits(limits: Limits): nat {
      if this.NeverServed? || limits.maxconns < limits.idleconns then limits.maxconns else limits.idleconns
    }
  }

  /** Attempts of a kind that began in [from, till). */
  ghost function Began(kind: Kind, from: nat, till: nat): Task -> bool {
    (t: Task) => !t.phase.Spawned? && from <= t.started < till && kind.Includes(t)
  }

  /** All attempts of a kind that begin within one hold time overlap at its last instant. */
  lemma OneSlot(limits: Limits, now: nat, gen: Generation, kind: Kind, from: nat)
    requires GenOk(limits, now, gen)
    ensures Count(gen.tasks, Began(kind, from, from + kind.Hold())) <= kind.Permits(limits)
  {
    var last: nat := from + kind.Hold() - 1;
    CountLeq(gen.tasks, gen.tasks, Began(kind, from, from + kind.Hold()), PresentAt(last));
    assert Count(gen.tasks, PresentAt(last)) <= limits.maxconns;
    if !kind.NeverServed? {
      CountLeq(gen.tasks, gen.tasks, Began(kind, from, from + kind.Hold()), LiveAt(last));
      assert Count(gen.tasks, LiveAt(last)) <= limits.idleconns;
    }
  }

  lemma SplitWindow(tasks: seq<Task>, kind: Kind, from: nat, mid: nat, till: nat)
    requires from <= mid <= till
    ensures Count(tasks, Began(kind, from, till))
         <= Count(tasks, Began(kind, from, mid)) + Count(tasks, Began(kind, mid, till))
  {
    CountCover(tasks, Began(kind, from, till), Began(kind, from, mid), Began(kind, mid, till));
  }

  lemma {:induction false} ManySlots(
      limits: Limits, now: nat, gen: Generation, kind: Kind, from: nat, slots: nat)
    requires GenOk(limits, now, gen)
    ensures Count(gen.tasks, Began(kind, from, from + slots * kind.Hold())) <= kind.Permits(limits) * slots
    decreases slots
  {
    var hold, k := kind.Hold(), kind.Permits(limits);
    if slots == 0 {
      CountNone(gen.tasks, Began(kind, from, from));
    } else {
      var mid := from + (slots - 1) * hold;
      ManySlots(limits, now, gen, kind, from, slots - 1);
      OneSlot(limits, now, gen, kind, mid);
      SplitWindow(gen.tasks, kind, from, mid, mid + hold);
      assert mid + hold == from + slots * hold && k * (slots - 1) + k == k * slots;
    }
  }

  lemma WindowBound(limits: Limits, now: nat, gen: Generation, kind: Kind, from: nat, w: nat)
    requires GenOk(limits, now, gen)
    ensures Count(gen.tasks, Began(kind, from, from + w + 1)) <= kind.Permits(limits) * (w / kind.Hold() + 1)
  {
    var slots := w / kind.Hold() + 1;
    assert w + 1 <= slots * kind.Hold();
    ManySlots(limits, now, gen, kind, from, slots);
    CountLeq(gen.tasks, gen.tasks, Began(kind, from, from + w + 1), Began(kind, from, from + slots * kind.Hold()));
  }

  /** Retry rate: in one generation, over every schedule, the attempts of a kind that begin in the
      closed window [from, from + w] number at most permits * (w / hold + 1): without traffic
      min(idleconns, maxconns) * (w / 5000 + 1), refused min(idleconns, maxconns) * (w / 60000 + 1),
      and without ever proxying, failed local connects included, maxconns * (w / 5000 + 1). */
  lemma RetryRate(limits: Limits, steps: seq<Step>, g: nat, kind: Kind, from: nat, w: nat)
    requires Valid(Init(limits), steps)
    requires g < |Run(Init(limits), steps).gens|
    ensures Count(Run(Init(limits), steps).gens[g].tasks, Began(kind, from, from + w + 1))
         <= kind.Permits(limits) * (w / kind.Hold() + 1)
  {
    RunFromInit(limits, steps);
    var s := Run(Init(limits), steps);
    assert GenOk(limits, s.now, s.gens[g]);
    WindowBound(limits, s.now, s.gens[g], kind, from, w);
  }

  /** Both long delays are served in full: a connection told to stop while it was proxying is still
      counted active until 60 s have passed, and one given up as idle was idle for 62 minutes. */
  lemma DelaysAreServed(limits: Limits, steps: seq<Step>, g: nat, i: nat)
    requires Valid(Init(limits), steps)
    requires g < |Run(Init(limits), steps).gens| && i < |Run(Init(limits), steps).gens[g].tasks|
    ensures var s := Run(Init(limits), steps);
            var t := s.gens[g].tasks[i];
            && (t.told.Some? ==> t.served && (InActive(t) || s.now >= t.told.value + 60_000))
            && (t.verdict.TimedOut? ==> s.now >= t.started + 62 * 60_000)
  {
    RunFromInit(limits, steps);
    assert GenOk(limits, Run(Init(limits), steps).now, Run(Init(limits), steps).gens[g]);
  }
}
