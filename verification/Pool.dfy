/** The connection pool of one endpoint: every generation of `inner_run_endpoint`
    with its two semaphores, every `run_connection` task it spawned, the two shared
    counters of `EndpointMeta`, and a clock in milliseconds.

    Each atomic action of the source is one `Step`; a run is any sequence of enabled
    steps, so every interleaving of loops, tasks, signals and the clock is covered.
    Permits and counters are changed only by the explicit deltas of each step. */
module Pool {
  import opened Counting
  import opened Wrappers

  const MIN_EBBFLOW_ERROR_DELAY: nat := 5_000
  const BAD_ERROR_DELAY: nat := 55_000
  const KILL_ACTIVE_DELAY: nat := 60_000
  const MAX_IDLE_CONNECTION_TIME: nat := 3_720_000
  const MAX_IDLE: nat := 1000

  datatype Limits = Limits(idleconns: nat, maxconns: nat)

  /** How the idle part of a connection ended. */
  datatype Verdict =
    | Undecided
    | Traffic    // StartTraffic arrived
    | Refused    // Forbidden, NotFound or BadRequest
    | Failed     // any other connection error
    | Shutdown   // the stop signal won the race against StartTraffic
    | TimedOut   // MAX_IDLE_CONNECTION_TIME elapsed

  datatype Phase =
    | Spawned                    // handed to the executor, not yet polled
    | Idle                       // counted idle
    | Resolved                   // idle counter released, idle permit still held
    | BadBackoff(since: nat)     // sleeping BAD_ERROR_DELAY
    | MinBackoff(since: nat)     // sleeping MIN_EBBFLOW_ERROR_DELAY, idle permit still held
    | ConnectingLocal            // idle permit dropped
    | LocalBackoff(since: nat)   // local connect failed
    | Active                     // proxying, counted active
    | Draining(since: nat)       // told to stop, counted active until the kill delay ends
    | Returned                   // run_connection returned, max permit still held
    | Done

  /** `started` is set when the task leaves `Spawned`, `released` when it drops its idle permit,
      `exited` when it drops its max permit and `told` when it is told to stop while active;
      `served` says that it proxied at all. */
  datatype Task = Task(
    phase: Phase, verdict: Verdict, started: nat, released: nat, exited: nat, told: Option<nat>, served: bool)

  /** A connection signal: fired, or its sender still alive. */
  datatype Signal = Signal(fired: bool, senderAlive: bool) {
    predicate Settled() {
      fired || !senderAlive
    }
  }

  datatype LoopState = WantMax | WantIdle | HoldingBoth | Dropped

  datatype Generation = Generation(
    signal: Signal, maxFree: int, idleFree: int, loop: LoopState, tasks: seq<Task>)

  datatype State = State(
    limits: Limits, now: nat, idle: int, active: int, gens: seq<Generation>)

  datatype Move = Begin | Resolve(verdict: Verdict) | Proceed | LocalUp | LocalDown | Hangup | Drain | Wake | Exit

  datatype Step =
    | Tick(ms: nat)
    | StartGeneration
    | FireSignal(g: nat)
    | DropSender(g: nat)
    | TakeMax(g: nat)
    | TakeIdle(g: nat)
    | Spawn(g: nat)
    | DropLoop(g: nat)
    | Advance(g: nat, i: nat, move: Move)

  // ---------------------------------------------------------------- tasks

  predicate CanMove(t: Task, now: nat, settled: bool, m: Move) {
    match m
    case Begin => t.phase.Spawned?
    case Resolve(v) =>
      && t.phase.Idle?
      && v != Undecided
      && (v.Shutdown? ==> settled)
      && (v.TimedOut? ==> now >= t.started + MAX_IDLE_CONNECTION_TIME)
    case Proceed => t.phase.Resolved?
    case LocalUp => t.phase.ConnectingLocal?
    case LocalDown => t.phase.ConnectingLocal?
    case Hangup => t.phase.Active?
    case Drain => t.phase.Active? && settled
    case Wake =>
      (match t.phase
       case BadBackoff(since) => now >= since + BAD_ERROR_DELAY
       case MinBackoff(since) => now >= since + MIN_EBBFLOW_ERROR_DELAY
       case LocalBackoff(since) => now >= since + MIN_EBBFLOW_ERROR_DELAY
       case Draining(since) => now >= since + KILL_ACTIVE_DELAY
       case _ => false)
    case Exit => t.phase.Returned?
  }

  function Moved(t: Task, now: nat, m: Move): Task {
    match m
    case Begin => t.(phase := Idle, started := now)
    case Resolve(v) => t.(phase := Resolved, verdict := v)
    case Proceed =>
      (match t.verdict
       case Traffic => t.(phase := ConnectingLocal, released := now)
       case Refused => t.(phase := BadBackoff(now))
       case TimedOut => t.(phase := Returned, released := now)
       case _ => t.(phase := MinBackoff(now)))
    case LocalUp => t.(phase := Active, served := true)
    case LocalDown => t.(phase := LocalBackoff(now))
    case Hangup => t.(phase := Returned)
    case Drain => t.(phase := Draining(now), told := Some(now))
    case Wake =>
      (match t.phase
       case BadBackoff(_) => t.(phase := MinBackoff(now))
       case MinBackoff(_) => t.(phase := Returned, released := now)
       case _ => t.(phase := Returned))
    case Exit => t.(phase := Done, exited := now)
  }

  /** add_idle / remove_idle */
  function IdleDelta(m: Move): int {
    match m
    case Begin => 1
    case Resolve(_) => -1
    case _ => 0
  }

  /** add_active / remove_active */
  function ActiveDelta(t: Task, m: Move): int {
    match m
    case LocalUp => 1
    case Hangup => -1
    case Wake => if t.phase.Draining? then -1 else 0
    case _ => 0
  }

  /** Idle permits given back: dropped explicitly once traffic starts, or when run_connection returns. */
  function IdlePermitsBack(t: Task, m: Move): int {
    match m
    case Proceed => if t.verdict.Traffic? || t.verdict.TimedOut? then 1 else 0
    case Wake => if t.phase.MinBackoff? then 1 else 0
    case _ => 0
  }

  function MaxPermitsBack(m: Move): int {
    if m.Exit? then 1 else 0
  }

  // ---------------------------------------------------------------- the whole pool

  function Init(limits: Limits): State {
    State(limits, 0, 0, 0, [])
  }

  /** The limits spawn_endpoint hands to every generation. */
  function EndpointLimits(idleconns: nat, maxconns: nat): Limits {
    Limits(if idleconns < MAX_IDLE then idleconns else MAX_IDLE, maxconns)
  }

  predicate Enabled(s: State, step: Step) {
    match step
    case Tick(_) => true
    case StartGeneration => true
    case FireSignal(g) => g < |s.gens| && s.gens[g].signal.senderAlive
    case DropSender(g) => g < |s.gens| && s.gens[g].signal.senderAlive
    case TakeMax(g) => g < |s.gens| && s.gens[g].loop.WantMax? && s.gens[g].maxFree > 0
    case TakeIdle(g) => g < |s.gens| && s.gens[g].loop.WantIdle? && s.gens[g].idleFree > 0
    case Spawn(g) => g < |s.gens| && s.gens[g].loop.HoldingBoth?
    case DropLoop(g) => g < |s.gens| && !s.gens[g].loop.Dropped? && s.gens[g].signal.Settled()
    case Advance(g, i, m) =>
      && g < |s.gens|
      && i < |s.gens[g].tasks|
      && CanMove(s.gens[g].tasks[i], s.now, s.gens[g].signal.Settled(), m)
  }

  function NewTask(): Task {
    Task(Spawned, Undecided, 0, 0, 0, None, false)
  }

  function Apply(s: State, step: Step): State
    requires Enabled(s, step)
  {
    match step
    case Tick(ms) => s.(now := s.now + ms)
    case StartGeneration =>
      s.(gens := s.gens + [Generation(Signal(false, true), s.limits.maxconns, s.limits.idleconns, WantMax, [])])
    case FireSignal(g) =>
      s.(gens := s.gens[g := s.gens[g].(signal := s.gens[g].signal.(fired := true))])
    case DropSender(g) =>
      s.(gens := s.gens[g := s.gens[g].(signal := s.gens[g].signal.(senderAlive := false))])
    case TakeMax(g) =>
      s.(gens := s.gens[g := s.gens[g].(loop := WantIdle, maxFree := s.gens[g].maxFree - 1)])
    case TakeIdle(g) =>
      s.(gens := s.gens[g := s.gens[g].(loop := HoldingBoth, idleFree := s.gens[g].idleFree - 1)])
    case Spawn(g) =>
      s.(gens := s.gens[g := s.gens[g].(loop := WantMax, tasks := s.gens[g].tasks + [NewTask()])])
    case DropLoop(g) =>
      var gen := s.gens[g];
      s.(gens := s.gens[g := gen.(loop := Dropped,
                                  maxFree := gen.maxFree + (if gen.loop.WantMax? then 0 else 1),
                                  idleFree := gen.idleFree + (if gen.loop.HoldingBoth? then 1 else 0))])
    case Advance(g, i, m) =>
      var gen := s.gens[g];
      var t := gen.tasks[i];
      s.(idle := s.idle + IdleDelta(m),
         active := s.active + ActiveDelta(t, m),
         gens := s.gens[g := gen.(maxFree := gen.maxFree + MaxPermitsBack(m),
                                  idleFree := gen.idleFree + IdlePermitsBack(t, m),
                                  tasks := gen.tasks[i := Moved(t, s.now, m)])])
  }

  predicate Valid(s: State, steps: seq<Step>)
    decreases |steps|
  {
    steps == [] || (Enabled(s, steps[0]) && Valid(Apply(s, steps[0]), steps[1..]))
  }

  function Run(s: State, steps: seq<Step>): State
    requires Valid(s, steps)
    decreases |steps|
  {
    if steps == [] then s else Run(Apply(s, steps[0]), steps[1..])
  }

  // ---------------------------------------------------------------- what a state holds

  predicate HoldsIdle(t: Task) {
    t.phase.Spawned? || t.phase.Idle? || t.phase.Resolved? || t.phase.BadBackoff? || t.phase.MinBackoff?
  }

  predicate HoldsMax(t: Task) {
    !t.phase.Done?
  }

  predicate InIdle(t: Task) {
    t.phase.Idle?
  }

  predicate InActive(t: Task) {
    t.phase.Active? || t.phase.Draining?
  }

  ghost function IdleIn(gen: Generation): int {
    Count(gen.tasks, InIdle)
  }

  ghost function ActiveIn(gen: Generation): int {
    Count(gen.tasks, InActive)
  }

  /** The attempt had begun by `at` and still held its idle permit just after `at`. */
  predicate Live(t: Task, at: nat) {
    !t.phase.Spawned? && t.started <= at && (HoldsIdle(t) || t.released > at)
  }

  ghost function LiveAt(at: nat): Task -> bool {
    t => Live(t, at)
  }

  /** The attempt had begun by `at` and still held its max permit just after `at`. */
  predicate Present(t: Task, at: nat) {
    !t.phase.Spawned? && t.started <= at && (HoldsMax(t) || t.exited > at)
  }

  ghost function PresentAt(at: nat): Task -> bool {
    t => Present(t, at)
  }

  // ---------------------------------------------------------------- invariants

  predicate Waited(t: Task, until: nat, base: nat) {
    until >= t.started + base
  }

  /** Timestamps lie in the past, and every back-off already served is accounted for. */
  predicate TaskOk(t: Task, now: nat, settled: bool) {
    && (t.verdict.Undecided? <==> t.phase.Spawned? || t.phase.Idle?)
    && (t.verdict.Shutdown? || t.phase.Draining? ==> settled)
    && (!t.phase.Spawned? ==> t.started <= now)
    && (!HoldsIdle(t) ==> t.started <= t.released <= now)
    && (t.verdict.TimedOut? ==> Waited(t, now, MAX_IDLE_CONNECTION_TIME))
    && (t.phase.ConnectingLocal? || t.phase.LocalBackoff? || InActive(t) ==> t.verdict.Traffic?)
    && (match t.phase
        case BadBackoff(since) => t.verdict.Refused? && t.started <= since <= now
        case MinBackoff(since) =>
          && (t.verdict.Refused? || t.verdict.Failed? || t.verdict.Shutdown?)
          && t.started <= since <= now
          && (t.verdict.Refused? ==> Waited(t, since, BAD_ERROR_DELAY))
        case LocalBackoff(since) => t.started <= since <= now
        case Draining(since) => since <= now && t.told == Some(since)
        case Returned => !t.served ==> Waited(t, now, MIN_EBBFLOW_ERROR_DELAY)
        case Done => t.released <= t.exited <= now && (!t.served ==> Waited(t, t.exited, MIN_EBBFLOW_ERROR_DELAY))
        case _ => true)
    && (InActive(t) ==> t.served)
    && (t.served ==> t.phase.Returned? || t.phase.Done? || InActive(t))
    && (t.told.Some? ==> t.served && !t.phase.Active?)
    && (t.told.Some? && !InActive(t) ==> now >= t.told.value + KILL_ACTIVE_DELAY)
    && (!HoldsIdle(t) && !t.verdict.Traffic? ==> Waited(t, t.released, MIN_EBBFLOW_ERROR_DELAY))
    && (!HoldsIdle(t) && t.verdict.Refused? ==>
          Waited(t, t.released, BAD_ERROR_DELAY + MIN_EBBFLOW_ERROR_DELAY))
  }

  ghost predicate TasksOk(gen: Generation, now: nat) {
    forall i :: 0 <= i < |gen.tasks| ==> TaskOk(gen.tasks[i], now, gen.signal.Settled())
  }

  /** Permits are conserved: every permit is free, held by an unfinished task or held by the loop. */
  ghost predicate Conserved(limits: Limits, gen: Generation) {
    && gen.maxFree >= 0
    && gen.idleFree >= 0
    && gen.maxFree + Count(gen.tasks, HoldsMax) + Bit(gen.loop.WantIdle? || gen.loop.HoldingBoth?) == limits.maxconns
    && gen.idleFree + Count(gen.tasks, HoldsIdle) + Bit(gen.loop.HoldingBoth?) == limits.idleconns
    && (gen.tasks != [] ==> limits.idleconns >= 1 && limits.maxconns >= 1)
  }

  /** At no instant, past or present, did more attempts overlap than there are permits. */
  ghost predicate NeverCrowded(limits: Limits, gen: Generation) {
    && (forall at: nat :: Count(gen.tasks, LiveAt(at)) <= limits.idleconns)
    && (forall at: nat :: Count(gen.tasks, PresentAt(at)) <= limits.maxconns)
  }

  ghost predicate GenOk(limits: Limits, now: nat, gen: Generation) {
    && Conserved(limits, gen)
    && TasksOk(gen, now)
    && NeverCrowded(limits, gen)
    && (gen.loop.Dropped? ==> gen.signal.Settled())
  }

  ghost predicate CountersOk(s: State) {
    && s.idle == Sum(s.gens, IdleIn)
    && s.active == Sum(s.gens, ActiveIn)
  }

  ghost predicate Inv(s: State) {
    && CountersOk(s)
    && forall g :: 0 <= g < |s.gens| ==> GenOk(s.limits, s.now, s.gens[g])
  }

  // ---------------------------------------------------------------- preservation

  lemma MoveKeepsTaskOk(t: Task, now: nat, settled: bool, m: Move)
    requires TaskOk(t, now, settled) && CanMove(t, now, settled, m)
    ensures TaskOk(Moved(t, now, m), now, settled)
  {
  }

  /** What one move does to permits and counters is exactly what its phases say. */
  lemma MoveDeltas(t: Task, now: nat, settled: bool, m: Move)
    requires TaskOk(t, now, settled) && CanMove(t, now, settled, m)
    ensures var u := Moved(t, now, m);
            && Bit(InIdle(u)) - Bit(InIdle(t)) == IdleDelta(m)
            && Bit(InActive(u)) - Bit(InActive(t)) == ActiveDelta(t, m)
            && Bit(HoldsIdle(t)) - Bit(HoldsIdle(u)) == IdlePermitsBack(t, m)
            && Bit(HoldsMax(t)) - Bit(HoldsMax(u)) == MaxPermitsBack(m)
  {
  }

  /** Moves neither create nor destroy liveness at instants before now. */
  lemma MoveKeepsThePast(t: Task, now: nat, settled: bool, m: Move, at: nat)
    requires TaskOk(t, now, settled) && CanMove(t, now, settled, m) && at < now
    ensures Live(Moved(t, now, m), at) ==> Live(t, at)
    ensures Present(Moved(t, now, m), at) ==> Present(t, at)
  {
  }

  /** From now on, only current holders can be live. */
  lemma LiveNowMeansHolding(gen: Generation, now: nat, at: nat)
    requires TasksOk(gen, now) && at >= now
    ensures Count(gen.tasks, LiveAt(at)) <= Count(gen.tasks, HoldsIdle)
    ensures Count(gen.tasks, PresentAt(at)) <= Count(gen.tasks, HoldsMax)
  {
    CountLeq(gen.tasks, gen.tasks, PresentAt(at), HoldsMax);
    CountLeq(gen.tasks, gen.tasks, LiveAt(at), HoldsIdle);
  }

  lemma AdvanceKeepsGenOk(limits: Limits, now: nat, gen: Generation, i: nat, m: Move, gen': Generation)
    requires GenOk(limits, now, gen) && i < |gen.tasks|
    requires CanMove(gen.tasks[i], now, gen.signal.Settled(), m)
    requires gen' == gen.(maxFree := gen.maxFree + MaxPermitsBack(m),
                          idleFree := gen.idleFree + IdlePermitsBack(gen.tasks[i], m),
                          tasks := gen.tasks[i := Moved(gen.tasks[i], now, m)])
    ensures GenOk(limits, now, gen')
    ensures IdleIn(gen') == IdleIn(gen) + IdleDelta(m)
    ensures ActiveIn(gen') == ActiveIn(gen) + ActiveDelta(gen.tasks[i], m)
  {
    var t := gen.tasks[i];
    var u := Moved(t, now, m);
    var settled := gen.signal.Settled();
    MoveKeepsTaskOk(t, now, settled, m);
    MoveDeltas(t, now, settled, m);
    CountUpdate(gen.tasks, i, u, InIdle);
    CountUpdate(gen.tasks, i, u, InActive);
    CountUpdate(gen.tasks, i, u, HoldsIdle);
    CountUpdate(gen.tasks, i, u, HoldsMax);
    forall at: nat
      ensures Count(gen'.tasks, LiveAt(at)) <= limits.idleconns
      ensures Count(gen'.tasks, PresentAt(at)) <= limits.maxconns
    {
      if at >= now {
        LiveNowMeansHolding(gen', now, at);
      } else {
        MoveKeepsThePast(t, now, settled, m, at);
        CountLeq(gen'.tasks, gen.tasks, LiveAt(at), LiveAt(at));
        CountLeq(gen'.tasks, gen.tasks, PresentAt(at), PresentAt(at));
        assert Count(gen.tasks, LiveAt(at)) <= limits.idleconns;
        assert Count(gen.tasks, PresentAt(at)) <= limits.maxconns;
      }
    }
  }

  lemma SpawnKeepsGenOk(limits: Limits, now: nat, gen: Generation, gen': Generation)
    requires GenOk(limits, now, gen) && gen.loop.HoldingBoth?
    requires gen' == gen.(loop := WantMax, tasks := gen.tasks + [NewTask()])
    ensures GenOk(limits, now, gen')
    ensures IdleIn(gen') == IdleIn(gen) && ActiveIn(gen') == ActiveIn(gen)
  {
  }

  /** Steps that leave the tasks of a generation alone. */
  lemma LoopStepKeepsGenOk(limits: Limits, now: nat, gen: Generation, gen': Generation)
    requires GenOk(limits, now, gen) && gen'.tasks == gen.tasks
    requires gen.signal.Settled() ==> gen'.signal.Settled()
    requires gen'.loop.Dropped? ==> gen'.signal.Settled()
    requires gen'.maxFree >= 0 && gen'.idleFree >= 0
    requires gen'.maxFree + Bit(gen'.loop.WantIdle? || gen'.loop.HoldingBoth?)
          == gen.maxFree + Bit(gen.loop.WantIdle? || gen.loop.HoldingBoth?)
    requires gen'.idleFree + Bit(gen'.loop.HoldingBoth?) == gen.idleFree + Bit(gen.loop.HoldingBoth?)
    ensures GenOk(limits, now, gen')
    ensures IdleIn(gen') == IdleIn(gen) && ActiveIn(gen') == ActiveIn(gen)
  {
  }

  /** Replacing one generation by a good one with known counts keeps the invariant. */
  lemma ReplaceKeepsInv(s: State, g: nat, gen': Generation, s': State)
    requires Inv(s) && g < |s.gens| && GenOk(s.limits, s.now, gen')
    requires s' == s.(gens := s.gens[g := gen'],
                      idle := s.idle + IdleIn(gen') - IdleIn(s.gens[g]),
                      active := s.active + ActiveIn(gen') - ActiveIn(s.gens[g]))
    ensures Inv(s')
  {
    SumUpdate(s.gens, g, gen', IdleIn);
    SumUpdate(s.gens, g, gen', ActiveIn);
  }

  lemma EmptyGenOk(limits: Limits, now: nat, gen: Generation)
    requires gen == Generation(Signal(false, true), limits.maxconns, limits.idleconns, WantMax, [])
    ensures GenOk(limits, now, gen) && IdleIn(gen) == 0 && ActiveIn(gen) == 0
  {
  }

  lemma StartKeepsInv(s: State)
    requires Inv(s)
    ensures Inv(Apply(s, StartGeneration))
  {
    var gen := Apply(s, StartGeneration).gens[|s.gens|];
    EmptyGenOk(s.limits, s.now, gen);
    SumAppend(s.gens, gen, IdleIn);
    SumAppend(s.gens, gen, ActiveIn);
  }

  lemma TickKeepsInv(s: State, ms: nat)
    requires Inv(s)
    ensures Inv(Apply(s, Tick(ms)))
  {
  }

  lemma SignalStepKeepsInv(s: State, step: Step)
    requires Inv(s) && Enabled(s, step) && (step.FireSignal? || step.DropSender?)
    ensures Inv(Apply(s, step))
  {
    var gen' := Apply(s, step).gens[step.g];
    LoopStepKeepsGenOk(s.limits, s.now, s.gens[step.g], gen');
    ReplaceKeepsInv(s, step.g, gen', Apply(s, step));
  }

  lemma LoopStepKeepsInv(s: State, step: Step)
    requires Inv(s) && Enabled(s, step) && (step.TakeMax? || step.TakeIdle? || step.DropLoop?)
    ensures Inv(Apply(s, step))
  {
    var gen' := Apply(s, step).gens[step.g];
    LoopStepKeepsGenOk(s.limits, s.now, s.gens[step.g], gen');
    ReplaceKeepsInv(s, step.g, gen', Apply(s, step));
  }

  lemma SpawnKeepsInv(s: State, g: nat)
    requires Inv(s) && Enabled(s, Spawn(g))
    ensures Inv(Apply(s, Spawn(g)))
  {
    var gen' := Apply(s, Spawn(g)).gens[g];
    SpawnKeepsGenOk(s.limits, s.now, s.gens[g], gen');
    ReplaceKeepsInv(s, g, gen', Apply(s, Spawn(g)));
  }

  lemma AdvanceKeepsInv(s: State, g: nat, i: nat, m: Move)
    requires Inv(s) && Enabled(s, Advance(g, i, m))
    ensures Inv(Apply(s, Advance(g, i, m)))
  {
    var gen' := Apply(s, Advance(g, i, m)).gens[g];
    AdvanceKeepsGenOk(s.limits, s.now, s.gens[g], i, m, gen');
    ReplaceKeepsInv(s, g, gen', Apply(s, Advance(g, i, m)));
  }

  lemma StepKeepsInv(s: State, step: Step)
    requires Inv(s) && Enabled(s, step)
    ensures Inv(Apply(s, step))
  {
    match step
    case Tick(ms) => TickKeepsInv(s, ms);
    case StartGeneration => StartKeepsInv(s);
    case Spawn(g) => SpawnKeepsInv(s, g);
    case Advance(g, i, m) => AdvanceKeepsInv(s, g, i, m);
    case FireSignal(_) => SignalStepKeepsInv(s, step);
    case DropSender(_) => SignalStepKeepsInv(s, step);
    case _ => LoopStepKeepsInv(s, step);
  }

  lemma {:induction false} RunKeepsInv(s: State, steps: seq<Step>)
    requires Inv(s) && Valid(s, steps)
    ensures Inv(Run(s, steps))
    decreases |steps|
  {
    if steps != [] {
      StepKeepsInv(s, steps[0]);
      RunKeepsInv(Apply(s, steps[0]), steps[1..]);
    }
  }
}
