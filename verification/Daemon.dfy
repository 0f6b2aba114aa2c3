/** The whole daemon: the reload loop with its reconciler, and one supervisor with its connection
    pool for every endpoint ever spawned. The loader and the endpoints interleave freely; an
    endpoint's stop signal is fired by the reconciler and by nothing else. */
module Daemon {
  import opened Wrappers
  import opened Config
  import opened Reconciler
  import opened ReconcilerTheorems
  import Health
  import Pool
  import PoolSafety
  import SharedCounters
  import Supervisor
  import Reload

  datatype State = State(reload: Reload.State, endpoints: seq<Supervisor.State>)

  datatype Step = Loader(load: Reload.Step) | Endpoint(id: nat, step: Supervisor.Step)

  /** ConcreteHealthCheck::new: both thresholds default to 3. */
  function CheckOf(hc: Option<HealthCheck>): Option<Health.Thresholds> {
    match hc
    case None => None
    case Some(h) =>
      Some(Health.Thresholds(if h.healthyThreshold.Some? then h.healthyThreshold.value else 3,
                             if h.unhealthyThreshold.Some? then h.unhealthyThreshold.value else 3))
  }

  function NewEndpoint(args: EndpointArgs): Supervisor.State {
    Supervisor.Init(CheckOf(args.healthcheck), Pool.EndpointLimits(args.idleconns, args.maxconns))
  }

  /** Endpoint `id` after the runner has acted: created if it is new, stopped if it was signalled. */
  function Followed(sups: seq<Supervisor.State>, r: Runner, id: nat): Supervisor.State
    requires id < |r.spawned|
  {
    var s := if id < |sups| then sups[id] else NewEndpoint(r.spawned[id]);
    s.(stop := s.stop || id in r.signalled)
  }

  function Follow(sups: seq<Supervisor.State>, r: Runner): seq<Supervisor.State> {
    seq(|r.spawned|, id requires 0 <= id < |r.spawned| => Followed(sups, r, id))
  }

  function Init(c: Reload.ConfigText, k: Reload.KeyText): State {
    State(Reload.Init(c, k), [])
  }

  predicate Enabled(d: State, step: Step) {
    match step
    case Loader(p) => Reload.Enabled(d.reload, p)
    case Endpoint(id, s) => id < |d.endpoints| && !s.RequestStop? && Supervisor.Enabled(d.endpoints[id], s)
  }

  ghost function Apply(d: State, step: Step, host: string): State
    requires Enabled(d, step)
  {
    match step
    case Loader(p) =>
      var reload := Reload.Apply(d.reload, p, host);
      State(reload, Follow(d.endpoints, reload.runner))
    case Endpoint(id, s) => d.(endpoints := d.endpoints[id := Supervisor.Apply(d.endpoints[id], s)])
  }

  ghost predicate Valid(d: State, steps: seq<Step>, host: string)
    decreases |steps|
  {
    steps == [] || (Enabled(d, steps[0]) && Valid(Apply(d, steps[0], host), steps[1..], host))
  }

  ghost function Run(d: State, steps: seq<Step>, host: string): State
    requires Valid(d, steps, host)
    decreases |steps|
  {
    if steps == [] then d else Run(Apply(d, steps[0], host), steps[1..], host)
  }

  // ---------------------------------------------------------------- invariant

  /** Endpoint `id` runs with the arguments it was spawned with, and its stop signal has fired
      exactly if the runner signalled it. */
  ghost predicate Matches(s: Supervisor.State, r: Runner, id: nat)
    requires id < |r.spawned|
  {
    && Supervisor.Inv(s)
    && (s.stop <==> id in r.signalled)
    && s.check == CheckOf(r.spawned[id].healthcheck)
    && s.pool.limits == Pool.EndpointLimits(r.spawned[id].idleconns, r.spawned[id].maxconns)
  }

  ghost predicate Inv(d: State, host: string) {
    && Reload.Inv(d.reload, host)
    && |d.endpoints| == |d.reload.runner.spawned|
    && forall id :: 0 <= id < |d.endpoints| ==> Matches(d.endpoints[id], d.reload.runner, id)
  }

  /** Updates only add: spawned endpoints keep their arguments, signals are never withdrawn. */
  lemma UpdateExtends(r: Runner, config: Option<DaemonConfig>, key: Option<string>, host: string)
    ensures var r' := Update(r, config, key, host);
            r.spawned <= r'.spawned && r.signalled <= r'.signalled
  {
    if config.Some? {
      var r1 := if key.Some? then r.(key := key, status := Good) else r.(status := Good);
      var kept := Retained(r1, NameSet(config.value.endpoints));
      EffectsGrow(kept, config.value.endpoints);
    }
  }

  lemma FollowKeepsMatching(sups: seq<Supervisor.State>, r: Runner, r': Runner, id: nat)
    requires |sups| == |r.spawned| && r.spawned <= r'.spawned && r.signalled <= r'.signalled
    requires id < |r'.spawned| && (id < |sups| ==> Matches(sups[id], r, id))
    ensures Matches(Followed(sups, r', id), r', id)
  {
  }

  lemma LoaderKeepsInv(d: State, p: Reload.Step, host: string)
    requires Inv(d, host) && Enabled(d, Loader(p))
    ensures Inv(Apply(d, Loader(p), host), host)
  {
    Reload.StepKeepsInv(d.reload, p, host);
    var r, r' := d.reload.runner, Reload.Apply(d.reload, p, host).runner;
    if p.ApplyLoaded? {
      UpdateExtends(r, Reload.LoadedConfig(d.reload.seenConfig), Reload.LoadedKey(d.reload.seenKey), host);
    }
    forall id | 0 <= id < |r'.spawned| ensures Matches(Followed(d.endpoints, r', id), r', id) {
      FollowKeepsMatching(d.endpoints, r, r', id);
    }
  }

  lemma EndpointKeepsMatching(s: Supervisor.State, step: Supervisor.Step, r: Runner, id: nat)
    requires id < |r.spawned| && Matches(s, r, id)
    requires Supervisor.Enabled(s, step) && !step.RequestStop?
    ensures Matches(Supervisor.Apply(s, step), r, id)
  {
    Supervisor.StepKeepsPool(s, step);
    Supervisor.StepKeepsSteady(s, step);
  }

  lemma {:induction false} RunKeepsInv(d: State, steps: seq<Step>, host: string)
    requires Inv(d, host) && Valid(d, steps, host)
    ensures Inv(Run(d, steps, host), host)
    decreases |steps|
  {
    if steps != [] {
      match steps[0] {
        case Loader(p) => LoaderKeepsInv(d, p, host);
        case Endpoint(id, s) => EndpointKeepsMatching(d.endpoints[id], s, d.reload.runner, id);
      }
      RunKeepsInv(Apply(d, steps[0], host), steps[1..], host);
    }
  }

  // ---------------------------------------------------------------- theorems

  /** The configured value, or the default. */
  function OrElse(o: Option<u16>, default: u16): u16 {
    if o.Some? then o.value else default
  }

  /** `s` is running, with this health check and these limits. */
  ghost predicate Serves(s: Supervisor.State, hc: Option<HealthCheck>, maxidle: nat, maxconns: nat) {
    && !s.stop && !s.pc.Ended?
    && (s.check.Some? <==> hc.Some?)
    && (hc.Some? ==>
          && s.check.value.healthy == OrElse(hc.value.healthyThreshold, 3)
          && s.check.value.unhealthy == OrElse(hc.value.unhealthyThreshold, 3))
    && s.pool.limits == Pool.Limits(if maxidle < 1000 then maxidle else 1000, maxconns)
  }

  /** The supervisor behind a switch that is on. */
  ghost predicate ServedBy(d: State, switch: Switch, hc: Option<HealthCheck>, maxidle: nat, maxconns: nat) {
    switch.Enabled? && switch.id < |d.endpoints| && Serves(d.endpoints[switch.id], hc, maxidle, maxconns)
  }

  /** Every configured endpoint is served if enabled and switched off if not, and so is ssh, which has
      no health check; nothing else is in the table. */
  ghost predicate ServesConfig(d: State, cfg: DaemonConfig, n: string) {
    var eps, r := cfg.endpoints, d.reload.runner;
    && (n in r.endpoints <==> Named(eps, n))
    && (Named(eps, n) ==>
          var e := eps[LastIndex(eps, n)];
          if e.enabled then ServedBy(d, r.endpoints[n].switch, e.healthcheck, e.maxidle, e.maxconns)
          else r.endpoints[n].switch.Disabled?)
    && (r.ssh.Some? <==> cfg.ssh.Some?)
    && (cfg.ssh.Some? ==>
          if cfg.ssh.value.enabled
          then ServedBy(d, r.ssh.value.switch, None, cfg.ssh.value.maxidle, cfg.ssh.value.maxconns)
          else r.ssh.value.switch.Disabled?)
  }

  lemma RunningServes(d: State, host: string, n: string)
    requires Inv(d, host) && n in d.reload.runner.endpoints
    requires d.reload.runner.endpoints[n].config.enabled
    ensures var i := d.reload.runner.endpoints[n];
            ServedBy(d, i.switch, i.config.healthcheck, i.config.maxidle, i.config.maxconns)
  {
  }

  lemma SshServes(d: State, host: string)
    requires Inv(d, host) && d.reload.runner.ssh.Some? && d.reload.runner.ssh.value.config.enabled
    ensures var i := d.reload.runner.ssh.value;
            ServedBy(d, i.switch, None, i.config.maxidle, i.config.max)
  {
  }

  /** End to end: over every interleaving of file writes, watcher calls, reloads, health checks,
      connections and shutdowns, a daemon at rest on a readable configuration, with a key in its file
      or, the file being empty or gone, still in use, serves every enabled endpoint of the newest configuration, and ssh, with that entry's limits and health
      check, and every endpoint it ever started that it does not hold has been told to stop. */
  lemma DaemonServesItsConfiguration(
      c: Reload.ConfigText, k: Reload.KeyText, steps: seq<Step>, host: string, n: string)
    requires Valid(Init(c, k), steps, host)
    requires var l := Run(Init(c, k), steps, host).reload;
             && Reload.Quiescent(l) && l.config.content.Parsed? && !l.key.content.Unreadable?
             && (l.key.content.Key? || l.runner.key.Some?)
    ensures var d := Run(Init(c, k), steps, host);
            && ServesConfig(d, d.reload.config.content.cfg, n)
            && RunsAsConfigured(d.reload.runner, d.reload.config.content.cfg, host)
            && (forall id: nat :: id < |d.endpoints| && !d.endpoints[id].stop ==>
                  exists slot :: Holds(d.reload.runner, slot, id))
  {
    NothingLeaks([], host);
    RunKeepsInv(Init(c, k), steps, host);
    AtRest(Run(Init(c, k), steps, host), host, n);
  }

  lemma AtRest(d: State, host: string, n: string)
    requires Inv(d, host) && Reload.Quiescent(d.reload)
    requires d.reload.config.content.Parsed? && !d.reload.key.content.Unreadable?
    requires d.reload.key.content.Key? || d.reload.runner.key.Some?
    ensures ServesConfig(d, d.reload.config.content.cfg, n)
    ensures RunsAsConfigured(d.reload.runner, d.reload.config.content.cfg, host)
    ensures forall id: nat :: id < |d.endpoints| && !d.endpoints[id].stop ==>
              exists slot :: Holds(d.reload.runner, slot, id)
  {
    var cfg, r := d.reload.config.content.cfg, d.reload.runner;
    NamesAreNamed(cfg.endpoints, n);
    assert ViewOf(r) == Target(cfg, host);
    RunsTheTarget(r, cfg, host);
    assert n in ViewOf(r).endpoints <==> n in r.endpoints;
    if n in r.endpoints {
      assert r.endpoints[n].config == ViewOf(r).endpoints[n] == cfg.endpoints[LastIndex(cfg.endpoints, n)];
      if r.endpoints[n].config.enabled {
        RunningServes(d, host, n);
      }
    }
    if r.ssh.Some? && r.ssh.value.config.enabled {
      SshServes(d, host);
    }
    forall id: nat | id < |d.endpoints| && !d.endpoints[id].stop ensures exists slot :: Holds(r, slot, id) {
      assert Matches(d.endpoints[id], r, id);
    }
  }

  /** And at every moment, not only at rest: an endpoint that has ended was told to stop, and an
      endpoint that is held never ends, while each of its generations respects the limits of the
      configuration it was spawned for. */
  lemma HeldEndpointsStayUp(c: Reload.ConfigText, k: Reload.KeyText, steps: seq<Step>, host: string, id: nat)
    requires Valid(Init(c, k), steps, host)
    requires id < |Run(Init(c, k), steps, host).endpoints|
    ensures var d := Run(Init(c, k), steps, host);
            var r, s := d.reload.runner, d.endpoints[id];
            && id < |r.spawned|
            && (s.stop <==> id in r.signalled)
            && (s.pc.Ended? ==> id in r.signalled)
            && ((exists slot :: Holds(r, slot, id)) ==> !s.stop && !s.pc.Ended?)
            && (forall g :: 0 <= g < |s.pool.gens| ==>
                  && Pool.IdleIn(s.pool.gens[g]) <= r.spawned[id].idleconns
                  && Pool.IdleIn(s.pool.gens[g]) + Pool.ActiveIn(s.pool.gens[g]) <= r.spawned[id].maxconns)
  {
    NothingLeaks([], host);
    RunKeepsInv(Init(c, k), steps, host);
    var d := Run(Init(c, k), steps, host);
    var s := d.endpoints[id];
    assert Matches(s, d.reload.runner, id);
    if slot :| Holds(d.reload.runner, slot, id) {
      HeldIsRunning(d.reload.runner, slot, id);
    }
    forall g | 0 <= g < |s.pool.gens|
      ensures Pool.IdleIn(s.pool.gens[g]) <= s.pool.limits.idleconns
      ensures Pool.IdleIn(s.pool.gens[g]) + Pool.ActiveIn(s.pool.gens[g]) <= s.pool.limits.maxconns
    {
      assert Pool.GenOk(s.pool.limits, s.pool.now, s.pool.gens[g]);
      PoolSafety.GenerationBounds(s.pool.limits, s.pool.gens[g]);
    }
  }

  // ---------------------------------------------------------------- what the daemon can do

  lemma {:induction false} RunConcat(d: State, a: seq<Step>, b: seq<Step>, host: string)
    requires Valid(d, a, host) && Valid(Run(d, a, host), b, host)
    ensures Valid(d, a + b, host) && Run(d, a + b, host) == Run(Run(d, a, host), b, host)
    decreases |a|
  {
    if a == [] {
      assert a + b == b;
    } else {
      assert (a + b)[1..] == a[1..] + b;
      RunConcat(Apply(d, a[0], host), a[1..], b, host);
    }
  }

  lemma Then(d: State, steps: seq<Step>, step: Step, host: string) returns (longer: seq<Step>)
    requires Valid(d, steps, host) && Enabled(Run(d, steps, host), step)
    ensures Valid(d, longer, host) && Run(d, longer, host) == Apply(Run(d, steps, host), step, host)
  {
    longer := steps + [step];
    assert Valid(Run(d, steps, host), [step], host);
    RunConcat(d, steps, [step], host);
  }

  function Lifted(id: nat, steps: seq<Supervisor.Step>): seq<Step> {
    seq(|steps|, k requires 0 <= k < |steps| => Step.Endpoint(id, steps[k]))
  }

  /** An endpoint runs in the daemon as it runs alone: nothing but its stop signal ties it. */
  lemma {:induction false} EndpointsRunFreely(d: State, id: nat, steps: seq<Supervisor.Step>, host: string)
    requires id < |d.endpoints| && Supervisor.Valid(d.endpoints[id], steps)
    requires Supervisor.NoStops(steps)
    ensures Valid(d, Lifted(id, steps), host)
    ensures Run(d, Lifted(id, steps), host)
         == d.(endpoints := d.endpoints[id := Supervisor.Run(d.endpoints[id], steps)])
    decreases |steps|
  {
    if steps == [] {
      assert d.endpoints[id := d.endpoints[id]] == d.endpoints;
    } else {
      var d1 := Apply(d, Step.Endpoint(id, steps[0]), host);
      assert Lifted(id, steps)[1..] == Lifted(id, steps[1..]);
      EndpointsRunFreely(d1, id, steps[1..], host);
      assert d1.endpoints[id := Supervisor.Run(d1.endpoints[id], steps[1..])]
          == d.endpoints[id := Supervisor.Run(d.endpoints[id], steps)];
    }
  }

  /** An endpoint the runner has stopped goes away by itself: from every reachable state of the
      daemon, with no check result and nobody at the other end of its connections, it can end with
      every connection closed, every permit back and both counters at zero. */
  lemma StoppedEndpointsGo(c: Reload.ConfigText, k: Reload.KeyText, steps: seq<Step>, host: string, id: nat)
    returns (more: seq<Supervisor.Step>)
    requires Valid(Init(c, k), steps, host)
    requires id in Run(Init(c, k), steps, host).reload.runner.signalled
    ensures var d := Run(Init(c, k), steps, host);
            && id < |d.endpoints|
            && Supervisor.SelfDriven(more)
            && Valid(d, Lifted(id, more), host)
            && id < |Run(d, Lifted(id, more), host).endpoints|
            && Supervisor.ShutDown(Run(d, Lifted(id, more), host).endpoints[id])
  {
    NothingLeaks([], host);
    RunKeepsInv(Init(c, k), steps, host);
    var d := Run(Init(c, k), steps, host);
    assert id < |d.reload.runner.spawned|;
    assert Matches(d.endpoints[id], d.reload.runner, id);
    more := Supervisor.StopShutsDown(d.endpoints[id]);
    EndpointsRunFreely(d, id, more, host);
  }

  /** A daemon started on a configuration and a key has taken them up after its first load. */
  lemma FirstLoad(cfg: DaemonConfig, key: string, host: string) returns (steps: seq<Step>)
    ensures var start := Init(Reload.Parsed(cfg), Reload.Key(key));
            && Valid(start, steps, host)
            && var d := Run(start, steps, host);
               && Reload.Quiescent(d.reload) && d.reload.config == start.reload.config
               && d.reload.key == start.reload.key
               && |d.endpoints| == |d.reload.runner.spawned|
               && forall id :: 0 <= id < |d.endpoints| ==> d.endpoints[id] == Followed([], d.reload.runner, id)
  {
    var start := Init(Reload.Parsed(cfg), Reload.Key(key));
    steps := Then(start, [], Loader(Reload.ReadConfig), host);
    steps := Then(start, steps, Loader(Reload.ReadKey), host);
    assert Run(start, steps, host).endpoints == [];
    steps := Then(start, steps, Loader(Reload.ApplyLoaded), host);
  }

  /** And the daemon does serve: started on a configuration and a key, it can bring every enabled
      endpoint with usable limits to as many proxying connections as that endpoint may have. */
  lemma DaemonCanServe(cfg: DaemonConfig, key: string, host: string, n: string) returns (steps: seq<Step>)
    requires Named(cfg.endpoints, n)
    requires var e := cfg.endpoints[LastIndex(cfg.endpoints, n)]; e.enabled && e.maxidle >= 1 && e.maxconns >= 1
    ensures var start := Init(Reload.Parsed(cfg), Reload.Key(key));
            && Valid(start, steps, host)
            && var d := Run(start, steps, host);
               && n in d.reload.runner.endpoints
               && d.reload.runner.endpoints[n].switch.Enabled?
               && d.reload.runner.endpoints[n].switch.id < |d.endpoints|
               && d.endpoints[d.reload.runner.endpoints[n].switch.id].pool.active
                  == cfg.endpoints[LastIndex(cfg.endpoints, n)].maxconns
  {
    var start := Init(Reload.Parsed(cfg), Reload.Key(key));
    steps := FirstLoad(cfg, key, host);
    DaemonServesItsConfiguration(start.reload.config.content, start.reload.key.content, steps, host, n);
    var d := Run(start, steps, host);
    var id := d.reload.runner.endpoints[n].switch.id;
    var up, _ := SharedCounters.LaunchAndConnect(d.endpoints[id], cfg.endpoints[LastIndex(cfg.endpoints, n)].maxconns);
    EndpointsRunFreely(d, id, up, host);
    RunConcat(start, steps, Lifted(id, up), host);
    steps := steps + Lifted(id, up);
  }
}
