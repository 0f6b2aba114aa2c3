/** What an update achieves: the declarative target it reaches from any history, exactly which
    endpoints it stops and starts, and exactly when repeating it does nothing. */
module ReconcilerTheorems {
  import opened Wrappers
  import opened Config
  import opened Reconciler

  // ---------------------------------------------------------------- the declarative target

  /** What the daemon shows: the configuration of every endpoint and of ssh. */
  datatype View = View(endpoints: map<string, Endpoint>, ssh: Option<SshConfiguration>)

  ghost function ViewOf(r: Runner): View {
    View(map n | n in r.endpoints :: r.endpoints[n].config,
         if r.ssh.Some? then Some(r.ssh.value.config) else None)
  }

  /** The view a configuration asks for: every configured name with its last entry. */
  ghost function Target(cfg: DaemonConfig, host: string): View {
    View(map n | n in NameSet(cfg.endpoints) && Named(cfg.endpoints, n) ::
           cfg.endpoints[LastIndex(cfg.endpoints, n)],
         if cfg.ssh.Some? then Some(SshSettings(cfg.ssh.value, host)) else None)
  }

  /** After the endpoint loop, a configured name holds its last entry; any other is untouched. */
  lemma {:induction false} PutAllInstalls(r: Runner, eps: seq<Endpoint>, n: string)
    ensures var r' := PutAll(r, eps);
            && (n in r'.endpoints <==> n in r.endpoints || Named(eps, n))
            && (n in r.endpoints && !Named(eps, n) ==> r'.endpoints[n] == r.endpoints[n])
            && (Named(eps, n) ==> r'.endpoints[n].config == eps[LastIndex(eps, n)])
            && r'.ssh == r.ssh && r'.key == r.key && r'.status == r.status
  {
    if eps != [] {
      NamedSplit(eps, n);
      PutAllInstalls(r, eps[..|eps| - 1], n);
    }
  }

  lemma NamesAreNamed(eps: seq<Endpoint>, n: string)
    ensures n in NameSet(eps) <==> Named(eps, n)
  {
  }

  ghost predicate ShowsAt(r: Runner, eps: seq<Endpoint>, n: string) {
    && (n in r.endpoints <==> Named(eps, n))
    && (Named(eps, n) ==> r.endpoints[n].config == eps[LastIndex(eps, n)])
  }

  /** The table shows `eps`: its names are the configured ones, each with its last entry. */
  ghost predicate Shows(r: Runner, eps: seq<Endpoint>) {
    forall n :: ShowsAt(r, eps, n)
  }

  lemma ReconciledShows(r: Runner, cfg: DaemonConfig, host: string)
    ensures Shows(Reconciled(r, cfg, host), cfg.endpoints)
  {
    var kept := Retained(r, NameSet(cfg.endpoints));
    forall n ensures ShowsAt(Reconciled(r, cfg, host), cfg.endpoints, n) {
      NamesAreNamed(cfg.endpoints, n);
      PutAllInstalls(kept, cfg.endpoints, n);
    }
  }

  /** Reconciliation refines the target: whatever the runner held before, the visible result is the
      one the configuration asks for. */
  lemma ReconciledShowsTarget(r: Runner, cfg: DaemonConfig, host: string)
    ensures ViewOf(Reconciled(r, cfg, host)) == Target(cfg, host)
  {
    ReconciledShows(r, cfg, host);
    var r' := Reconciled(r, cfg, host);
    forall n
      ensures n in r'.endpoints <==> n in Target(cfg, host).endpoints
      ensures n in r'.endpoints ==> r'.endpoints[n].config == Target(cfg, host).endpoints[n]
    {
      NamesAreNamed(cfg.endpoints, n);
      assert ShowsAt(r', cfg.endpoints, n);
    }
    assert ViewOf(r').endpoints == Target(cfg, host).endpoints;
  }

  lemma UpdateShowsTarget(r: Runner, config: Option<DaemonConfig>, key: Option<string>, host: string)
    requires Owned(r)
    ensures var r' := Update(r, config, key, host);
            && Owned(r')
            && r'.key == (if key.Some? then key else r.key)
            && (r'.status.Good? <==> r'.key.Some?)
            && (config.Some? && r'.key.Some? ==> ViewOf(r') == Target(config.value, host))
  {
    UpdateKeepsOwned(r, config, key, host);
    var r1 := if key.Some? then r.(key := key) else r;
    if config.Some? && r1.key.Some? {
      var good := r1.(status := Good);
      ReconciledShowsTarget(good, config.value, host);
      PutAllInstalls(Retained(good, NameSet(config.value.endpoints)), config.value.endpoints, "");
    }
  }

  // ---------------------------------------------------------------- what runs, field by field

  /** Endpoint `id` is up and was started for the entry `e`. */
  ghost predicate RunsEntry(r: Runner, id: nat, e: Endpoint) {
    && id < |r.spawned| && id !in r.signalled
    && r.spawned[id].ctype == TlsType
    && r.spawned[id].endpoint == e.dns
    && r.spawned[id].port == e.port
    && r.spawned[id].idleconns == (if e.maxidle < 1000 then e.maxidle else 1000)
    && r.spawned[id].maxconns == e.maxconns
    && r.spawned[id].healthcheck == e.healthcheck
  }

  /** Endpoint `id` is up and was started for ssh, under the configured host name or, without one,
      that of the machine. */
  ghost predicate RunsSsh(r: Runner, id: nat, ssh: Ssh, host: string) {
    && id < |r.spawned| && id !in r.signalled
    && r.spawned[id].ctype == SshType
    && r.spawned[id].endpoint == (if ssh.hostnameOverride.Some? then ssh.hostnameOverride.value else host)
    && r.spawned[id].port == ssh.port
    && r.spawned[id].idleconns == ssh.maxidle
    && r.spawned[id].maxconns == ssh.maxconns
    && r.spawned[id].healthcheck.None?
  }

  ghost predicate RunsNamed(r: Runner, eps: seq<Endpoint>, n: string) {
    && (n in r.endpoints <==> Named(eps, n))
    && (Named(eps, n) ==>
          var e := eps[LastIndex(eps, n)];
          && r.endpoints[n].config == e
          && if e.enabled then r.endpoints[n].switch.Enabled? && RunsEntry(r, r.endpoints[n].switch.id, e)
             else r.endpoints[n].switch.Disabled?)
  }

  /** Every configured name runs its last entry if that is enabled and is off otherwise, and so is
      ssh; there is nothing else. */
  ghost predicate RunsAsConfigured(r: Runner, cfg: DaemonConfig, host: string) {
    && (forall n :: RunsNamed(r, cfg.endpoints, n))
    && (r.ssh.Some? <==> cfg.ssh.Some?)
    && (cfg.ssh.Some? ==>
          if cfg.ssh.value.enabled
          then r.ssh.value.switch.Enabled? && RunsSsh(r, r.ssh.value.switch.id, cfg.ssh.value, host)
          else r.ssh.value.switch.Disabled?)
  }

  /** A runner that owns what it holds and shows the target runs as configured. */
  lemma RunsTheTarget(r: Runner, cfg: DaemonConfig, host: string)
    requires Owned(r) && ViewOf(r) == Target(cfg, host)
    ensures RunsAsConfigured(r, cfg, host)
  {
    forall n ensures RunsNamed(r, cfg.endpoints, n) {
      NamesAreNamed(cfg.endpoints, n);
      assert n in ViewOf(r).endpoints <==> n in r.endpoints;
      if n in r.endpoints {
        assert r.endpoints[n].config == ViewOf(r).endpoints[n] == cfg.endpoints[LastIndex(cfg.endpoints, n)];
      }
    }
    assert ViewOf(r).ssh == Target(cfg, host).ssh;
  }

  /** The whole update, over every reachable runner: with a key and a configuration the names are
      exactly the configured ones, each with its last entry, running exactly if that entry is enabled
      and with that entry's arguments; without one of them nothing is touched. The key is the new one
      or else the last. */
  lemma UpdateReachesTarget(calls: seq<Call>, config: Option<DaemonConfig>, key: Option<string>, host: string)
    ensures var r := Updates(New(), calls, host);
            var r' := Update(r, config, key, host);
            && r'.key == (if key.Some? then key else r.key)
            &&
            if (key.Some? || r.key.Some?) && config.Some? then
              && r'.status.Good?
              && RunsAsConfigured(r', config.value, host)
              && ViewOf(r') == Target(config.value, host)
              && (forall n :: n in r'.endpoints ==>
                    (r'.endpoints[n].switch.Enabled? <==> r'.endpoints[n].config.enabled))
              && (forall n :: n in r'.endpoints && r'.endpoints[n].config.enabled ==>
                    Running(r', r'.endpoints[n].switch.id, TlsArgs(r'.endpoints[n].config)))
              && (r'.ssh.Some? ==> (r'.ssh.value.switch.Enabled? <==> r'.ssh.value.config.enabled))
              && (r'.ssh.Some? && r'.ssh.value.config.enabled ==>
                    Running(r', r'.ssh.value.switch.id, SshArgs(r'.ssh.value.config)))
            else
              && r'.endpoints == r.endpoints && r'.ssh == r.ssh
              && r'.spawned == r.spawned && r'.signalled == r.signalled
              && (r'.status.Good? <==> key.Some? || r.key.Some?)
  {
    NothingLeaks(calls, host);
    var r := Updates(New(), calls, host);
    UpdateShowsTarget(r, config, key, host);
    if (key.Some? || r.key.Some?) && config.Some? {
      RunsTheTarget(Update(r, config, key, host), config.value, host);
    }
  }

  // ---------------------------------------------------------------- minimal disturbance

  /** The entry is new to the table or differs from what the table has. */
  predicate Fresh(r: Runner, e: Endpoint) {
    !(e.dns in r.endpoints && r.endpoints[e.dns].config == e)
  }

  /** The endpoints a set of distinct entries makes the runner start, in order. */
  ghost function StartedBy(r: Runner, eps: seq<Endpoint>): seq<EndpointArgs> {
    if eps == [] then []
    else
      var e := eps[|eps| - 1];
      StartedBy(r, eps[..|eps| - 1]) + (if e.enabled && Fresh(r, e) then [TlsArgs(e)] else [])
  }

  /** The endpoints replaced by one of the entries. */
  ghost function StoppedBy(r: Runner, eps: seq<Endpoint>): set<nat> {
    set i, id | 0 <= i < |eps| && eps[i].dns in r.endpoints && Fresh(r, eps[i])
                && id in IdOf(r.endpoints[eps[i].dns].switch) :: id
  }

  /** For distinct names, the endpoint loop stops and starts exactly what the fresh entries say. */
  lemma {:induction false} PutAllDisturbs(r: Runner, eps: seq<Endpoint>)
    requires DistinctNames(eps)
    ensures PutAll(r, eps).spawned == r.spawned + StartedBy(r, eps)
    ensures PutAll(r, eps).signalled == r.signalled + StoppedBy(r, eps)
  {
    if eps != [] {
      var k := |eps| - 1;
      PutAllDisturbs(r, eps[..k]);
      assert !Named(eps[..k], eps[k].dns);
      PutAllInstalls(r, eps[..k], eps[k].dns);
      SplitStopped(r, eps);
    }
  }

  lemma {:induction false} UnchangedEntryStays(r: Runner, eps: seq<Endpoint>, i: nat)
    requires DistinctNames(eps) && i < |eps| && !Fresh(r, eps[i])
    ensures eps[i].dns in PutAll(r, eps).endpoints
    ensures PutAll(r, eps).endpoints[eps[i].dns] == r.endpoints[eps[i].dns]
  {
    var k := |eps| - 1;
    if i < k {
      UnchangedEntryStays(r, eps[..k], i);
    } else {
      assert !Named(eps[..k], eps[k].dns);
      PutAllInstalls(r, eps[..k], eps[k].dns);
    }
  }

  lemma SplitStopped(r: Runner, eps: seq<Endpoint>)
    requires eps != []
    ensures var e := eps[|eps| - 1];
            StoppedBy(r, eps) == StoppedBy(r, eps[..|eps| - 1])
              + (if e.dns in r.endpoints && Fresh(r, e) then IdOf(r.endpoints[e.dns].switch) else {})
  {
  }

  /** The ssh slot as the configuration wants it. */
  function SshWanted(cfg: DaemonConfig, host: string): Option<SshConfiguration> {
    if cfg.ssh.Some? then Some(SshSettings(cfg.ssh.value, host)) else None
  }

  predicate SshChanges(r: Runner, wanted: Option<SshConfiguration>) {
    !(r.ssh.Some? && wanted.Some? && r.ssh.value.config == wanted.value)
  }

  lemma PutSshDisturbs(r: Runner, cfg: DaemonConfig, host: string)
    ensures var wanted := SshWanted(cfg, host);
            var r' := PutSsh(r, cfg.ssh, host);
            && r'.spawned == r.spawned
               + (if wanted.Some? && SshChanges(r, wanted) && wanted.value.enabled then [SshArgs(wanted.value)] else [])
            && r'.signalled == r.signalled
               + (if r.ssh.Some? && SshChanges(r, wanted) then IdOf(r.ssh.value.switch) else {})
  {
  }

  /** Endpoints whose name left the configuration. */
  ghost function Departed(r: Runner, eps: seq<Endpoint>): set<nat> {
    set n | n in r.endpoints && n !in NameSet(eps) && r.endpoints[n].switch.Enabled? :: r.endpoints[n].switch.id
  }

  /** Minimal disturbance: for distinct names, an update stops exactly the running endpoints whose
      name left the configuration or whose entry changed, and starts exactly the enabled entries
      that are new or changed; ssh likewise. */
  lemma UpdateDisturbsOnlyChanges(r: Runner, cfg: DaemonConfig, host: string)
    requires DistinctNames(cfg.endpoints)
    ensures var eps, wanted := cfg.endpoints, SshWanted(cfg, host);
            var r' := Reconciled(r, cfg, host);
            && r'.spawned == r.spawned + StartedBy(r, eps)
               + (if wanted.Some? && SshChanges(r, wanted) && wanted.value.enabled then [SshArgs(wanted.value)] else [])
            && r'.signalled == r.signalled + Departed(r, eps) + StoppedBy(r, eps)
               + (if r.ssh.Some? && SshChanges(r, wanted) then IdOf(r.ssh.value.switch) else {})
  {
    var eps := cfg.endpoints;
    var kept := Retained(r, NameSet(eps));
    PutAllDisturbs(kept, eps);
    PutAllInstalls(kept, eps, "");
    assert forall i :: 0 <= i < |eps| ==> eps[i].dns in NameSet(eps);
    SameEffects(r, kept, eps);
    PutSshDisturbs(PutAll(kept, eps), cfg, host);
  }

  /** Only the entries named by `eps` matter to its effects. */
  lemma {:induction false} SameEffects(r: Runner, kept: Runner, eps: seq<Endpoint>)
    requires forall i :: 0 <= i < |eps| ==>
               && (eps[i].dns in kept.endpoints <==> eps[i].dns in r.endpoints)
               && (eps[i].dns in r.endpoints ==> kept.endpoints[eps[i].dns] == r.endpoints[eps[i].dns])
    ensures StartedBy(kept, eps) == StartedBy(r, eps)
    ensures StoppedBy(kept, eps) == StoppedBy(r, eps)
  {
    if eps != [] {
      SameEffects(r, kept, eps[..|eps| - 1]);
      SplitStopped(r, eps);
      SplitStopped(kept, eps);
    }
  }

  /** In particular an unchanged endpoint keeps the very same instance, still not signalled. */
  lemma UnchangedKeepsRunning(r: Runner, cfg: DaemonConfig, host: string, i: nat)
    requires Owned(r) && DistinctNames(cfg.endpoints) && i < |cfg.endpoints|
    requires !Fresh(r, cfg.endpoints[i])
    ensures var n := cfg.endpoints[i].dns;
            var r' := Reconciled(r, cfg, host);
            && n in r'.endpoints
            && r'.endpoints[n] == r.endpoints[n]
            && (forall id :: id in IdOf(r.endpoints[n].switch) ==> id !in r'.signalled)
  {
    var n := cfg.endpoints[i].dns;
    var kept := Retained(r, NameSet(cfg.endpoints));
    assert n in NameSet(cfg.endpoints);
    UnchangedEntryStays(kept, cfg.endpoints, i);
    ReconciledKeepsOwned(r, cfg, host);
    var r' := Reconciled(r, cfg, host);
    forall id | id in IdOf(r.endpoints[n].switch) ensures id !in r'.signalled {
      HeldIsRunning(r', Entry(n), id);
    }
  }

  lemma ReconciledKeepsOwned(r: Runner, cfg: DaemonConfig, host: string)
    requires Owned(r)
    ensures Owned(Reconciled(r, cfg, host))
  {
    var kept := Retained(r, NameSet(cfg.endpoints));
    RetainKeepsOwned(r, NameSet(cfg.endpoints));
    PutAllKeepsOwned(kept, cfg.endpoints);
    PutSshKeepsOwned(PutAll(kept, cfg.endpoints), cfg.ssh, host);
  }

  // ---------------------------------------------------------------- repeating an update

  /** Two entries of one name agree, or neither runs. */
  predicate Quiet2(a: Endpoint, b: Endpoint) {
    a.dns == b.dns ==> a == b || (!a.enabled && !b.enabled)
  }

  ghost predicate QuietDuplicates(eps: seq<Endpoint>) {
    forall i, j :: 0 <= i < |eps| && 0 <= j < |eps| ==> Quiet2(eps[i], eps[j])
  }

  ghost predicate NoEffect(r: Runner, r': Runner) {
    r'.spawned == r.spawned && r'.signalled == r.signalled
  }

  /** Stops and spawns are never taken back. */
  lemma {:induction false} EffectsGrow(r: Runner, eps: seq<Endpoint>)
    ensures |r.spawned| <= |PutAll(r, eps).spawned| && r.spawned <= PutAll(r, eps).spawned
    ensures r.signalled <= PutAll(r, eps).signalled
  {
    if eps != [] {
      EffectsGrow(r, eps[..|eps| - 1]);
    }
  }

  lemma NoEffectOnPrefix(r: Runner, eps: seq<Endpoint>)
    requires eps != [] && NoEffect(r, PutAll(r, eps))
    ensures NoEffect(r, PutAll(r, eps[..|eps| - 1]))
    ensures NoEffect(PutAll(r, eps[..|eps| - 1]), PutAll(r, eps))
  {
    EffectsGrow(r, eps[..|eps| - 1]);
    var mid := PutAll(r, eps[..|eps| - 1]);
    assert mid.spawned <= PutAll(r, eps).spawned && mid.signalled <= PutAll(r, eps).signalled;
    assert mid.spawned == r.spawned;
  }

  /** A turn of the loop without effect met an entry that agrees with the table or is disabled. */
  lemma QuietTurn(r: Runner, e: Endpoint)
    requires Owned(r) && e.dns in r.endpoints && NoEffect(r, PutEndpoint(r, e))
    ensures var was := r.endpoints[e.dns].config;
            if was.enabled then e == was else !e.enabled
  {
  }

  /** Without effect, every entry of a running name is the one already running, and every entry of
      a name that is not running is disabled. */
  lemma {:induction false} NoEffectForcesQuiet(r: Runner, eps: seq<Endpoint>, n: string)
    requires Owned(r) && n in r.endpoints && NoEffect(r, PutAll(r, eps))
    ensures var was, now := r.endpoints[n].config, PutAll(r, eps).endpoints;
            n in now && (if was.enabled then now[n].config == was else !now[n].config.enabled)
    ensures forall i :: 0 <= i < |eps| && eps[i].dns == n ==>
              if r.endpoints[n].config.enabled then eps[i] == r.endpoints[n].config else !eps[i].enabled
  {
    if eps != [] {
      var k := |eps| - 1;
      NoEffectOnPrefix(r, eps);
      NoEffectForcesQuiet(r, eps[..k], n);
      if eps[k].dns == n {
        PutAllKeepsOwned(r, eps[..k]);
        QuietTurn(PutAll(r, eps[..k]), eps[k]);
      }
      forall i | 0 <= i < |eps| && eps[i].dns == n
        ensures if r.endpoints[n].config.enabled then eps[i] == r.endpoints[n].config else !eps[i].enabled
      {
        assert i < k ==> eps[i] == eps[..k][i];
      }
    }
  }

  /** And conversely: quiet entries that agree with the table cause no stop and no spawn. */
  lemma {:induction false} QuietHasNoEffect(r: Runner, eps: seq<Endpoint>)
    requires Consistent(r)
    requires forall i :: 0 <= i < |eps| ==> eps[i].dns in r.endpoints && Quiet2(eps[i], r.endpoints[eps[i].dns].config)
    ensures var r' := PutAll(r, eps);
            && NoEffect(r, r')
            && r'.endpoints.Keys == r.endpoints.Keys
            && (forall n :: n in r.endpoints ==>
                  && (r.endpoints[n].config.enabled ==> r'.endpoints[n] == r.endpoints[n])
                  && (!r.endpoints[n].config.enabled ==>
                        r'.endpoints[n].switch.Disabled? && !r'.endpoints[n].config.enabled))
            && r'.ssh == r.ssh && r'.key == r.key && r'.status == r.status
  {
    if eps != [] {
      QuietHasNoEffect(r, eps[..|eps| - 1]);
    }
  }

  /** A second round has nothing to remove and leaves ssh alone. */
  lemma SecondRound(r: Runner, cfg: DaemonConfig, host: string)
    ensures var r1 := Reconciled(r, cfg, host);
            Reconciled(r1, cfg, host) == PutAll(r1, cfg.endpoints)
  {
    var eps := cfg.endpoints;
    var r1 := Reconciled(r, cfg, host);
    ReconciledShows(r, cfg, host);
    forall n | n in r1.endpoints ensures n in NameSet(eps) {
      assert ShowsAt(r1, eps, n);
      NamesAreNamed(eps, n);
    }
    assert Retained(r1, NameSet(eps)).endpoints == r1.endpoints;
    assert Retained(r1, NameSet(eps)) == r1;
    PutAllInstalls(r1, eps, "");
  }

  lemma NoEffectMeansQuiet(r: Runner, eps: seq<Endpoint>)
    requires Owned(r) && Shows(r, eps) && NoEffect(r, PutAll(r, eps))
    ensures QuietDuplicates(eps)
  {
    forall i, j | 0 <= i < |eps| && 0 <= j < |eps| ensures Quiet2(eps[i], eps[j]) {
      assert Named(eps, eps[i].dns) && ShowsAt(r, eps, eps[i].dns);
      NoEffectForcesQuiet(r, eps, eps[i].dns);
    }
  }

  lemma QuietMeansNoChange(r: Runner, eps: seq<Endpoint>)
    requires Owned(r) && Shows(r, eps) && QuietDuplicates(eps)
    ensures PutAll(r, eps) == r
  {
    forall i | 0 <= i < |eps| ensures eps[i].dns in r.endpoints && Quiet2(eps[i], r.endpoints[eps[i].dns].config) {
      assert Named(eps, eps[i].dns) && ShowsAt(r, eps, eps[i].dns);
      assert Quiet2(eps[i], eps[LastIndex(eps, eps[i].dns)]);
    }
    QuietHasNoEffect(r, eps);
    var r' := PutAll(r, eps);
    forall n | n in r.endpoints ensures r'.endpoints[n] == r.endpoints[n] {
      assert ShowsAt(r, eps, n);
      PutAllInstalls(r, eps, n);
    }
    assert r'.endpoints == r.endpoints;
  }

  /** Idempotence, with its exact condition: applying the same configuration twice performs no stop
      and no spawn if and only if entries that share a dns name agree or are all disabled; then the
      second application changes nothing at all. */
  lemma IdempotentIffQuiet(r: Runner, cfg: DaemonConfig, host: string)
    requires Owned(r)
    ensures var r1 := Reconciled(r, cfg, host);
            var r2 := Reconciled(r1, cfg, host);
            && (NoEffect(r1, r2) <==> QuietDuplicates(cfg.endpoints))
            && (r2 == r1 <==> QuietDuplicates(cfg.endpoints))
  {
    ReconciledKeepsOwned(r, cfg, host);
    ReconciledShows(r, cfg, host);
    SecondRound(r, cfg, host);
    var r1 := Reconciled(r, cfg, host);
    if NoEffect(r1, PutAll(r1, cfg.endpoints)) {
      NoEffectMeansQuiet(r1, cfg.endpoints);
    }
    if QuietDuplicates(cfg.endpoints) {
      QuietMeansNoChange(r1, cfg.endpoints);
    }
  }

  /** Distinct names are quiet, so such a configuration can be reloaded any number of times. */
  lemma DistinctIsQuiet(eps: seq<Endpoint>)
    requires DistinctNames(eps)
    ensures QuietDuplicates(eps)
  {
  }

  /** Two enabled entries of one name that differ restart each other: from whatever state, every
      reload after the first stops two endpoints and starts two. */
  lemma DuplicatesRestartOnReload(r: Runner, cfg: DaemonConfig, host: string)
    requires Owned(r)
    requires |cfg.endpoints| == 2 && cfg.endpoints[0].dns == cfg.endpoints[1].dns
    requires cfg.endpoints[0] != cfg.endpoints[1] && cfg.endpoints[0].enabled && cfg.endpoints[1].enabled
    ensures var r1 := Reconciled(r, cfg, host);
            var r2 := Reconciled(r1, cfg, host);
            && Owned(r1)
            && |r2.spawned| == |r1.spawned| + 2
            && |r2.signalled| == |r1.signalled| + 2
  {
    var e, f := cfg.endpoints[0], cfg.endpoints[1];
    ReconciledKeepsOwned(r, cfg, host);
    ReconciledShows(r, cfg, host);
    SecondRound(r, cfg, host);
    var r1 := Reconciled(r, cfg, host);
    assert cfg.endpoints == [e, f];
    assert ShowsAt(r1, cfg.endpoints, f.dns) && Named(cfg.endpoints, f.dns);
    RestartsTwice(r1, e, f);
  }

  lemma RestartsTwice(r: Runner, e: Endpoint, f: Endpoint)
    requires Owned(r) && e.dns == f.dns && e != f && e.enabled && f.enabled
    requires f.dns in r.endpoints && r.endpoints[f.dns].config == f
    ensures var r' := PutAll(r, [e, f]);
            |r'.spawned| == |r.spawned| + 2 && |r'.signalled| == |r.signalled| + 2
  {
    var mid := PutEndpoint(r, e);
    assert PutAll(r, [e, f]) == PutEndpoint(mid, f) by {
      assert [e, f][..1] == [e] && [e][..0] == [];
      assert PutAll(r, []) == r && PutAll(r, [e]) == mid;
    }
    Restarts(r, e);
    PutEndpointKeepsOwned(r, e);
    Restarts(mid, f);
  }

  /** An enabled entry that differs from the running one of its name replaces it. */
  lemma Restarts(r: Runner, e: Endpoint)
    requires Owned(r) && e.enabled && e.dns in r.endpoints
    requires r.endpoints[e.dns].config != e && r.endpoints[e.dns].config.enabled
    ensures var r' := PutEndpoint(r, e);
            && |r'.spawned| == |r.spawned| + 1
            && |r'.signalled| == |r.signalled| + 1
            && r'.endpoints[e.dns].config == e
  {
    var id := r.endpoints[e.dns].switch.id;
    assert PutEndpoint(r, e).signalled == r.signalled + {id};
  }
}
