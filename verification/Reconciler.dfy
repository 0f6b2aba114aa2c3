/** `InnerDaemonRunner::update_config`: turning the running set of endpoints into the configured
    one by stops and spawns.

    `Runner` is the runner's state together with what it has done to the outside world: the
    arguments of every endpoint ever spawned (an endpoint's id is its index) and the ids that
    have been signalled to stop. The functions below specify each part of an update; the class
    `DaemonRunner.InnerDaemonRunner` is the update itself, with the source's loops, proved against
    them. */
module Reconciler {
  import opened Wrappers
  import opened Config

  const MAX_MAX_IDLE: nat := 1000

  datatype ConnectionType = TlsType | SshType

  datatype EndpointArgs = EndpointArgs(
    ctype: ConnectionType, idleconns: nat, maxconns: nat, endpoint: string, port: nat,
    healthcheck: Option<HealthCheck>)

  /** EnabledDisabled: a running endpoint is known by its id. */
  datatype Switch = Enabled(id: nat) | Disabled

  datatype Instance<C> = Instance(switch: Switch, config: C)

  datatype SshConfiguration = SshConfiguration(
    port: nat, max: nat, hostname: string, enabled: bool, maxidle: nat)

  datatype StatusMeta = Uninitialized | Good

  datatype Runner = Runner(
    endpoints: map<string, Instance<Endpoint>>,
    ssh: Option<Instance<SshConfiguration>>,
    status: StatusMeta,
    key: Option<string>,
    spawned: seq<EndpointArgs>,
    signalled: set<nat>)

  function New(): Runner {
    Runner(map[], None, Uninitialized, None, [], {})
  }

  function TlsArgs(e: Endpoint): EndpointArgs {
    EndpointArgs(TlsType, if e.maxidle < MAX_MAX_IDLE then e.maxidle else MAX_MAX_IDLE,
                 e.maxconns, e.dns, e.port, e.healthcheck)
  }

  function SshArgs(c: SshConfiguration): EndpointArgs {
    EndpointArgs(SshType, c.maxidle, c.max, c.hostname, c.port, None)
  }

  function SshSettings(ssh: Ssh, host: string): SshConfiguration {
    SshConfiguration(ssh.port, ssh.maxconns,
                     if ssh.hostnameOverride.Some? then ssh.hostnameOverride.value else host,
                     ssh.enabled, ssh.maxidle)
  }

  // ---------------------------------------------------------------- specification of an update

  function IdOf(s: Switch): set<nat> {
    if s.Enabled? then {s.id} else {}
  }

  function Stopped(r: Runner, s: Switch): Runner {
    r.(signalled := r.signalled + IdOf(s))
  }

  function NameSet(eps: seq<Endpoint>): set<string> {
    set i | 0 <= i < |eps| :: eps[i].dns
  }

  /** Entries outside `names` are stopped and removed. */
  function Retained(r: Runner, names: set<string>): Runner {
    r.(endpoints := map n | n in r.endpoints && n in names :: r.endpoints[n],
       signalled := r.signalled +
         set n | n in r.endpoints && n !in names && r.endpoints[n].switch.Enabled? :: r.endpoints[n].switch.id)
  }

  /** Start `args` if `enabled`, giving the new switch. */
  function Started(r: Runner, enabled: bool, args: EndpointArgs): (Runner, Switch) {
    if enabled then (r.(spawned := r.spawned + [args]), Enabled(|r.spawned|)) else (r, Disabled)
  }

  /** One turn of the endpoint loop. */
  function PutEndpoint(r: Runner, e: Endpoint): Runner {
    if e.dns in r.endpoints && r.endpoints[e.dns].config == e then r
    else
      var r1 := if e.dns in r.endpoints then Stopped(r, r.endpoints[e.dns].switch) else r;
      var (r2, s) := Started(r1, e.enabled, TlsArgs(e));
      r2.(endpoints := r2.endpoints[e.dns := Instance(s, e)])
  }

  function PutAll(r: Runner, eps: seq<Endpoint>): Runner {
    if eps == [] then r else PutEndpoint(PutAll(r, eps[..|eps| - 1]), eps[|eps| - 1])
  }

  function PutSsh(r: Runner, ssh: Option<Ssh>, host: string): Runner {
    match ssh
    case None =>
      if r.ssh.Some? then Stopped(r, r.ssh.value.switch).(ssh := None) else r
    case Some(wanted) =>
      var c := SshSettings(wanted, host);
      if r.ssh.Some? && r.ssh.value.config == c then r
      else
        var r1 := if r.ssh.Some? then Stopped(r, r.ssh.value.switch) else r;
        var (r2, s) := Started(r1, c.enabled, SshArgs(c));
        r2.(ssh := Some(Instance(s, c)))
  }

  function Reconciled(r: Runner, cfg: DaemonConfig, host: string): Runner {
    PutSsh(PutAll(Retained(r, NameSet(cfg.endpoints)), cfg.endpoints), cfg.ssh, host)
  }

  function Update(r: Runner, config: Option<DaemonConfig>, key: Option<string>, host: string): Runner {
    var r1 := if key.Some? then r.(key := key) else r;
    if r1.key.None? then r1.(status := Uninitialized)
    else if config.None? then r1.(status := Good)
    else Reconciled(r1.(status := Good), config.value, host)
  }

  // ---------------------------------------------------------------- ownership

  /** A place that can hold a running endpoint. */
  datatype Slot = Entry(name: string) | SshSlot

  ghost predicate Holds(r: Runner, slot: Slot, id: nat) {
    match slot
    case Entry(n) => n in r.endpoints && r.endpoints[n].switch == Enabled(id)
    case SshSlot => r.ssh.Some? && r.ssh.value.switch == Enabled(id)
  }

  /** What is held was spawned for the configuration beside it and has not been signalled. */
  ghost predicate Consistent(r: Runner) {
    && (forall n :: n in r.endpoints ==>
          && r.endpoints[n].config.dns == n
          && (r.endpoints[n].switch.Enabled? <==> r.endpoints[n].config.enabled)
          && (r.endpoints[n].switch.Enabled? ==>
                Running(r, r.endpoints[n].switch.id, TlsArgs(r.endpoints[n].config))))
    && (r.ssh.Some? ==>
          && (r.ssh.value.switch.Enabled? <==> r.ssh.value.config.enabled)
          && (r.ssh.value.switch.Enabled? ==> Running(r, r.ssh.value.switch.id, SshArgs(r.ssh.value.config))))
    && (forall id :: id in r.signalled ==> id < |r.spawned|)
  }

  ghost predicate Running(r: Runner, id: nat, args: EndpointArgs) {
    id < |r.spawned| && id !in r.signalled && r.spawned[id] == args
  }

  /** No endpoint is held twice. */
  ghost predicate Exclusive(r: Runner) {
    forall a: Slot, b: Slot, id: nat :: Holds(r, a, id) && Holds(r, b, id) ==> a == b
  }

  /** No endpoint is lost: whatever was spawned is held or has been told to stop. */
  ghost predicate NoLeak(r: Runner) {
    forall id: nat :: id < |r.spawned| ==> id in r.signalled || exists slot :: Holds(r, slot, id)
  }

  ghost predicate Owned(r: Runner) {
    Consistent(r) && Exclusive(r) && NoLeak(r)
  }

  lemma HeldIsRunning(r: Runner, slot: Slot, id: nat)
    requires Consistent(r) && Holds(r, slot, id)
    ensures id < |r.spawned| && id !in r.signalled
  {
  }

  /** Ownership is kept, the slots outside `names` are emptied and no other slot changes, and exactly
      what the emptied slots held is told to stop. */
  lemma RetainKeepsOwned(r: Runner, names: set<string>)
    requires Owned(r)
    ensures var r' := Retained(r, names);
            && Owned(r')
            && (forall slot: Slot, id: nat :: Holds(r', slot, id) <==>
                  Holds(r, slot, id) && (slot.SshSlot? || slot.name in names))
            && (forall id: nat :: id in r'.signalled <==>
                  id in r.signalled || exists n :: n !in names && Holds(r, Entry(n), id))
  {
    var r' := Retained(r, names);
    forall slot: Slot, id: nat | Holds(r', slot, id) ensures id !in r'.signalled {
      HeldIsRunning(r, slot, id);
      forall m | m in r.endpoints && r.endpoints[m].switch == Enabled(id) ensures slot == Entry(m) {
        assert Holds(r, Entry(m), id);
      }
    }
    forall n | n in r'.endpoints && r'.endpoints[n].switch.Enabled?
      ensures Running(r', r'.endpoints[n].switch.id, TlsArgs(r'.endpoints[n].config))
    {
      assert Holds(r', Entry(n), r'.endpoints[n].switch.id);
    }
    if r'.ssh.Some? && r'.ssh.value.switch.Enabled? {
      assert Holds(r', SshSlot, r'.ssh.value.switch.id);
    }
    assert forall slot: Slot, id: nat :: Holds(r', slot, id) ==> Holds(r, slot, id);
    forall n, id: nat | n !in names && Holds(r, Entry(n), id) ensures id in r'.signalled {
      assert r.endpoints[n].switch == Enabled(id);
    }
    forall id: nat | id in r'.signalled && id !in r.signalled ensures exists n :: n !in names && Holds(r, Entry(n), id) {
      var n :| n in r.endpoints && n !in names && r.endpoints[n].switch == Enabled(id);
      assert Holds(r, Entry(n), id);
    }
    forall id: nat | id < |r'.spawned| && id !in r'.signalled ensures exists slot :: Holds(r', slot, id) {
      var slot :| Holds(r, slot, id);
      assert Holds(r', slot, id);
    }
  }

  /** The two ways to fill a slot share this frame: old content stopped, new content started. */
  ghost predicate Refilled(r: Runner, slot: Slot, enabled: bool, args: EndpointArgs, r': Runner) {
    && (forall s: Slot, id: nat :: s != slot ==> (Holds(r', s, id) <==> Holds(r, s, id)))
    && (forall id: nat :: Holds(r', slot, id) <==> enabled && id == |r.spawned|)
    && (forall id: nat :: id in r'.signalled <==> id in r.signalled || Holds(r, slot, id))
    && r'.spawned == if enabled then r.spawned + [args] else r.spawned
  }

  lemma RefillKeepsOwnership(r: Runner, slot: Slot, enabled: bool, args: EndpointArgs, r': Runner)
    requires Owned(r) && Refilled(r, slot, enabled, args, r')
    ensures Exclusive(r') && NoLeak(r')
    ensures forall s: Slot, id: nat :: Holds(r', s, id) ==> id < |r'.spawned| && id !in r'.signalled
    ensures forall id :: id in r'.signalled ==> id < |r'.spawned|
  {
    forall s: Slot, id: nat | Holds(r', s, id) ensures id < |r'.spawned| && id !in r'.signalled {
      if s != slot {
        HeldIsRunning(r, s, id);
      }
    }
    forall a: Slot, b: Slot, id: nat | Holds(r', a, id) && Holds(r', b, id) ensures a == b {
      if a != slot {
        HeldIsRunning(r, a, id);
      }
      if b != slot {
        HeldIsRunning(r, b, id);
      }
    }
    forall id: nat | id < |r'.spawned| && id !in r'.signalled ensures exists s :: Holds(r', s, id) {
      if id == |r.spawned| {
        assert Holds(r', slot, id);
      } else {
        var s :| Holds(r, s, id);
        assert Holds(r', s, id);
      }
    }
    forall id | id in r'.signalled ensures id < |r'.spawned| {
      if id !in r.signalled {
        HeldIsRunning(r, slot, id);
      }
    }
  }

  lemma PutEndpointKeepsOwned(r: Runner, e: Endpoint)
    requires Owned(r)
    ensures Owned(PutEndpoint(r, e))
  {
    var r' := PutEndpoint(r, e);
    if r' != r {
      RefillKeepsOwnership(r, Entry(e.dns), e.enabled, TlsArgs(e), r');
      forall n | n in r'.endpoints && r'.endpoints[n].switch.Enabled?
        ensures Running(r', r'.endpoints[n].switch.id, TlsArgs(r'.endpoints[n].config))
      {
        assert Holds(r', Entry(n), r'.endpoints[n].switch.id);
      }
      if r'.ssh.Some? && r'.ssh.value.switch.Enabled? {
        assert Holds(r', SshSlot, r'.ssh.value.switch.id);
      }
    }
  }

  lemma PutSshKeepsOwned(r: Runner, ssh: Option<Ssh>, host: string)
    requires Owned(r)
    ensures Owned(PutSsh(r, ssh, host))
  {
    var r' := PutSsh(r, ssh, host);
    if r' != r {
      var enabled := ssh.Some? && ssh.value.enabled;
      var none := SshConfiguration(0, 0, "", false, 0);
      var args := SshArgs(if ssh.Some? then SshSettings(ssh.value, host) else none);
      RefillKeepsOwnership(r, SshSlot, enabled, args, r');
      forall n | n in r'.endpoints && r'.endpoints[n].switch.Enabled?
        ensures Running(r', r'.endpoints[n].switch.id, TlsArgs(r'.endpoints[n].config))
      {
        assert Holds(r', Entry(n), r'.endpoints[n].switch.id);
      }
      if r'.ssh.Some? && r'.ssh.value.switch.Enabled? {
        assert Holds(r', SshSlot, r'.ssh.value.switch.id);
      }
    }
  }

  /** `slot` now runs `wanted` or nothing, no other slot changed, and exactly what the slot held
      before is told to stop, and only if the slot was to change. */
  ghost predicate Installed(r: Runner, slot: Slot, changes: bool, wanted: Option<EndpointArgs>, r': Runner) {
    && (if wanted.Some? then exists id :: Holds(r', slot, id) && Running(r', id, wanted.value)
        else forall id: nat :: !Holds(r', slot, id))
    && (forall other: Slot, id: nat :: other != slot ==> (Holds(r', other, id) <==> Holds(r, other, id)))
    && (forall id: nat :: id in r'.signalled <==> id in r.signalled || (changes && Holds(r, slot, id)))
    && |r'.spawned| == |r.spawned| + (if changes && wanted.Some? then 1 else 0)
  }

  /** What one turn of the endpoint loop means for the daemon. */
  lemma PutEndpointInstalls(r: Runner, e: Endpoint)
    requires Owned(r)
    ensures var r' := PutEndpoint(r, e);
            var changes := !(e.dns in r.endpoints && r.endpoints[e.dns].config == e);
            && e.dns in r'.endpoints && r'.endpoints[e.dns].config == e
            && (forall n :: n != e.dns ==>
                  && (n in r'.endpoints <==> n in r.endpoints)
                  && (n in r.endpoints ==> r'.endpoints[n] == r.endpoints[n]))
            && Installed(r, Entry(e.dns), changes, if e.enabled then Some(TlsArgs(e)) else None, r')
  {
    PutEndpointKeepsOwned(r, e);
    var r' := PutEndpoint(r, e);
    if e.enabled {
      assert Holds(r', Entry(e.dns), r'.endpoints[e.dns].switch.id);
    }
  }

  /** And what the ssh part means. */
  lemma PutSshInstalls(r: Runner, ssh: Option<Ssh>, host: string)
    requires Owned(r)
    ensures var r' := PutSsh(r, ssh, host);
            var wanted := if ssh.Some? then Some(SshSettings(ssh.value, host)) else None;
            var had := if r.ssh.Some? then Some(r.ssh.value.config) else None;
            && r'.endpoints == r.endpoints
            && (r'.ssh.Some? <==> wanted.Some?)
            && (wanted.Some? ==> r'.ssh.value.config == wanted.value)
            && Installed(r, SshSlot, had != wanted,
                         if wanted.Some? && wanted.value.enabled then Some(SshArgs(wanted.value)) else None, r')
  {
    PutSshKeepsOwned(r, ssh, host);
    var r' := PutSsh(r, ssh, host);
    if ssh.Some? && ssh.value.enabled {
      assert Holds(r', SshSlot, r'.ssh.value.switch.id);
    }
  }

  lemma {:induction false} PutAllKeepsOwned(r: Runner, eps: seq<Endpoint>)
    requires Owned(r)
    ensures Owned(PutAll(r, eps))
  {
    if eps != [] {
      PutAllKeepsOwned(r, eps[..|eps| - 1]);
      PutEndpointKeepsOwned(PutAll(r, eps[..|eps| - 1]), eps[|eps| - 1]);
    }
  }

  lemma SameTablesKeepOwned(r: Runner, r': Runner)
    requires Owned(r)
    requires r'.endpoints == r.endpoints && r'.ssh == r.ssh && r'.spawned == r.spawned && r'.signalled == r.signalled
    ensures Owned(r')
  {
    assert forall slot: Slot, id: nat :: Holds(r', slot, id) <==> Holds(r, slot, id);
    forall id: nat | id < |r'.spawned| && id !in r'.signalled ensures exists slot :: Holds(r', slot, id) {
      var slot :| Holds(r, slot, id);
      assert Holds(r', slot, id);
    }
  }

  lemma UpdateKeepsOwned(r: Runner, config: Option<DaemonConfig>, key: Option<string>, host: string)
    requires Owned(r)
    ensures Owned(Update(r, config, key, host))
  {
    var r1 := if key.Some? then r.(key := key) else r;
    SameTablesKeepOwned(r, r1.(status := Uninitialized));
    SameTablesKeepOwned(r, r1.(status := Good));
    if r1.key.Some? && config.Some? {
      var good := r1.(status := Good);
      var names := NameSet(config.value.endpoints);
      RetainKeepsOwned(good, names);
      PutAllKeepsOwned(Retained(good, names), config.value.endpoints);
      PutSshKeepsOwned(PutAll(Retained(good, names), config.value.endpoints), config.value.ssh, host);
    }
  }

  datatype Call = Call(config: Option<DaemonConfig>, key: Option<string>)

  function Updates(r: Runner, calls: seq<Call>, host: string): Runner {
    if calls == [] then r
    else
      var last := calls[|calls| - 1];
      Update(Updates(r, calls[..|calls| - 1], host), last.config, last.key, host)
  }

  /** No leaked and no doubly owned endpoint: after any sequence of updates, every endpoint ever
      spawned has been told to stop or is held by exactly one slot, and nothing held has been
      told to stop. */
  lemma {:induction false} NothingLeaks(calls: seq<Call>, host: string)
    ensures var r := Updates(New(), calls, host);
            && Owned(r)
            && (forall id: nat :: id < |r.spawned| ==>
                  (id !in r.signalled <==> exists slot :: Holds(r, slot, id)))
            && (forall a: Slot, b: Slot, id: nat :: Holds(r, a, id) && Holds(r, b, id) ==> a == b)
  {
    var r := Updates(New(), calls, host);
    if calls != [] {
      var last := calls[|calls| - 1];
      NothingLeaks(calls[..|calls| - 1], host);
      UpdateKeepsOwned(Updates(New(), calls[..|calls| - 1], host), last.config, last.key, host);
    }
    forall id: nat, slot | Holds(r, slot, id) ensures id !in r.signalled {
      HeldIsRunning(r, slot, id);
    }
  }
}
