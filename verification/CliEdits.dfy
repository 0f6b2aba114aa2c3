/** The configuration edits of the command line client: each loads the file, changes it in place
    and saves it. A command that ends in `exiterror` leaves the file as it was. */
module CliEdits {
  import opened Wrappers
  import opened Config
  import opened Reconciler
  import opened ReconcilerTheorems

  const DEFAULT_SSH_CONNS: nat := 20
  const DEFAULT_SSH_IDLE: nat := 3

  datatype AddArgs = AddArgs(
    dns: string, port: nat, maxconns: Option<nat>, maxidle: Option<nat>, disabled: bool,
    checkPort: Option<nat>, checkHealthy: Option<u16>, checkUnhealthy: Option<u16>, checkFrequency: Option<nat>)

  datatype SetupArgs = SetupArgs(
    port: Option<nat>, hostname: Option<string>, maxconns: Option<nat>, maxidle: Option<nat>, disabled: bool)

  datatype Command =
    | SetEndpointEnabled(enabled: bool, target: Option<string>)
    | SetSshEnabled(enabled: bool)
    | AddEndpoint(add: AddArgs)
    | RemoveEndpoint(dns: string)
    | SetupSsh(setup: SetupArgs)
    | RemoveSsh

  function Or(o: Option<nat>, default: nat): nat {
    if o.Some? then o.value else default
  }

  /** `maxidle` is a machine word cut down to 16 bits. */
  function NewEndpoint(a: AddArgs): Endpoint {
    Endpoint(a.port, a.dns, Or(a.maxconns, 5000), Or(a.maxidle, 40) % 0x1_0000, !a.disabled,
             if a.checkPort.Some? then Some(HealthCheck(a.checkPort, a.checkHealthy, a.checkUnhealthy, a.checkFrequency))
             else None)
  }

  function NewSsh(a: SetupArgs): Ssh {
    var idle := Or(a.maxidle, DEFAULT_SSH_IDLE);
    Ssh(Or(a.maxconns, DEFAULT_SSH_CONNS), Or(a.port, 22), !a.disabled,
        if idle < MAX_MAX_IDLE then idle else MAX_MAX_IDLE, a.hostname)
  }

  // ---------------------------------------------------------------- what each command means

  /** The entry an add command asks for, field by field; only the port asks for a health check. */
  predicate EntryFor(e: Endpoint, a: AddArgs) {
    && e.dns == a.dns
    && e.port == a.port
    && e.maxconns == (if a.maxconns.Some? then a.maxconns.value else 5000)
    && e.maxidle == (if a.maxidle.Some? then a.maxidle.value % 65_536 else 40)
    && (e.enabled <==> !a.disabled)
    && (e.healthcheck.Some? <==> a.checkPort.Some?)
    && (e.healthcheck.Some? ==>
          && e.healthcheck.value.port == a.checkPort
          && e.healthcheck.value.healthyThreshold == a.checkHealthy
          && e.healthcheck.value.unhealthyThreshold == a.checkUnhealthy
          && e.healthcheck.value.frequencySecs == a.checkFrequency)
  }

  /** The settings an ssh setup asks for, field by field. */
  predicate SshFor(ssh: Ssh, a: SetupArgs) {
    && ssh.maxconns == (if a.maxconns.Some? then a.maxconns.value else 20)
    && ssh.port == (if a.port.Some? then a.port.value else 22)
    && (ssh.enabled <==> !a.disabled)
    && ssh.maxidle == (if a.maxidle.None? then 3 else if a.maxidle.value < 1000 then a.maxidle.value else 1000)
    && ssh.hostnameOverride == a.hostname
  }

  predicate Hit(e: Endpoint, target: Option<string>) {
    target.None? || e.dns == target.value
  }

  function Toggled(eps: seq<Endpoint>, enabled: bool, target: Option<string>): seq<Endpoint> {
    seq(|eps|, i requires 0 <= i < |eps| => if Hit(eps[i], target) then eps[i].(enabled := enabled) else eps[i])
  }

  function Without(eps: seq<Endpoint>, dns: string): seq<Endpoint> {
    if eps == [] then []
    else Without(eps[..|eps| - 1], dns) + (if eps[|eps| - 1].dns == dns then [] else [eps[|eps| - 1]])
  }

  ghost function Applied(cfg: DaemonConfig, c: Command): DaemonConfig {
    match c
    case SetEndpointEnabled(enabled, target) => cfg.(endpoints := Toggled(cfg.endpoints, enabled, target))
    case SetSshEnabled(enabled) =>
      if cfg.ssh.Some? then cfg.(ssh := Some(cfg.ssh.value.(enabled := enabled))) else cfg
    case AddEndpoint(add) =>
      if Named(cfg.endpoints, add.dns) then cfg else cfg.(endpoints := cfg.endpoints + [NewEndpoint(add)])
    case RemoveEndpoint(dns) => cfg.(endpoints := Without(cfg.endpoints, dns))
    case SetupSsh(setup) => if cfg.ssh.Some? then cfg else cfg.(ssh := Some(NewSsh(setup)))
    case RemoveSsh => cfg.(ssh := None)
  }

  /** The flag the enable and disable commands report: for one name it is that of the last entry
      visited, for all endpoints it is set by any entry at all. */
  ghost predicate ReportsMutated(eps: seq<Endpoint>, enabled: bool, target: Option<string>) {
    match target
    case None => eps != []
    case Some(n) => Named(eps, n) && eps[LastIndex(eps, n)].enabled != enabled
  }

  /** Some entry is targeted. */
  ghost predicate Finds(eps: seq<Endpoint>, target: Option<string>) {
    exists i :: 0 <= i < |eps| && Hit(eps[i], target)
  }

  lemma ReportTurn(eps: seq<Endpoint>, i: nat, enabled: bool, target: Option<string>)
    requires i < |eps|
    ensures ReportsMutated(eps[..i + 1], enabled, target) <==>
            if Hit(eps[i], target) then target.None? || eps[i].enabled != enabled
            else ReportsMutated(eps[..i], enabled, target)
    ensures Finds(eps[..i + 1], target) <==> Hit(eps[i], target) || Finds(eps[..i], target)
  {
    assert eps[..i + 1][..i] == eps[..i];
    if target.Some? {
      NamedSplit(eps[..i + 1], target.value);
    }
  }

  class ConfigFile {
    var endpoints: seq<Endpoint>
    var ssh: Option<Ssh>
    var loglevel: Option<string>

    ghost function Config(): DaemonConfig
      reads this
    {
      DaemonConfig(endpoints, ssh, loglevel)
    }

    /** load_from_file_or_new on an empty or missing file. */
    constructor ()
      ensures Config() == DaemonConfig([], None, None)
    {
      endpoints, ssh, loglevel := [], None, None;
    }

    method EnableDisable(enabled: bool, target: Option<string>) returns (found: bool, mutated: bool)
      modifies this`endpoints
      ensures Config() == Applied(old(Config()), SetEndpointEnabled(enabled, target))
      ensures found <==> Finds(old(endpoints), target)
      ensures mutated <==> ReportsMutated(old(endpoints), enabled, target)
    {
      found, mutated := false, false;
      ghost var was := endpoints;
      for i := 0 to |endpoints|
        invariant |endpoints| == |was|
        invariant forall j :: 0 <= j < |was| ==>
                    endpoints[j] == if j < i && Hit(was[j], target) then was[j].(enabled := enabled) else was[j]
        invariant found <==> Finds(was[..i], target)
        invariant mutated <==> ReportsMutated(was[..i], enabled, target)
      {
        ReportTurn(was, i, enabled, target);
        var e := endpoints[i];
        if target.Some? {
          if target.value == e.dns {
            if e.enabled == enabled {
              mutated := false;
            } else {
              endpoints := endpoints[i := e.(enabled := enabled)];
              mutated := true;
            }
            found := true;
          }
        } else {
          mutated := true;
          found := true;
          endpoints := endpoints[i := e.(enabled := enabled)];
        }
      }
      assert was[..|was|] == was;
      assert endpoints == Toggled(was, enabled, target);
    }

    method EnableDisableSsh(enabled: bool) returns (found: bool, mutated: bool)
      modifies this`ssh
      ensures Config() == Applied(old(Config()), SetSshEnabled(enabled))
      ensures found <==> ssh.Some?
      ensures mutated <==> Config() != old(Config())
    {
      if ssh.Some? {
        if ssh.value.enabled == enabled {
          found, mutated := true, false;
        } else {
          ssh := Some(ssh.value.(enabled := enabled));
          found, mutated := true, true;
        }
      } else {
        found, mutated := false, false;
      }
    }

    method Add(add: AddArgs) returns (ok: bool)
      modifies this`endpoints
      ensures Config() == Applied(old(Config()), AddEndpoint(add))
      ensures ok <==> !Named(old(endpoints), add.dns)
      ensures !ok ==> endpoints == old(endpoints)
      ensures ok ==> |endpoints| == |old(endpoints)| + 1 && endpoints[..|old(endpoints)|] == old(endpoints)
                     && EntryFor(endpoints[|old(endpoints)|], add)
    {
      for i := 0 to |endpoints|
        invariant endpoints == old(endpoints)
        invariant forall j :: 0 <= j < i ==> endpoints[j].dns != add.dns
      {
        if endpoints[i].dns == add.dns {
          return false;
        }
      }
      endpoints := endpoints + [NewEndpoint(add)];
      return true;
    }

    method Remove(dns: string, idempotent: bool) returns (ok: bool)
      modifies this`endpoints
      ensures Config() == Applied(old(Config()), RemoveEndpoint(dns))
      ensures ok <==> Named(old(endpoints), dns) || idempotent
    {
      var kept, deleted := [], false;
      for i := 0 to |endpoints|
        invariant endpoints == old(endpoints)
        invariant kept == Without(endpoints[..i], dns)
        invariant deleted <==> Named(endpoints[..i], dns)
      {
        assert endpoints[..i + 1][..i] == endpoints[..i];
        NamedSplit(endpoints[..i + 1], dns);
        if endpoints[i].dns == dns {
          deleted := true;
        } else {
          kept := kept + [endpoints[i]];
        }
      }
      assert endpoints[..|endpoints|] == endpoints;
      endpoints := kept;
      ok := deleted || idempotent;
    }

    method Setup(setup: SetupArgs) returns (ok: bool)
      modifies this`ssh
      ensures Config() == Applied(old(Config()), SetupSsh(setup))
      ensures ok <==> old(ssh).None?
      ensures if ok then ssh.Some? && SshFor(ssh.value, setup) else ssh == old(ssh)
    {
      if ssh.Some? {
        return false;
      }
      ssh := Some(NewSsh(setup));
      return true;
    }

    method TearDown()
      modifies this`ssh
      ensures Config() == Applied(old(Config()), RemoveSsh)
    {
      ssh := None;
    }
  }

  // ---------------------------------------------------------------- distinct names

  lemma {:induction false} WithoutFilters(eps: seq<Endpoint>, dns: string, n: string)
    ensures Named(Without(eps, dns), n) <==> Named(eps, n) && n != dns
  {
    if eps != [] {
      var k := |eps| - 1;
      var rest := Without(eps[..k], dns);
      WithoutFilters(eps[..k], dns, n);
      NamedSplit(eps, n);
      if eps[k].dns == dns {
        assert rest + [] == rest;
      } else {
        assert (rest + [eps[k]])[..|rest|] == rest;
        NamedSplit(rest + [eps[k]], n);
      }
    }
  }

  lemma {:induction false} WithoutKeepsDistinct(eps: seq<Endpoint>, dns: string)
    requires DistinctNames(eps)
    ensures DistinctNames(Without(eps, dns))
  {
    if eps != [] {
      var k := |eps| - 1;
      WithoutKeepsDistinct(eps[..k], dns);
      WithoutFilters(eps[..k], dns, eps[k].dns);
      assert !Named(eps[..k], eps[k].dns);
    }
  }

  /** Removal drops exactly the entries of the name. */
  lemma {:induction false} WithoutRemovesExactly(eps: seq<Endpoint>, dns: string, e: Endpoint)
    ensures e in Without(eps, dns) <==> e in eps && e.dns != dns
  {
    if eps != [] {
      var k := |eps| - 1;
      WithoutRemovesExactly(eps[..k], dns, e);
      assert eps == eps[..k] + [eps[k]];
    }
  }

  lemma CommandKeepsDistinct(cfg: DaemonConfig, c: Command)
    requires DistinctNames(cfg.endpoints)
    ensures DistinctNames(Applied(cfg, c).endpoints)
  {
    if c.RemoveEndpoint? {
      WithoutKeepsDistinct(cfg.endpoints, c.dns);
    }
  }

  /** Adding and setting up, by what they leave in the configuration. */
  lemma AdditionIsAsAsked(cfg: DaemonConfig, add: AddArgs, setup: SetupArgs)
    ensures var after := Applied(cfg, AddEndpoint(add));
            var n := |cfg.endpoints|;
            && after.ssh == cfg.ssh && after.loglevel == cfg.loglevel
            && if Named(cfg.endpoints, add.dns) then after == cfg
               else |after.endpoints| == n + 1 && after.endpoints[..n] == cfg.endpoints
                    && EntryFor(after.endpoints[n], add)
    ensures var after := Applied(cfg, SetupSsh(setup));
            && after.endpoints == cfg.endpoints && after.loglevel == cfg.loglevel
            && after.ssh.Some?
            && if cfg.ssh.Some? then after == cfg else SshFor(after.ssh.value, setup)
  {
  }

  /** Removal keeps the order, and how often each entry occurs: it goes piece by piece. */
  lemma {:induction false} WithoutConcat(a: seq<Endpoint>, b: seq<Endpoint>, dns: string)
    ensures Without(a + b, dns) == Without(a, dns) + Without(b, dns)
  {
    if b == [] {
      assert a + b == a;
    } else {
      var k := |b| - 1;
      assert (a + b)[..|a + b| - 1] == a + b[..k];
      WithoutConcat(a, b[..k], dns);
    }
  }

  lemma WithoutOne(e: Endpoint, dns: string)
    ensures Without([e], dns) == if e.dns == dns then [] else [e]
  {
    assert [e][..0] == [];
  }

  ghost function AppliedAll(cfg: DaemonConfig, cs: seq<Command>): DaemonConfig {
    if cs == [] then cfg else Applied(AppliedAll(cfg, cs[..|cs| - 1]), cs[|cs| - 1])
  }

  /** From a configuration with distinct names, every sequence of commands keeps them distinct, so
      the daemon can reload the result any number of times without a stop or a spawn. */
  lemma {:induction false} CommandsKeepReloadsQuiet(cfg: DaemonConfig, cs: seq<Command>, r: Runner, host: string)
    requires DistinctNames(cfg.endpoints) && Owned(r)
    ensures var edited := AppliedAll(cfg, cs);
            && DistinctNames(edited.endpoints)
            && Reconciled(Reconciled(r, edited, host), edited, host) == Reconciled(r, edited, host)
  {
    if cs != [] {
      CommandsKeepReloadsQuiet(cfg, cs[..|cs| - 1], r, host);
      CommandKeepsDistinct(AppliedAll(cfg, cs[..|cs| - 1]), cs[|cs| - 1]);
    }
    var edited := AppliedAll(cfg, cs);
    DistinctIsQuiet(edited.endpoints);
    IdempotentIffQuiet(r, edited, host);
  }

  // ---------------------------------------------------------------- the reported pair

  /** Some targeted entry has the other setting, so the command changes the configuration. */
  ghost predicate HasOther(eps: seq<Endpoint>, enabled: bool, target: Option<string>) {
    exists i :: 0 <= i < |eps| && Hit(eps[i], target) && eps[i].enabled != enabled
  }

  /** The configuration changes exactly if a targeted entry had the other setting. Every targeted entry
      then has the wanted one and differs in nothing else, and everything else is untouched. */
  lemma ToggleChanges(cfg: DaemonConfig, enabled: bool, target: Option<string>)
    ensures var after := Applied(cfg, SetEndpointEnabled(enabled, target));
            && (after != cfg <==> HasOther(cfg.endpoints, enabled, target))
            && |after.endpoints| == |cfg.endpoints|
            && after.ssh == cfg.ssh && after.loglevel == cfg.loglevel
            && forall i :: 0 <= i < |cfg.endpoints| ==>
                 var e, e' := cfg.endpoints[i], after.endpoints[i];
                 if target.None? || e.dns == target.value
                 then (e'.enabled <==> enabled) && e'.(enabled := e.enabled) == e
                 else e' == e
  {
  }

  /** For one name the reported flag is "the configuration changed" if and only if, whenever some
      entry of the name has the other setting, the last one does. It never reports a change that did
      not happen, and for distinct names it is always right. */
  lemma ToggleReportsTheChange(cfg: DaemonConfig, enabled: bool, n: string)
    ensures var eps := cfg.endpoints;
            var changed := Applied(cfg, SetEndpointEnabled(enabled, Some(n))) != cfg;
            var reported := ReportsMutated(eps, enabled, Some(n));
            && ((reported <==> changed) <==>
                  (HasOther(eps, enabled, Some(n)) ==> Named(eps, n) && eps[LastIndex(eps, n)].enabled != enabled))
            && (reported ==> changed)
            && (DistinctNames(eps) ==> (reported <==> changed))
  {
  }

  /** A wrong flag for one name: with a disabled and then an enabled entry, enabling the name changes
      the first and reports that nothing changed. */
  lemma ToggleCanMissAChange(e: Endpoint)
    requires !e.enabled
    ensures var cfg := DaemonConfig([e, e.(enabled := true)], None, None);
            && Applied(cfg, SetEndpointEnabled(true, Some(e.dns))) != cfg
            && !ReportsMutated(cfg.endpoints, true, Some(e.dns))
  {
    var cfg := DaemonConfig([e, e.(enabled := true)], None, None);
    ToggleChanges(cfg, true, Some(e.dns));
    assert Hit(cfg.endpoints[0], Some(e.dns)) && cfg.endpoints[0].enabled != true;
    assert LastIndex(cfg.endpoints, e.dns) == 1;
  }

  /** The all-endpoints form reports a change whenever there is an endpoint; that is true exactly
      if the list is empty or some entry had the other setting. */
  lemma ToggleAllReport(cfg: DaemonConfig, enabled: bool)
    ensures var changed := Applied(cfg, SetEndpointEnabled(enabled, None)) != cfg;
            (ReportsMutated(cfg.endpoints, enabled, None) <==> changed) <==>
              cfg.endpoints == [] || exists i :: 0 <= i < |cfg.endpoints| && cfg.endpoints[i].enabled != enabled
  {
  }

  /** A wrong flag for all endpoints: enabling what is enabled already reports a change. */
  lemma ToggleAllCanInventAChange(e: Endpoint)
    ensures var cfg := DaemonConfig([e], None, None);
            && Applied(cfg, SetEndpointEnabled(e.enabled, None)) == cfg
            && ReportsMutated(cfg.endpoints, e.enabled, None)
  {
  }

  /** Switching ssh changes its setting and nothing else. */
  lemma SshToggleChanges(cfg: DaemonConfig, enabled: bool)
    ensures var after := Applied(cfg, SetSshEnabled(enabled));
            && after.endpoints == cfg.endpoints && after.loglevel == cfg.loglevel
            && (after.ssh.Some? <==> cfg.ssh.Some?)
            && (cfg.ssh.Some? ==>
                  && (after.ssh.value.enabled <==> enabled)
                  && after.ssh.value.(enabled := cfg.ssh.value.enabled) == cfg.ssh.value)
  {
  }

  // ---------------------------------------------------------------- edits that undo each other

  lemma {:induction false} WithoutAbsent(eps: seq<Endpoint>, dns: string)
    ensures Without(eps, dns) == eps <==> !Named(eps, dns)
    ensures |Without(eps, dns)| <= |eps|
  {
    if eps != [] {
      var k := |eps| - 1;
      WithoutAbsent(eps[..k], dns);
      NamedSplit(eps, dns);
      assert eps == eps[..k] + [eps[k]];
      if Without(eps, dns) == eps {
        assert eps[k].dns != dns && Without(eps[..k], dns) == eps[..k];
      }
    }
  }

  /** Removing undoes adding, and tearing ssh down undoes setting it up, exactly if there was nothing
      of that name, or no ssh, before. */
  lemma RemovalUndoesAddition(cfg: DaemonConfig, add: AddArgs, setup: SetupArgs)
    ensures Applied(Applied(cfg, AddEndpoint(add)), RemoveEndpoint(add.dns)) == cfg <==>
            !Named(cfg.endpoints, add.dns)
    ensures Applied(Applied(cfg, SetupSsh(setup)), RemoveSsh) == cfg <==> cfg.ssh.None?
  {
    var eps := cfg.endpoints;
    WithoutAbsent(eps, add.dns);
    if !Named(eps, add.dns) {
      var longer := eps + [NewEndpoint(add)];
      assert longer[..|eps|] == eps;
      assert Without(longer, add.dns) == Without(eps, add.dns) + [];
    }
  }

  /** Toggling there and back restores the configuration exactly if the first toggle found every
      targeted entry at the other setting. */
  lemma TogglingBackRestores(cfg: DaemonConfig, enabled: bool, target: Option<string>)
    ensures var there := Applied(cfg, SetEndpointEnabled(enabled, target));
            Applied(there, SetEndpointEnabled(!enabled, target)) == cfg <==>
              !HasOther(cfg.endpoints, !enabled, target)
  {
  }

  /** End to end: enabling or disabling one endpoint on the command line leaves every other running
      endpoint of the daemon alone: same instance, not signalled. */
  lemma ToggleDisturbsOnlyItsTarget(
      r: Runner, cfg: DaemonConfig, enabled: bool, n: string, host: string, other: string)
    requires Owned(r) && Shows(r, cfg.endpoints) && DistinctNames(cfg.endpoints)
    requires other != n && other in r.endpoints
    ensures var r' := Reconciled(r, Applied(cfg, SetEndpointEnabled(enabled, Some(n))), host);
            && other in r'.endpoints
            && r'.endpoints[other] == r.endpoints[other]
            && forall id :: id in IdOf(r.endpoints[other].switch) ==> id !in r'.signalled
  {
    var edited := Applied(cfg, SetEndpointEnabled(enabled, Some(n)));
    CommandKeepsDistinct(cfg, SetEndpointEnabled(enabled, Some(n)));
    assert ShowsAt(r, cfg.endpoints, other);
    var i := LastIndex(cfg.endpoints, other);
    assert edited.endpoints[i] == cfg.endpoints[i];
    UnchangedKeepsRunning(r, edited, host, i);
  }
}
