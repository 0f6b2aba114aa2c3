/** The runner object itself: its fields are updated in place by the loops of the source, and the
    whole update is proved equal to the specification `Reconciler.Update`. */
module DaemonRunner {
  import opened Wrappers
  import opened Config
  import opened Reconciler
  import opened ReconcilerTheorems

  class InnerDaemonRunner {
    var endpoints: map<string, Instance<Endpoint>>
    var ssh: Option<Instance<SshConfiguration>>
    var statusmeta: StatusMeta
    var key: Option<string>
    // the outside world: endpoints spawned so far, and those signalled to stop
    var spawned: seq<EndpointArgs>
    var signalled: set<nat>

    ghost function State(): Runner
      reads this
    {
      Runner(endpoints, ssh, statusmeta, key, spawned, signalled)
    }

    constructor ()
      ensures State() == New()
    {
      endpoints, ssh, statusmeta, key, spawned, signalled := map[], None, Uninitialized, None, [], {};
    }

    /** EnabledDisabled::stop */
    method Stop(s: Switch)
      modifies this`signalled
      ensures State() == Stopped(old(State()), s)
    {
      if s.Enabled? {
        signalled := signalled + {s.id};
      }
    }

    /** spawn_endpoint if enabled, otherwise nothing. */
    method Start(enabled: bool, args: EndpointArgs) returns (s: Switch)
      modifies this`spawned
      ensures (State(), s) == Started(old(State()), enabled, args)
    {
      if enabled {
        s := Enabled(|spawned|);
        spawned := spawned + [args];
      } else {
        s := Disabled;
      }
    }

    /** HashMap::retain, visiting the entries in any order. */
    method Retain(names: set<string>)
      modifies this`endpoints, this`signalled
      ensures State() == Retained(old(State()), names)
    {
      var todo := endpoints.Keys;
      while todo != {}
        invariant todo <= endpoints.Keys
        invariant endpoints == map n | n in old(endpoints) && (n in names || n in todo) :: old(endpoints)[n]
        invariant signalled == old(signalled) +
                    set n | n in old(endpoints) && n !in names && n !in todo && old(endpoints)[n].switch.Enabled?
                      :: old(endpoints)[n].switch.id
        decreases todo
      {
        var n :| n in todo;
        ghost var before := signalled;
        todo := todo - {n};
        if n !in names {
          Stop(endpoints[n].switch);
          endpoints := endpoints - {n};
        }
        forall id | id in signalled && id !in before
          ensures exists m :: m in old(endpoints) && m !in names && m !in todo
                           && old(endpoints)[m].switch == Enabled(id)
        {
          assert old(endpoints)[n].switch == Enabled(id);
        }
      }
    }

    /** One turn of the loop over the configured endpoints. */
    method Put(e: Endpoint)
      modifies this`endpoints, this`spawned, this`signalled
      ensures State() == PutEndpoint(old(State()), e)
    {
      if e.dns in endpoints {
        if endpoints[e.dns].config != e {
          Stop(endpoints[e.dns].switch);
          var s := Start(e.enabled, TlsArgs(e));
          endpoints := endpoints[e.dns := Instance(s, e)];
        }
      } else {
        var s := Start(e.enabled, TlsArgs(e));
        endpoints := endpoints[e.dns := Instance(s, e)];
      }
    }

    method UpdateSsh(newcfg: Option<Ssh>, host: string)
      modifies this`ssh, this`spawned, this`signalled
      ensures State() == PutSsh(old(State()), newcfg, host)
    {
      match newcfg
      case Some(wanted) =>
        var newconfig := SshSettings(wanted, host);
        if ssh.None? || newconfig != ssh.value.config {
          if ssh.Some? {
            Stop(ssh.value.switch);
          }
          var s := Start(newconfig.enabled, SshArgs(newconfig));
          ssh := Some(Instance(s, newconfig));
        }
      case None =>
        if ssh.Some? {
          Stop(ssh.value.switch);
          ssh := None;
        }
    }

    /** update_config: the state it leaves is the specified one, so every theorem about `Update`
        is a theorem about this method; in particular what runs afterwards is what the
        configuration asks for. */
    method UpdateConfig(config: Option<DaemonConfig>, newkey: Option<string>, host: string)
      modifies this
      ensures State() == Update(old(State()), config, newkey, host)
      ensures old(Owned(State())) && config.Some? && key.Some? ==> RunsAsConfigured(State(), config.value, host)
    {
      ghost var was := State();
      if newkey.Some? {
        key := newkey;
      }
      if key.None? {
        statusmeta := Uninitialized;
        return;
      }
      statusmeta := Good;
      if config.None? {
        return;
      }
      var eps := config.value.endpoints;
      var names := {};
      for i := 0 to |eps|
        invariant names == NameSet(eps[..i])
        invariant State() == old(State()).(key := key, status := Good)
      {
        assert eps[..i + 1] == eps[..i] + [eps[i]];
        assert NameSet(eps[..i + 1]) == NameSet(eps[..i]) + {eps[i].dns} by {
          assert eps[..i + 1][i] == eps[i];
          assert forall j :: 0 <= j < i ==> eps[..i + 1][j] == eps[..i][j];
        }
        names := names + {eps[i].dns};
      }
      assert eps[..|eps|] == eps;
      Retain(names);
      ghost var kept := State();
      for i := 0 to |eps|
        invariant State() == PutAll(kept, eps[..i])
      {
        assert eps[..i + 1][..i] == eps[..i];
        Put(eps[i]);
      }
      UpdateSsh(config.value.ssh, host);
      if Owned(was) {
        UpdateShowsTarget(was, config, newkey, host);
        RunsTheTarget(State(), config.value, host);
      }
    }
  }
}
