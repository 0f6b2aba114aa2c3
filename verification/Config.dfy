/** The daemon's configuration file, as `serde_yaml` hands it over. */
module Config {
  import opened Wrappers

  datatype HealthCheck = HealthCheck(
    port: Option<nat>, healthyThreshold: Option<u16>, unhealthyThreshold: Option<u16>, frequencySecs: Option<nat>)

  datatype Endpoint = Endpoint(
    port: nat, dns: string, maxconns: nat, maxidle: nat, enabled: bool, healthcheck: Option<HealthCheck>)

  datatype Ssh = Ssh(
    maxconns: nat, port: nat, enabled: bool, maxidle: nat, hostnameOverride: Option<string>)

  datatype DaemonConfig = DaemonConfig(
    endpoints: seq<Endpoint>, ssh: Option<Ssh>, loglevel: Option<string>)

  /** No dns name is configured twice. */
  ghost predicate DistinctNames(eps: seq<Endpoint>) {
    forall i, j :: 0 <= i < j < |eps| ==> eps[i].dns != eps[j].dns
  }

  ghost predicate Named(eps: seq<Endpoint>, name: string) {
    exists i :: 0 <= i < |eps| && eps[i].dns == name
  }

  /** `eps[i]` is the last entry of its name. */
  ghost predicate IsLast(eps: seq<Endpoint>, i: nat)
    requires i < |eps|
  {
    forall j :: i < j < |eps| ==> eps[j].dns != eps[i].dns
  }

  lemma NamedSplit(eps: seq<Endpoint>, n: string)
    requires eps != []
    ensures Named(eps, n) <==> Named(eps[..|eps| - 1], n) || n == eps[|eps| - 1].dns
  {
  }

  /** The position of the last entry called `name`. */
  ghost function LastIndex(eps: seq<Endpoint>, name: string): (i: nat)
    requires Named(eps, name)
    ensures i < |eps| && eps[i].dns == name && IsLast(eps, i)
  {
    if eps[|eps| - 1].dns == name then |eps| - 1
    else
      NamedSplit(eps, name);
      LastIndex(eps[..|eps| - 1], name)
  }
}
