/** The health window of `HealthMasterInner`: a deque trimmed to the larger threshold, with
    hysteresis, proved equal to an automaton that reads run lengths off the whole, never
    trimmed history of check results. */
module Health {
  import opened Wrappers

  datatype Thresholds = Thresholds(healthy: u16, unhealthy: u16)

  /** One entry of the deque: the check's outcome and its time in milliseconds. */
  datatype Check = Check(ok: bool, time: nat)

  function WindowSize(cfg: Thresholds): nat {
    (if cfg.healthy >= cfg.unhealthy then cfg.healthy else cfg.unhealthy) as nat
  }

  // ---------------------------------------------------------------- the unbounded automaton

  /** Length of the run of `ok` results that ends the history (oldest first). */
  ghost function TrailingRun(history: seq<Check>, ok: bool): nat {
    if history == [] || history[|history| - 1].ok != ok then 0
    else 1 + TrailingRun(history[..|history| - 1], ok)
  }

  /** The flag after `history`: it starts false, and flips when the opposing run over the whole
      history reaches its threshold. */
  ghost predicate Flag(cfg: Thresholds, history: seq<Check>) {
    history != [] &&
    if Flag(cfg, history[..|history| - 1])
    then TrailingRun(history, false) < cfg.unhealthy as nat
    else TrailingRun(history, true) >= cfg.healthy as nat
  }

  // ---------------------------------------------------------------- the deque

  /** Length of the run of `ok` results at the front (newest end) of a deque. */
  ghost function LeadingRun(recent: seq<Check>, ok: bool): nat {
    if recent == [] || recent[0].ok != ok then 0 else 1 + LeadingRun(recent[1..], ok)
  }

  /** `recent` is the newest `|recent|` results, newest first. */
  ghost predicate Mirrors(recent: seq<Check>, history: seq<Check>) {
    && |recent| <= |history|
    && forall i :: 0 <= i < |recent| ==> recent[i] == history[|history| - 1 - i]
  }

  ghost predicate IsWindow(cfg: Thresholds, recent: seq<Check>, history: seq<Check>) {
    && Mirrors(recent, history)
    && |recent| == if |history| < WindowSize(cfg) then |history| else WindowSize(cfg)
  }

  /** The run seen in the window is the run of the whole history, cut at the window's size. */
  lemma {:induction false} WindowRun(recent: seq<Check>, history: seq<Check>, ok: bool)
    requires Mirrors(recent, history)
    ensures LeadingRun(recent, ok)
         == if TrailingRun(history, ok) < |recent| then TrailingRun(history, ok) else |recent|
    decreases |recent|
  {
    if recent != [] && recent[0].ok == ok {
      WindowRun(recent[1..], history[..|history| - 1], ok);
    }
  }

  /** So comparing it with a threshold no larger than the window decides the same. */
  lemma WindowDecides(cfg: Thresholds, recent: seq<Check>, history: seq<Check>, ok: bool, threshold: nat)
    requires IsWindow(cfg, recent, history) && threshold <= WindowSize(cfg)
    ensures LeadingRun(recent, ok) >= threshold <==> TrailingRun(history, ok) >= threshold
  {
    WindowRun(recent, history, ok);
    RunFits(history, ok);
  }

  lemma {:induction false} RunFits(history: seq<Check>, ok: bool)
    ensures TrailingRun(history, ok) <= |history|
  {
    if history != [] {
      RunFits(history[..|history| - 1], ok);
    }
  }

  class HealthMasterInner {
    var healthy: bool
    var recent: seq<Check>
    ghost var history: seq<Check>

    ghost predicate Valid(cfg: Thresholds)
      reads this
    {
      && healthy == Flag(cfg, history)
      && IsWindow(cfg, recent, history)
    }

    constructor ()
      ensures history == [] && recent == [] && !healthy
      ensures forall cfg :: Valid(cfg)
    {
      healthy := false;
      recent := [];
      history := [];
    }

    /** Push the result in front, then re-evaluate. */
    method ReportCheckResult(result: bool, time: nat, cfg: Thresholds) returns (r: bool)
      requires Valid(cfg)
      modifies this
      ensures Valid(cfg)
      ensures history == old(history) + [Check(result, time)]
      ensures r == healthy == Flag(cfg, old(history) + [Check(result, time)])
    {
      recent := [Check(result, time)] + recent;
      history := history + [Check(result, time)];
      assert history[..|history| - 1] == old(history);
      r := Status(cfg);
    }

    /** Trim, count the opposing run in the window with a 16-bit counter, and compare. */
    method Status(cfg: Thresholds) returns (r: bool)
      requires history != [] && Mirrors(recent, history)
      requires |recent| == |history| || |recent| >= WindowSize(cfg)
      requires healthy == Flag(cfg, history[..|history| - 1])
      modifies this`healthy, this`recent
      ensures Valid(cfg)
      ensures r == healthy
    {
      while |recent| > WindowSize(cfg)
        invariant Mirrors(recent, history)
        invariant |recent| == |history| || |recent| >= WindowSize(cfg)
        invariant healthy == old(healthy)
      {
        recent := recent[..|recent| - 1];
      }
      WindowDecides(cfg, recent, history, false, cfg.unhealthy as nat);
      WindowDecides(cfg, recent, history, true, cfg.healthy as nat);
      if healthy {
        var unhealthies := CountRun(false);
        healthy := !(unhealthies >= cfg.unhealthy);
      } else {
        var healthies := CountRun(true);
        healthy := healthies >= cfg.healthy;
      }
      r := healthy;
    }

    /** The counting loop; `u16` makes the verifier show that it cannot overflow. */
    method CountRun(ok: bool) returns (n: u16)
      requires |recent| < 0x1_0000
      ensures n as nat == LeadingRun(recent, ok)
    {
      n := 0;
      var i := 0;
      while i < |recent|
        invariant 0 <= i <= |recent| && n as nat == i
        invariant LeadingRun(recent, ok) == i + LeadingRun(recent[i..], ok)
      {
        if recent[i].ok != ok {
          break;
        }
        assert recent[i..][1..] == recent[i + 1..];
        n := n + 1;
        i := i + 1;
      }
    }
  }

  lemma NextPrefix(before: seq<Check>, results: seq<Check>, n: nat)
    requires n < |results|
    ensures before + results[..n] + [results[n]] == before + results[..n + 1]
    ensures results[n] == Check(results[n].ok, results[n].time)
  {
  }

  /** await_healthy (`want` true) and await_unhealthy (`want` false) on the check results to come:
      report one after the other until the flag has the wanted value. Every earlier report left the
      flag at the other value, so the wait ends at the first moment it can. */
  method AwaitFlag(hm: HealthMasterInner, cfg: Thresholds, results: seq<Check>, want: bool)
    returns (reached: bool, used: nat)
    requires hm.Valid(cfg)
    modifies hm
    ensures hm.Valid(cfg)
    ensures used <= |results| && hm.history == old(hm.history) + results[..used]
    ensures forall j :: 0 < j < used ==> Flag(cfg, old(hm.history) + results[..j]) != want
    ensures if reached then used > 0 && hm.healthy == want
            else used == |results| && (used > 0 ==> hm.healthy != want)
  {
    used := 0;
    ghost var before := hm.history;
    while used < |results|
      invariant used <= |results| && hm.Valid(cfg)
      invariant hm.history == before + results[..used]
      invariant forall j :: 0 < j <= used ==> Flag(cfg, before + results[..j]) != want
    {
      NextPrefix(before, results, used);
      var flag := hm.ReportCheckResult(results[used].ok, results[used].time, cfg);
      used := used + 1;
      if flag == want {
        return true, used;
      }
    }
    reached := false;
  }

  // ---------------------------------------------------------------- flapping

  /** How often the flag changed over a history. */
  ghost function Flips(cfg: Thresholds, history: seq<Check>): nat {
    if history == [] then 0
    else
      var before := history[..|history| - 1];
      Flips(cfg, before) + (if Flag(cfg, history) != Flag(cfg, before) then 1 else 0)
  }

  /** Reports that `k` flips need: up-flips cost the healthy threshold, down-flips the other. */
  function Need(cfg: Thresholds, k: nat): nat {
    (k + 1) / 2 * cfg.healthy as nat + k / 2 * cfg.unhealthy as nat
  }

  /** The threshold the next flip has to reach. */
  ghost function NextThreshold(cfg: Thresholds, history: seq<Check>): nat {
    if Flag(cfg, history) then cfg.unhealthy as nat else cfg.healthy as nat
  }

  /** The run working against the current flag. */
  ghost function Opposing(cfg: Thresholds, history: seq<Check>): nat {
    TrailingRun(history, !Flag(cfg, history))
  }

  /** The flag is the parity of the flips. */
  lemma {:induction false} FlagIsParity(cfg: Thresholds, history: seq<Check>)
    ensures Flag(cfg, history) <==> Flips(cfg, history) % 2 == 1
  {
    if history != [] {
      FlagIsParity(cfg, history[..|history| - 1]);
    }
  }

  lemma NeedNext(cfg: Thresholds, k: nat)
    ensures Need(cfg, k + 1) == Need(cfg, k) + (if k % 2 == 0 then cfg.healthy else cfg.unhealthy) as nat
  {
    var h, u := cfg.healthy as nat, cfg.unhealthy as nat;
    if k % 2 == 0 {
      assert (k + 2) / 2 == (k + 1) / 2 + 1 && (k + 1) / 2 == k / 2;
      assert ((k + 1) / 2 + 1) * h == (k + 1) / 2 * h + h;
    } else {
      assert (k + 2) / 2 == (k + 1) / 2 && (k + 1) / 2 == k / 2 + 1;
      assert (k / 2 + 1) * u == k / 2 * u + u;
    }
  }

  /** Flap bound, with the run still under construction as credit: `k` flips need at least
      ceil(k/2)*healthy + floor(k/2)*unhealthy reports, and the flag flips exactly at the first
      report where the opposing run reaches its threshold. */
  lemma {:induction false} FlapBound(cfg: Thresholds, history: seq<Check>)
    requires cfg.healthy >= 1 && cfg.unhealthy >= 1
    ensures |history| >= Need(cfg, Flips(cfg, history)) + Opposing(cfg, history)
    ensures Opposing(cfg, history) < NextThreshold(cfg, history)
  {
    if history != [] {
      var before := history[..|history| - 1];
      FlapBound(cfg, before);
      FlagIsParity(cfg, before);
      NeedNext(cfg, Flips(cfg, before));
    }
  }

  lemma {:induction false} NeedIsMonotone(cfg: Thresholds, j: nat, k: nat)
    requires j <= k
    ensures Need(cfg, j) <= Need(cfg, k)
    decreases k - j
  {
    if j < k {
      NeedIsMonotone(cfg, j, k - 1);
      NeedNext(cfg, k - 1);
    }
  }

  lemma NeedOfRises(cfg: Thresholds, n: nat)
    requires n >= 1
    ensures Need(cfg, 2 * n - 1) == n * cfg.healthy as nat + (n - 1) * cfg.unhealthy as nat
  {
    assert (2 * n - 1 + 1) / 2 == n && (2 * n - 1) / 2 == n - 1;
  }

  /** Rising n times takes n healthy runs and, between them, n - 1 unhealthy ones. */
  lemma RisesNeedReports(cfg: Thresholds, history: seq<Check>, n: nat)
    requires Damped(cfg) && n >= 1
    requires Flips(cfg, history) >= 2 * n - 1
    ensures |history| >= n * cfg.healthy as nat + (n - 1) * cfg.unhealthy as nat
  {
    FlapBoundIff(cfg);
    NeedIsMonotone(cfg, 2 * n - 1, Flips(cfg, history));
    NeedOfRises(cfg, n);
  }

  /** At a flip the opposing run is exactly its threshold: not one report earlier or later. */
  lemma FlipsAtTheThreshold(cfg: Thresholds, before: seq<Check>, c: Check)
    requires cfg.healthy >= 1 && cfg.unhealthy >= 1
    ensures var after := before + [c];
            Flag(cfg, after) != Flag(cfg, before) <==>
              c.ok != Flag(cfg, before) && TrailingRun(after, c.ok) == NextThreshold(cfg, before)
  {
  }

  /** One more result against the flag either turns it or lengthens the run against it. */
  lemma ReportAgainst(cfg: Thresholds, before: seq<Check>, c: Check)
    requires c.ok != Flag(cfg, before)
    ensures var after := before + [c];
            && TrailingRun(after, c.ok) == TrailingRun(before, c.ok) + 1
            && (Flag(cfg, after) == c.ok <==> TrailingRun(after, c.ok) >= NextThreshold(cfg, before))
            && (Flag(cfg, after) != c.ok ==> NextThreshold(cfg, after) == NextThreshold(cfg, before))
  {
    assert (before + [c])[..|before|] == before;
  }

  /** The runs behind two consecutive flips do not overlap: after a flip at position `p` the next
      one, at `q`, is at least its own threshold later. */
  lemma {:induction false} FlipsShareNoResult(cfg: Thresholds, history: seq<Check>, p: nat, q: nat)
    requires cfg.healthy >= 1 && cfg.unhealthy >= 1
    requires 0 < p < q <= |history|
    requires Flag(cfg, history[..p]) != Flag(cfg, history[..p - 1])
    requires Flag(cfg, history[..q]) != Flag(cfg, history[..q - 1])
    requires Flag(cfg, history[..p]) == Flag(cfg, history[..q - 1])
    ensures q - p >= NextThreshold(cfg, history[..p])
  {
    var flag := Flag(cfg, history[..p]);
    FlipAt(cfg, history, p);
    FlipAt(cfg, history, q);
    RunStopsAt(history[..q], p, !flag);
  }

  lemma FlipAt(cfg: Thresholds, history: seq<Check>, p: nat)
    requires cfg.healthy >= 1 && cfg.unhealthy >= 1 && 0 < p <= |history|
    requires Flag(cfg, history[..p]) != Flag(cfg, history[..p - 1])
    ensures history[p - 1].ok == Flag(cfg, history[..p])
    ensures TrailingRun(history[..p], history[p - 1].ok) == NextThreshold(cfg, history[..p - 1])
  {
    FlipsAtTheThreshold(cfg, history[..p - 1], history[p - 1]);
    assert history[..p - 1] + [history[p - 1]] == history[..p];
  }

  /** A run cannot reach back over a result of the other kind. */
  lemma {:induction false} RunStopsAt(history: seq<Check>, p: nat, ok: bool)
    requires 0 < p <= |history| && history[p - 1].ok != ok
    ensures TrailingRun(history, ok) <= |history| - p
  {
    if p < |history| {
      RunStopsAt(history[..|history| - 1], p, ok);
    }
  }

  /** With a zero threshold the flag leaves that side at the very next report, whatever it is. */
  lemma ZeroThresholdFlipsAtOnce(cfg: Thresholds, before: seq<Check>, c: Check)
    ensures NextThreshold(cfg, before) == 0 ==> Flag(cfg, before + [c]) != Flag(cfg, before)
  {
  }

  // ---------------------------------------------------------------- flapping with a zero threshold

  function Repeated(ok: bool, n: nat): seq<Check> {
    seq(n, _ => Check(ok, 0))
  }

  lemma {:induction false} RepeatedRun(ok: bool, n: nat)
    ensures TrailingRun(Repeated(ok, n), ok) == n && TrailingRun(Repeated(ok, n), !ok) == 0
    ensures n > 0 ==> Repeated(ok, n)[..n - 1] == Repeated(ok, n - 1)
  {
    if n > 0 {
      assert Repeated(ok, n)[..n - 1] == Repeated(ok, n - 1);
      RepeatedRun(ok, n - 1);
    }
  }

  /** Failing checks only, with a zero healthy threshold: the first raises the flag, the one that
      completes the unhealthy run lowers it, and from then on every one turns it. */
  lemma {:induction false} FailuresFlap(cfg: Thresholds, n: nat)
    requires cfg.healthy == 0 && cfg.unhealthy >= 3 && n > 0
    ensures var u := cfg.unhealthy as nat;
            Flips(cfg, Repeated(false, n)) == if n < u then 1 else n - u + 2
  {
    RepeatedRun(false, n);
    FlagIsParity(cfg, Repeated(false, n - 1));
    if n > 1 {
      FailuresFlap(cfg, n - 1);
    }
  }

  /** Succeeding checks only, with a zero unhealthy threshold: the one that completes the healthy run
      raises the flag, and from then on every one turns it. */
  lemma {:induction false} SuccessesFlap(cfg: Thresholds, n: nat)
    requires cfg.healthy >= 3 && cfg.unhealthy == 0
    ensures var h := cfg.healthy as nat;
            Flips(cfg, Repeated(true, n)) == if n < h then 0 else n - h + 1
  {
    if n > 0 {
      RepeatedRun(true, n);
      FlagIsParity(cfg, Repeated(true, n - 1));
      SuccessesFlap(cfg, n - 1);
    }
  }

  /** Every flip takes a report of its own, and if the healthy threshold is above one the first
      report flips nothing. */
  lemma {:induction false} FlipsTakeReports(cfg: Thresholds, history: seq<Check>)
    ensures Flips(cfg, history) <= |history|
    ensures cfg.healthy >= 2 && history != [] ==> Flips(cfg, history) < |history|
  {
    if history != [] {
      FlipsTakeReports(cfg, history[..|history| - 1]);
      RunFits(history, true);
    }
  }

  lemma {:induction false} SmallNeed(cfg: Thresholds, k: nat)
    requires cfg.healthy <= 2 && cfg.unhealthy <= 2 && (cfg.healthy == 0 || cfg.unhealthy == 0)
    ensures Need(cfg, k) <= if cfg.healthy == 2 then k + k % 2 else if cfg.healthy == 1 then k else k - k % 2
  {
    if k > 0 {
      SmallNeed(cfg, k - 1);
      NeedNext(cfg, k - 1);
    }
  }

  predicate Damped(cfg: Thresholds) {
    (cfg.healthy >= 1 && cfg.unhealthy >= 1) || (cfg.healthy <= 2 && cfg.unhealthy <= 2)
  }

  /** The flap bound over all thresholds: ceil(k/2)*healthy + floor(k/2)*unhealthy reports for k flips
      are needed on every history if and only if both thresholds are positive or neither exceeds 2.
      Otherwise one threshold is zero, and a single run then counts toward several flips. */
  lemma FlapBoundIff(cfg: Thresholds)
    ensures (forall history :: |history| >= Need(cfg, Flips(cfg, history))) <==> Damped(cfg)
  {
    var h, u := cfg.healthy as nat, cfg.unhealthy as nat;
    if h >= 1 && u >= 1 {
      forall history ensures |history| >= Need(cfg, Flips(cfg, history)) {
        FlapBound(cfg, history);
      }
    } else if h <= 2 && u <= 2 {
      forall history ensures |history| >= Need(cfg, Flips(cfg, history)) {
        FlipsTakeReports(cfg, history);
        SmallNeed(cfg, Flips(cfg, history));
      }
    } else if h == 0 {
      FailuresFlap(cfg, u + 2);
      assert Need(cfg, 4) == 2 * u;
      assert |Repeated(false, u + 2)| < Need(cfg, Flips(cfg, Repeated(false, u + 2)));
    } else {
      SuccessesFlap(cfg, h + 2);
      assert Need(cfg, 3) == 2 * h;
      assert |Repeated(true, h + 2)| < Need(cfg, Flips(cfg, Repeated(true, h + 2)));
    }
  }
}
