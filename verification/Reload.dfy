/** The configuration reload loop of `run_daemon`, with the file watcher that notifies it and the
    reconciler it drives. Writers may change either file at any time; each create or modify is
    followed, later, by one call of the watcher, which stores at most one permit. The loop reads
    the two files one after the other, applies what it read, and waits for a permit. */
module Reload {
  import opened Wrappers
  import opened Config
  import opened Reconciler
  import opened ReconcilerTheorems

  /** What reading config.yaml gives: a configuration, nothing (an empty file), or an error. A file
      that is absent is an error too, unlike an absent key file. */
  datatype ConfigText = Parsed(cfg: DaemonConfig) | Empty | Broken

  /** What reading host.key gives: a key, none (empty or absent), or an error. */
  datatype KeyText = Key(key: string) | NoKey | Unreadable

  /** A file's content, with the number of writes it has seen. */
  datatype File<C> = File(content: C, version: nat)

  datatype Pc = ReadingConfig | ReadingKey | Applying | Reporting | Waiting

  /** `seenConfig` and `seenKey` are what the last load attempt has read so far, and `lastKey` is
      the last key any load has read. */
  datatype State = State(
    config: File<ConfigText>,
    key: File<KeyText>,
    undelivered: nat,
    permit: bool,
    pc: Pc,
    seenConfig: Option<File<ConfigText>>,
    seenKey: Option<File<KeyText>>,
    lastKey: Option<string>,
    runner: Runner)

  datatype Step =
    | WriteConfig(c: ConfigText)
    | WriteKey(k: KeyText)
    | Deliver
    | ReadConfig
    | ReadKey
    | ApplyLoaded
    | ReportError
    | Wake

  /** The daemon starts with a first load and with whatever the files hold. */
  function Init(c: ConfigText, k: KeyText): State {
    State(File(c, 0), File(k, 0), 0, false, ReadingConfig, None, None, None, New())
  }

  function LoadedConfig(c: Option<File<ConfigText>>): Option<DaemonConfig> {
    if c.Some? && c.value.content.Parsed? then Some(c.value.content.cfg) else None
  }

  function LoadedKey(k: Option<File<KeyText>>): Option<string> {
    if k.Some? && k.value.content.Key? then Some(k.value.content.key) else None
  }

  predicate Enabled(s: State, step: Step) {
    match step
    case WriteConfig(_) => true
    case WriteKey(_) => true
    case Deliver => s.undelivered > 0
    case ReadConfig => s.pc.ReadingConfig?
    case ReadKey => s.pc.ReadingKey?
    case ApplyLoaded => s.pc.Applying?
    case ReportError => s.pc.Reporting?
    case Wake => s.pc.Waiting? && s.permit
  }

  function Apply(s: State, step: Step, host: string): State
    requires Enabled(s, step)
  {
    match step
    case WriteConfig(c) =>
      s.(config := File(c, s.config.version + 1), undelivered := s.undelivered + 1)
    case WriteKey(k) =>
      s.(key := File(k, s.key.version + 1), undelivered := s.undelivered + 1)
    case Deliver => s.(undelivered := s.undelivered - 1, permit := true)
    case ReadConfig =>
      s.(seenConfig := Some(s.config), seenKey := None,
         pc := if s.config.content.Broken? then Reporting else ReadingKey)
    case ReadKey =>
      s.(seenKey := Some(s.key),
         lastKey := if s.key.content.Key? then Some(s.key.content.key) else s.lastKey,
         pc := if s.key.content.Unreadable? then Reporting else Applying)
    case ApplyLoaded =>
      s.(pc := Waiting,
         runner := Update(s.runner, LoadedConfig(s.seenConfig), LoadedKey(s.seenKey), host))
    case ReportError => s.(pc := Waiting)
    case Wake => s.(permit := false, pc := ReadingConfig)
  }

  predicate Valid(s: State, steps: seq<Step>, host: string)
    decreases |steps|
  {
    steps == [] || (Enabled(s, steps[0]) && Valid(Apply(s, steps[0], host), steps[1..], host))
  }

  function Run(s: State, steps: seq<Step>, host: string): State
    requires Valid(s, steps, host)
    decreases |steps|
  {
    if steps == [] then s else Run(Apply(s, steps[0], host), steps[1..], host)
  }

  // ---------------------------------------------------------------- invariant

  /** Another load is certain to come. */
  predicate LoadAhead(s: State) {
    s.undelivered > 0 || s.permit || s.pc.ReadingConfig?
  }

  /** The last load attempt read a configuration that is not broken, so it went on to the key. */
  predicate GoodConfig(s: State) {
    s.seenConfig.Some? && !s.seenConfig.value.content.Broken?
  }

  /** The last load attempt got as far as reading both files. */
  predicate LoadSucceeded(s: State) {
    GoodConfig(s) && s.seenKey.Some? && !s.seenKey.value.content.Unreadable?
  }

  /** What the last load attempt has read is current or another load is coming. */
  predicate NoneLost(s: State) {
    && (s.seenConfig != Some(s.config) ==> LoadAhead(s))
    && (s.seenKey.Some? && s.seenKey.value != s.key ==> LoadAhead(s))
  }

  /** How far the load attempt is, by program counter. */
  predicate PcOk(s: State) {
    && (s.seenKey.Some? ==> GoodConfig(s))
    && (s.pc.ReadingKey? ==> GoodConfig(s))
    && (s.pc.Applying? ==> LoadSucceeded(s))
    && (s.pc.Reporting? ==> s.seenConfig.Some? && !LoadSucceeded(s))
    && (s.pc.Reporting? || s.pc.Waiting? ==> (s.seenKey.Some? <==> GoodConfig(s)))
  }

  /** A runner that has never been given a key has started nothing. */
  predicate Untouched(r: Runner) {
    r.endpoints == map[] && r.ssh.None? && r.spawned == []
  }

  ghost predicate Inv(s: State, host: string) {
    && Owned(s.runner)
    && NoneLost(s)
    && PcOk(s)
    && (s.runner.key.None? ==> Untouched(s.runner))
    && (!s.pc.Applying? ==> s.runner.key == s.lastKey)
    && (s.pc.Applying? ==> s.lastKey == if LoadedKey(s.seenKey).Some? then LoadedKey(s.seenKey) else s.runner.key)
    && (s.pc.Waiting? && LoadSucceeded(s) ==>
          && (LoadedKey(s.seenKey).Some? ==> s.runner.key == LoadedKey(s.seenKey))
          && (LoadedConfig(s.seenConfig).Some? && s.runner.key.Some? ==>
                ViewOf(s.runner) == Target(LoadedConfig(s.seenConfig).value, host)))
  }

  lemma ApplyLeavesUntouched(r: Runner, config: Option<DaemonConfig>, key: Option<string>, host: string)
    requires key.None? && r.key.None? && Untouched(r)
    ensures Untouched(Update(r, config, key, host))
  {
  }

  lemma StepKeepsInv(s: State, step: Step, host: string)
    requires Inv(s, host) && Enabled(s, step)
    ensures Inv(Apply(s, step, host), host)
  {
    if step.ApplyLoaded? {
      UpdateShowsTarget(s.runner, LoadedConfig(s.seenConfig), LoadedKey(s.seenKey), host);
      if Update(s.runner, LoadedConfig(s.seenConfig), LoadedKey(s.seenKey), host).key.None? {
        ApplyLeavesUntouched(s.runner, LoadedConfig(s.seenConfig), LoadedKey(s.seenKey), host);
      }
    }
  }

  lemma {:induction false} RunKeepsInv(s: State, steps: seq<Step>, host: string)
    requires Inv(s, host) && Valid(s, steps, host)
    ensures Inv(Run(s, steps, host), host)
    decreases |steps|
  {
    if steps != [] {
      StepKeepsInv(s, steps[0], host);
      RunKeepsInv(Apply(s, steps[0], host), steps[1..], host);
    }
  }

  // ---------------------------------------------------------------- no lost update

  /** The loop waits, no permit is stored and no watcher call is outstanding. */
  predicate Quiescent(s: State) {
    s.pc.Waiting? && !s.permit && s.undelivered == 0
  }

  /** The daemon has taken up the newest files: the newest key if the configuration could be read,
      and the newest configuration if the key could be read too. A daemon that was never given a key
      runs nothing; one that was goes on with its last key when the key file is empty or gone. */
  ghost predicate UpToDate(s: State, host: string) {
    && s.runner.key == s.lastKey
    && (!s.config.content.Broken? && s.key.content.Key? ==> s.runner.key == Some(s.key.content.key))
    && (s.config.content.Parsed? && !s.key.content.Unreadable? ==>
          if s.runner.key.Some?
          then ViewOf(s.runner) == Target(s.config.content.cfg, host)
               && RunsAsConfigured(s.runner, s.config.content.cfg, host)
          else Untouched(s.runner))
  }

  /** No lost update: over every interleaving, the last load attempt of a quiescent daemon has read
      the newest configuration and, exactly if that one is not broken, the newest key, although the
      two files are read separately; and what it read has been taken up. */
  lemma NoLostUpdate(c: ConfigText, k: KeyText, steps: seq<Step>, host: string)
    requires Valid(Init(c, k), steps, host)
    requires Quiescent(Run(Init(c, k), steps, host))
    ensures var s := Run(Init(c, k), steps, host);
            && s.seenConfig == Some(s.config)
            && s.seenKey == (if s.config.content.Broken? then None else Some(s.key))
            && UpToDate(s, host)
  {
    NothingLeaks([], host);
    RunKeepsInv(Init(c, k), steps, host);
    var s := Run(Init(c, k), steps, host);
    if s.config.content.Parsed? && !s.key.content.Unreadable? && s.runner.key.Some? {
      RunsTheTarget(s.runner, s.config.content.cfg, host);
    }
  }

  lemma {:induction false} RunConcat(s: State, a: seq<Step>, b: seq<Step>, host: string)
    requires Valid(s, a, host) && Valid(Run(s, a, host), b, host)
    ensures Valid(s, a + b, host) && Run(s, a + b, host) == Run(Run(s, a, host), b, host)
    decreases |a|
  {
    if a == [] {
      assert a + b == b;
    } else {
      assert (a + b)[1..] == a[1..] + b;
      RunConcat(Apply(s, a[0], host), a[1..], b, host);
    }
  }

  lemma Then(s: State, steps: seq<Step>, step: Step, host: string) returns (longer: seq<Step>)
    requires Valid(s, steps, host) && Enabled(Run(s, steps, host), step)
    ensures Valid(s, longer, host) && Run(s, longer, host) == Apply(Run(s, steps, host), step, host)
  {
    longer := steps + [step];
    assert Valid(Run(s, steps, host), [step], host);
    RunConcat(s, steps, [step], host);
  }

  /** The key can be lost behind a broken configuration: a daemon running with `was` is given a
      broken configuration and then the key `next`, comes to rest, and still runs with `was`. */
  lemma KeyLostBehindBrokenConfig(was: string, next: string, host: string) returns (steps: seq<Step>)
    ensures var start := Init(Empty, Key(was));
            && Valid(start, steps, host)
            && var s := Run(start, steps, host);
               && Quiescent(s)
               && s.config.content.Broken? && s.key.content == Key(next)
               && s.runner.key == Some(was)
  {
    var start := Init(Empty, Key(was));
    steps := Then(start, [], ReadConfig, host);
    steps := Then(start, steps, ReadKey, host);
    steps := Then(start, steps, ApplyLoaded, host);
    steps := Then(start, steps, WriteConfig(Broken), host);
    steps := Then(start, steps, WriteKey(Key(next)), host);
    steps := Then(start, steps, Deliver, host);
    steps := Then(start, steps, Deliver, host);
    steps := Then(start, steps, Wake, host);
    steps := Then(start, steps, ReadConfig, host);
    steps := Then(start, steps, ReportError, host);
  }

  /** So the exact condition for the daemon to run with the newest key at rest is that the newest
      configuration is not broken. */
  lemma NewestKeyIffConfigReadable(text: ConfigText, host: string)
    ensures (forall c, k, steps ::
               Valid(Init(c, k), steps, host) && Quiescent(Run(Init(c, k), steps, host))
               && Run(Init(c, k), steps, host).config.content == text
               && Run(Init(c, k), steps, host).key.content.Key? ==>
                 Run(Init(c, k), steps, host).runner.key == Some(Run(Init(c, k), steps, host).key.content.key))
       <==> !text.Broken?
  {
    if text.Broken? {
      var steps := KeyLostBehindBrokenConfig("a", "b", host);
      assert Run(Init(Empty, Key("a")), steps, host).runner.key != Some("b");
    } else {
      forall c, k, steps | Valid(Init(c, k), steps, host) && Quiescent(Run(Init(c, k), steps, host))
                        && Run(Init(c, k), steps, host).config.content == text
                        && Run(Init(c, k), steps, host).key.content.Key?
        ensures Run(Init(c, k), steps, host).runner.key == Some(Run(Init(c, k), steps, host).key.content.key)
      {
        NoLostUpdate(c, k, steps, host);
      }
    }
  }

  /** Without a key nothing is shown, whatever the configuration asks for. */
  lemma NothingShownWithoutKey(cfg: DaemonConfig, host: string) returns (steps: seq<Step>)
    ensures var start := Init(Parsed(cfg), NoKey);
            && Valid(start, steps, host)
            && var s := Run(start, steps, host);
               Quiescent(s) && s.config == start.config && s.key == start.key && Untouched(s.runner)
  {
    var start := Init(Parsed(cfg), NoKey);
    steps := Then(start, [], ReadConfig, host);
    steps := Then(start, steps, ReadKey, host);
    steps := Then(start, steps, ApplyLoaded, host);
  }

  /** What the file asks the daemon to show; a file without a configuration asks for nothing. */
  ghost function Asked(text: ConfigText, host: string): View {
    if text.Parsed? then Target(text.cfg, host) else View(map[], None)
  }

  /** A daemon that has shown `was` goes on showing it when the configuration file is emptied or
      broken, or when the key file becomes unreadable along with a new configuration. */
  lemma OldConfigStays(was: DaemonConfig, text: ConfigText, key: KeyText, host: string)
    returns (steps: seq<Step>)
    requires !text.Parsed? || key.Unreadable?
    ensures var start := Init(Parsed(was), Key("a"));
            && Valid(start, steps, host)
            && var s := Run(start, steps, host);
               && Quiescent(s)
               && s.config.content == text && s.key.content == key
               && ViewOf(s.runner) == Target(was, host)
  {
    var start := Init(Parsed(was), Key("a"));
    steps := Then(start, [], ReadConfig, host);
    steps := Then(start, steps, ReadKey, host);
    steps := Then(start, steps, ApplyLoaded, host);
    NoLostUpdate(start.config.content, start.key.content, steps, host);
    steps := Then(start, steps, WriteConfig(text), host);
    steps := Then(start, steps, WriteKey(key), host);
    steps := Then(start, steps, Deliver, host);
    steps := Then(start, steps, Deliver, host);
    steps := Then(start, steps, Wake, host);
    steps := Then(start, steps, ReadConfig, host);
    if !text.Broken? {
      steps := Then(start, steps, ReadKey, host);
    }
    if text.Broken? || key.Unreadable? {
      steps := Then(start, steps, ReportError, host);
    } else {
      steps := Then(start, steps, ApplyLoaded, host);
    }
  }

  ghost predicate ShownAtRest(text: ConfigText, key: KeyText, host: string) {
    forall c, k, steps ::
      Valid(Init(c, k), steps, host) && Quiescent(Run(Init(c, k), steps, host))
      && Run(Init(c, k), steps, host).config.content == text
      && Run(Init(c, k), steps, host).key.content == key ==>
        ViewOf(Run(Init(c, k), steps, host).runner) == Asked(text, host)
  }

  lemma EmptyTarget(cfg: DaemonConfig, host: string)
    ensures Target(cfg, host) == View(map[], None) <==> cfg.endpoints == [] && cfg.ssh.None?
  {
    if cfg.endpoints != [] {
      NamesAreNamed(cfg.endpoints, cfg.endpoints[0].dns);
      assert Named(cfg.endpoints, cfg.endpoints[0].dns);
      assert cfg.endpoints[0].dns in Target(cfg, host).endpoints;
    }
  }

  /** The exact condition for the newest configuration file to be what the daemon shows at rest: it
      holds a configuration, and the key file holds a key or, if that configuration asks for nothing,
      is empty or absent. */
  lemma NewestConfigIffKey(text: ConfigText, key: KeyText, host: string)
    ensures ShownAtRest(text, key, host) <==>
            text.Parsed? && (key.Key? || (key.NoKey? && text.cfg.endpoints == [] && text.cfg.ssh.None?))
  {
    if !text.Parsed? || key.Unreadable? {
      var ssh := if Asked(text, host).ssh.Some? then None else Some(Ssh(1, 22, true, 1, None));
      var was := DaemonConfig([], ssh, None);
      var steps := OldConfigStays(was, text, key, host);
      assert ViewOf(Run(Init(Parsed(was), Key("a")), steps, host).runner).ssh != Asked(text, host).ssh;
    } else {
      EmptyTarget(text.cfg, host);
      if key.Key? || Asked(text, host) == View(map[], None) {
        KeyedIsShown(text, key, host);
      } else {
        var steps := NothingShownWithoutKey(text.cfg, host);
        assert ViewOf(Run(Init(text, NoKey), steps, host).runner) == View(map[], None);
      }
    }
  }

  lemma KeyedIsShown(text: ConfigText, key: KeyText, host: string)
    requires text.Parsed? && (key.Key? || (key.NoKey? && Asked(text, host) == View(map[], None)))
    ensures ShownAtRest(text, key, host)
  {
    forall c, k, steps | Valid(Init(c, k), steps, host) && Quiescent(Run(Init(c, k), steps, host))
                      && Run(Init(c, k), steps, host).config.content == text
                      && Run(Init(c, k), steps, host).key.content == key
      ensures ViewOf(Run(Init(c, k), steps, host).runner) == Asked(text, host)
    {
      NoLostUpdate(c, k, steps, host);
    }
  }

  // ---------------------------------------------------------------- convergence

  predicate IsWrite(step: Step) {
    step.WriteConfig? || step.WriteKey?
  }

  ghost predicate WriteFree(steps: seq<Step>) {
    forall i :: 0 <= i < |steps| ==> !IsWrite(steps[i])
  }

  /** Steps the daemon can still take if nobody writes. */
  function Rank(s: State): nat {
    5 * s.undelivered + (if s.permit then 4 else 0) +
    match s.pc
    case ReadingConfig => 3
    case ReadingKey => 2
    case Applying => 1
    case Reporting => 1
    case Waiting => 0
  }

  /** Once the writes stop, every schedule is finite: it takes at most Rank(s) steps. */
  lemma {:induction false} WriteFreeRunsAreShort(s: State, steps: seq<Step>, host: string)
    requires Valid(s, steps, host) && WriteFree(steps)
    ensures |steps| <= Rank(s)
    ensures Run(s, steps, host).config == s.config && Run(s, steps, host).key == s.key
    decreases |steps|
  {
    if steps != [] {
      assert !IsWrite(steps[0]);
      WriteFreeRunsAreShort(Apply(s, steps[0], host), steps[1..], host);
    }
  }

  /** A schedule that cannot be continued without a write has ended in quiescence. */
  ghost predicate Stuck(s: State) {
    forall step :: Enabled(s, step) ==> IsWrite(step)
  }

  lemma StuckIffQuiescent(s: State)
    ensures Stuck(s) <==> Quiescent(s)
  {
    assert Enabled(s, Deliver) <==> s.undelivered > 0;
    assert Enabled(s, ReadConfig) <==> s.pc.ReadingConfig?;
    assert Enabled(s, ReadKey) <==> s.pc.ReadingKey?;
    assert Enabled(s, ApplyLoaded) <==> s.pc.Applying?;
    assert Enabled(s, ReportError) <==> s.pc.Reporting?;
    assert Enabled(s, Wake) <==> s.pc.Waiting? && s.permit;
  }

  /** Convergence: after any run, let the writes stop. Then however the daemon and the watcher are
      scheduled, they come to rest within Rank steps, and at rest the daemon has taken up the newest
      files. */
  lemma DaemonConverges(c: ConfigText, k: KeyText, before: seq<Step>, after: seq<Step>, host: string)
    requires Valid(Init(c, k), before, host)
    requires Valid(Run(Init(c, k), before, host), after, host) && WriteFree(after)
    ensures var s := Run(Init(c, k), before, host);
            var t := Run(s, after, host);
            && |after| <= Rank(s)
            && t.config == s.config && t.key == s.key
            && (Stuck(t) ==> UpToDate(t, host))
  {
    var s := Run(Init(c, k), before, host);
    RunConcat(Init(c, k), before, after, host);
    WriteFreeRunsAreShort(s, after, host);
    StuckIffQuiescent(Run(s, after, host));
    if Stuck(Run(s, after, host)) {
      NoLostUpdate(c, k, before + after, host);
    }
  }
}
