# Verified model of the Ebbflow daemon

Ebbflow is a reverse-proxy daemon. For every configured endpoint it keeps a pool of idle
connections to Ebbflow's servers, turns one into a proxied connection when traffic arrives, and
starts and stops whole pools as health checks and the configuration file change. This project
models that machinery in Dafny and proves what it guarantees.

Concurrent parts are step machines: `Enabled` says when an atomic action may happen, `Apply` what
it does, and every theorem quantifies over all valid step sequences, that is, over every
interleaving. Beside what every run keeps stands what some run reaches: retries as fast as the bound,
a stop carried through with nobody's help, a full exchange, a configured endpoint proxying. Sequential parts are classes and methods with the source's loops, proved against
specification functions.

| file | what it models |
|---|---|
| `Pool.dfy`, `PoolSafety.dfy`, `PoolProgress.dfy` | both semaphores, all tasks of all generations, the shared counters and a millisecond clock |
| `Signals.dfy` | the stop signal over a watch channel |
| `Health.dfy` | the health window with hysteresis, and the automaton over the full history it equals |
| `Supervisor.dfy` | the supervisor loop composed with health and the pool, up to clean shutdown |
| `SharedCounters.dfy` | what the counters shared by all generations, and a status request reading them, can show |
| `RetryRuns.dfy`, `EndpointRate.dfy` | the fastest retries there can be, and the retry rate of all generations of an endpoint together |
| `Config.dfy`, `Reconciler.dfy`, `ReconcilerTheorems.dfy`, `DaemonRunner.dfy` | `update_config`: specification, theorems, and the in-place update |
| `Reload.dfy` | the reload loop with the file watcher, driving the reconciler |
| `Daemon.dfy` | everything together: the reload loop and one supervisor with its pool per endpoint |
| `CliEdits.dfy` | the configuration edits of the command line client |
| `Messaging.dfy` | wire format and framing |
| `Proxy.dfy`, `Handshake.dfy`, `HandshakeRuns.dfy` | the byte-copying proxy and the whole connection, byte by byte: what every run keeps, and what it can reach |
| `Counting.dfy`, `Wrappers.dfy` | counting over sequences, optional values |

Some properties one might expect are false of the code. For each there is a witness and the exact
condition under which it holds:

- Reapplying a configuration is free of stops and spawns if and only if entries that share a dns
  name agree or are all disabled (`IdempotentIffQuiet`, witness `DuplicatesRestartOnReload`).
- `maxconns` bounds each generation. It bounds the shared counters if and only if the endpoint has no
  health check or a limit is zero (`CountersWithinMaxIff`, witness `ActiveGrowsWithGenerations`).
- A status request reads the two counters one after the other. It stays within `maxconns` if and only
  if a limit is zero, even with a single generation (`StatusReadsWithinMaxIff`, witness `TornRead`);
  without a health check it shows at most `maxconns + min(idleconns, maxconns)`, which is reached.
- The retry bound of one generation holds for the whole endpoint if and only if it has no health
  check or a limit is zero (`EndpointRetryRateIff`, witness `RefusalsAddUp`).
- A daemon at rest runs with the newest key if and only if the newest configuration file is not
  broken, because the key is read after it (`NewestKeyIffConfigReadable`, witness
  `KeyLostBehindBrokenConfig`). It shows what the newest configuration file asks for if and only if
  that file holds a configuration, and the key file holds a key or, if the configuration asks for
  nothing, is empty or absent (`NewestConfigIffKey`, witnesses `OldConfigStays` and
  `NothingShownWithoutKey`): emptying the configuration file stops nothing.
- k flips of the health flag need ceil(k/2)*healthy + floor(k/2)*unhealthy reports, and n generations
  need n*healthy + (n-1)*unhealthy, if and only if both thresholds are positive or neither exceeds 2
  (`FlapBoundIff`, `RestartRateIff`, witnesses `FailuresFlap`, `SuccessesFlap` and `RestartsTooFast`).
- The "mutated" flag for one endpoint is right if and only if, whenever some entry of the name has the
  other setting, the last one has it (`ToggleReportsTheChange`, witness `ToggleCanMissAChange`); for
  all endpoints, if and only if the list is empty or some entry has the other setting
  (`ToggleAllReport`, witness `ToggleAllCanInventAChange`).
- A length word is right if and only if the frame is shorter than 4 GiB, and an encoding that is a
  prefix of another equals it if and only if they differ in length by less than 4 GiB
  (`HeaderIsTrueIff`, `EncodingsArePrefixFree`, witness `LongFramesMislead`).

Library behaviour taken as given:

- The watch channel's receiver yields the current value on its first receive and `None` once the
  sender is gone; a clone has seen nothing.
- `Notify` stores at most one permit; a semaphore permit returns when dropped.
- A sleep lasts at least its base duration; times are whole milliseconds.
- `read_exact` yields exactly the bytes asked for or fails.
- A file read and a file write each happen at one instant; a truncating write is a write of its own.
- The CBOR codec reads back what it wrote (`Messaging.Faithful`), stated as a hypothesis where used;
  `Handshake.SomeCodecFits` shows that the hypotheses can be met.

## Model

| member | source | states |
|---|---|---|
| PoolSafety.PermitsAreConserved | src/daemon/mod.rs:412-460 | in every reachable state of every interleaving, per generation: free max permits + unfinished tasks + loop-held permit = maxconns, and free idle permits + tasks that still hold theirs + loop-held permit = idleconns, also after the loop is dropped mid-acquire |
| PoolSafety.ConnectionBounds | src/daemon/mod.rs:425-459 | idle connections never exceed idleconns and idle plus active never exceed maxconns, at any instant |
| PoolSafety.CountersAreExact | src/daemon/mod.rs:143-194 | the shared counters equal the sums of idle and active tasks over all generations, draining ones included; they are zero when all tasks are done, within generations*maxconns always, and within maxconns while at most one generation is unfinished |
| PoolSafety.NoCounterUnderflow | src/daemon/connection.rs:79-151 | every `fetch_sub` finds a positive counter, on every schedule |
| PoolSafety.RetryRate | src/daemon/connection.rs:88-126 | attempts of a generation beginning in any window of w ms: at most min(idleconns, maxconns)*(w/5000+1) without traffic, the same with 60000 refused, maxconns*(w/5000+1) that never proxy |
| RetryRuns.RetryRateIsReached | src/daemon/connection.rs:88-126 | the bound is exact: for every kind, all usable limits and every n one generation can begin exactly that many in n hold times |
| PoolSafety.DelaysAreServed | src/daemon/connection.rs:22-28 | a connection told to stop while proxying stays counted active for the full 60 s, and one given up as idle was idle for 62 minutes |
| Pool.StepKeepsInv | src/daemon/connection.rs:72-151 | every atomic action of loop, task, signal or clock keeps conservation, counters, back-off accounting and the bound on overlapping attempts |
| Pool.MoveDeltas | src/daemon/connection.rs:79-144 | each action's effect on counters and permits is exactly the change of what the task's phase says it holds |
| PoolProgress.BlockedOnAHolder | src/daemon/mod.rs:425-438 | whenever the loop is blocked on a permit, some unfinished task holds one of that kind |
| PoolProgress.AcquireAlwaysPossible | src/daemon/mod.rs:425-459 | deadlock freedom: from every reachable blocked state, letting a holder alone run makes the acquire succeed; a missing idle permit comes back by the clock alone, even if Ebbflow never answers again |
| PoolProgress.ReleaseIdle | src/daemon/connection.rs:79-126 | every holder of an idle permit gives it back through its 62 minute limit, its stop signal or its back-off, in no more than the time these leave it, with no answer from anyone and disturbing nothing else |
| PoolProgress.Finish | src/daemon/connection.rs:72-151 | every task can run to its end alone, without any permit, disturbing nothing else, in exactly the time its delays leave; unaided once told to stop |
| PoolProgress.StopIsObeyed | src/daemon/connection.rs:253-264 | in every reachable state each task of a stopped generation can end with no hang-up, answer or successful local connect: a proxying one after exactly 60 s, an idle one as shut down at once and after 5 s, none later than 60 s |
| PoolProgress.SpawnsIffLimitsPositive | src/daemon/mod.rs:419-438 | a pool can ever spawn a connection if and only if both limits are positive |
| Signals.StopReachesEveryone | src/signal.rs:20-51 | whether the signal is fired or its sender dropped, every receiver's next wait is ready, whatever it has seen, and so is every later clone's first |
| Signals.SignalReceiver.PollWait | src/signal.rs:39-51 | the wait is ready exactly if an unseen broadcast fired or the sender is gone |
| Signals.WaitTwice | src/signal.rs:20-51 | a fresh receiver's wait returns exactly if the signal is fired or closed; a second wait on the same receiver returns only if the sender is gone |
| Health.HealthMasterInner.ReportCheckResult | src/daemon/health.rs:42-51 | the deque stays the newest max(H,U) results and the flag stays that of the automaton over the whole history, for all 16-bit thresholds, zero included |
| Health.HealthMasterInner.Status | src/daemon/health.rs:57-106 | trimming, then comparing the run in the window, decides as the run over the whole history would |
| Health.HealthMasterInner.CountRun | src/daemon/health.rs:69-95 | the 16-bit run counter is the leading run and cannot overflow |
| Health.WindowRun | src/daemon/health.rs:57-95 | the run seen in the trimmed window is the run of the full history cut at the window's size |
| Health.AwaitFlag | src/daemon/mod.rs:316-360 | the waiting loops report until the flag first has the wanted value and no report longer |
| Health.FlapBound | src/daemon/health.rs:57-106 | k flips need at least ceil(k/2)*H + floor(k/2)*U reports plus the opposing run in progress, which is below its threshold |
| Health.FlapBoundIff | src/daemon/health.rs:57-106 | over all 16-bit thresholds the flap bound holds on every history iff both are positive or neither exceeds 2 |
| Health.FailuresFlap | src/daemon/health.rs:77-98 | with a zero healthy threshold a run of failing checks turns the flag at every report once it reached the unhealthy threshold |
| Health.SuccessesFlap | src/daemon/health.rs:77-98 | the same for a zero unhealthy threshold and succeeding checks |
| Health.FlipsAtTheThreshold | src/daemon/health.rs:77-98 | the flag flips exactly at the report where the opposing run equals its threshold |
| Health.FlipsShareNoResult | src/daemon/health.rs:57-106 | no result counts toward two consecutive flips |
| Health.ZeroThresholdFlipsAtOnce | src/daemon/health.rs:78-98 | with a zero threshold the next report flips the flag whatever it is |
| Supervisor.OneGenerationAtATime | src/daemon/mod.rs:233-311 | at most the newest generation is open, all earlier ones have fired; at the end the stop was seen and every generation is fired or closed; without a health check there is at most one generation |
| Supervisor.SupervisorAgreesWithHealth | src/daemon/mod.rs:234-306 | the flag is true from launch until a generation is found unhealthy and false while waiting for health |
| Supervisor.RestartRateIff | src/daemon/mod.rs:316-360 | that n generations take n*H + (n-1)*U check results holds on every run iff both thresholds are positive or neither exceeds 2 |
| Supervisor.GenerationsNeedReports | src/daemon/mod.rs:316-360 | the positive half: under those thresholds, on every schedule |
| Supervisor.Told | src/daemon/mod.rs:233-311 | every sequence of check results can be what a supervisor is told, and one that acts at once has started one generation per rise of the flag |
| Supervisor.EndIsFinal | src/daemon/mod.rs:284-311 | after the supervisor has ended no generation is ever started |
| Supervisor.ShutdownCanComplete | src/daemon/mod.rs:233-311 | from every reachable state a stop request can be carried through, with no check result and nobody at the other end of a connection: the supervisor ends, no loops, no tasks, all permits back, counters zero |
| Supervisor.ShutdownIsBounded | src/daemon/connection.rs:253-277 | once ended and loop-free, no schedule makes more task moves than the tasks had left |
| SharedCounters.CountersWithinMaxIff | src/daemon/mod.rs:143-194 | idle + active stays within maxconns on every run iff there is no health check or a limit is zero, for all thresholds and limits |
| SharedCounters.ActiveGrowsWithGenerations | src/daemon/mod.rs:233-311 | n generations can leave any k <= maxconns connections each, all counted active at once: n*k, for all thresholds and usable limits |
| SharedCounters.StatusReadsWithinMaxIff | src/lib.rs:58-67 | a status request, reading active and then idle, reports at most maxconns on every pair of states iff a limit is zero |
| SharedCounters.StatusReadsAreBounded | src/lib.rs:58-67 | such a read never exceeds the limits summed over the generations of each instant; without a health check it is at most maxconns + min(idleconns, maxconns) |
| SharedCounters.TornRead | src/lib.rs:58-67 | for all usable limits a single generation reaches that maximum |
| EndpointRate.EndpointRetryRateIff | src/daemon/connection.rs:88-126 | for each kind of failing attempt, the per-generation rate bounds all generations together on every run and window iff there is no health check or a limit is zero |
| EndpointRate.AttemptsAreBounded | src/daemon/connection.rs:88-126 | over every supervisor run the attempts of all generations in a window are within generations times that bound, and within it without a health check |
| EndpointRate.RefusalsAddUp | src/daemon/mod.rs:233-311 | n generations can begin n refused attempts in the same millisecond, for all thresholds and usable limits |
| Reconciler.NothingLeaks | src/lib.rs:76-84 | after any sequence of updates every endpoint ever spawned is signalled or held by exactly one slot, and nothing held is signalled |
| Reconciler.RetainKeepsOwned | src/lib.rs:195-206 | ownership is kept; exactly the slots outside the configured names are emptied and exactly what they held is told to stop |
| Reconciler.PutEndpointKeepsOwned | src/lib.rs:208-270 | replacing or inserting an entry keeps ownership exclusive and complete |
| Reconciler.PutSshKeepsOwned | src/lib.rs:272-316 | the same for the ssh slot |
| Reconciler.PutEndpointInstalls | src/lib.rs:208-270 | one turn of the loop: the name shows the entry and runs its arguments iff enabled, no other name or slot changes, and exactly the previous holder is told to stop, iff the entry changed |
| Reconciler.PutSshInstalls | src/lib.rs:272-316 | the same for ssh, removal included |
| ReconcilerTheorems.UpdateReachesTarget | src/lib.rs:160-317 | with key and config the table shows exactly the last entry of every configured name, running iff enabled, and ssh likewise, whatever came before; otherwise nothing is touched; the key is the new one or else the last |
| ReconcilerTheorems.RunsTheTarget | src/lib.rs:279-360 | field by field, what runs: a TLS endpoint of that name, port, health check, maxconns and maxidle cut at 1000; for ssh an SSH endpoint under the override or the machine's name, with the configured port and limits and no check |
| ReconcilerTheorems.ReconciledShowsTarget | src/lib.rs:188-317 | the visible result is the declarative target, independent of prior state |
| ReconcilerTheorems.UpdateDisturbsOnlyChanges | src/lib.rs:195-310 | for distinct names exactly the departed or changed endpoints are stopped and exactly the new or changed enabled ones started, in order; ssh likewise |
| ReconcilerTheorems.UnchangedKeepsRunning | src/lib.rs:214-219 | an unchanged endpoint keeps the very same instance, not signalled |
| ReconcilerTheorems.IdempotentIffQuiet | src/lib.rs:208-310 | applying a config twice stops and spawns nothing iff same-name entries agree or are all disabled; then nothing changes at all |
| ReconcilerTheorems.DuplicatesRestartOnReload | src/lib.rs:208-249 | two differing enabled entries of one name: from any state, every reload after the first stops two endpoints and starts two |
| DaemonRunner.InnerDaemonRunner.UpdateConfig | src/lib.rs:160-317 | the in-place update leaves exactly the specified state; with a key and a config what runs is, field by field, what the config asks for |
| DaemonRunner.InnerDaemonRunner.Retain | src/lib.rs:195-206 | the retain loop, in any visiting order, stops and removes exactly the names outside the set |
| Reload.NoLostUpdate | src/lib.rs:385-403 | on every interleaving, the last load of a loop waiting with no permit and no outstanding notification has read the newest config and, exactly if that is not broken, the newest key; the key in use is the last one read, a parsed config is shown and runs field by field once there ever was a key, and nothing runs if there never was one |
| Reload.NewestKeyIffConfigReadable | src/ebbflowd.rs:275-298 | at rest the newest key is in use on all runs iff the newest config is not broken |
| Reload.KeyLostBehindBrokenConfig | src/ebbflowd.rs:279-283 | the run on which a new key is missed behind a broken config |
| Reload.NewestConfigIffKey | src/ebbflowd.rs:275-298 | for every content of both files: at rest what the config file asks for is shown on all runs iff it holds a config, and the key file holds a key or, if the config asks for nothing, is empty or absent |
| Reload.OldConfigStays | src/ebbflowd.rs:279-294 | the runs on which an emptied or broken config file, or a new config beside an unreadable key file, leaves the old config shown |
| Reload.NothingShownWithoutKey | src/lib.rs:171-181 | the run on which a config without any key shows nothing |
| Reload.StepKeepsInv | src/ebbflowd.rs:275-298 | every write, watcher call, read, apply and wake-up keeps "stale means another load is coming", though the files are read separately |
| Reload.DaemonConverges | src/ebbflowd.rs:195-214 | once writes stop, every schedule comes to rest within a bounded number of steps, with the newest files taken up |
| Reload.StuckIffQuiescent | src/lib.rs:385-403 | the daemon has nothing left to do exactly when it waits with no permit and no outstanding notification |
| Daemon.DaemonServesItsConfiguration | src/lib.rs:366-406 | end to end: at rest on a readable config, with a key in its file or (the file being empty or gone) still in use, every enabled configured endpoint, and ssh, is served by a live supervisor with that entry's limits and health check, disabled ones are off, and every other endpoint ever started has been told to stop |
| Daemon.HeldEndpointsStayUp | src/daemon/mod.rs:196-314 | at every moment, for every endpoint ever started: if ended it had been signalled, if held it is not stopped, and all its generations respect its own limits |
| Daemon.EndpointsRunFreely | src/daemon/mod.rs:233-311 | every run of an endpoint's supervisor and pool is a run of the daemon: nothing but its stop signal ties it |
| Daemon.StoppedEndpointsGo | src/lib.rs:76-84 | from every reachable state of the daemon, an endpoint the runner has stopped can end by itself, with all connections closed and permits back |
| Daemon.DaemonCanServe | src/lib.rs:366-406 | started on a config and a key, the daemon can bring every enabled endpoint with usable limits to maxconns proxying connections |
| CliEdits.ConfigFile.EnableDisable | src/ebbflow.rs:579-605 | the loop sets exactly the targeted entries; "found" and "mutated" are as specified, for all inputs |
| CliEdits.ConfigFile.EnableDisableSsh | src/ebbflow.rs:618-632 | ssh is switched if present; the pair is (present, changed) |
| CliEdits.ConfigFile.Add | src/ebbflow.rs:634-667 | iff the name is new, one entry is appended: that name, port and health check (iff a check port is given), enabled iff not disabled, maxconns or 5000, maxidle modulo 2^16 or 40 |
| CliEdits.ConfigFile.Setup | src/ebbflow.rs:770-790 | iff ssh was absent it is set up: maxconns or 20, port or 22, enabled iff not disabled, maxidle or 3 cut at 1000, the host name |
| CliEdits.AdditionIsAsAsked | src/ebbflow.rs:634-790 | the same two for the commands, with everything else of the config untouched |
| CliEdits.ConfigFile.Remove | src/ebbflow.rs:669-695 | the entries of the name are dropped; it succeeds iff there was one or the command is idempotent |
| CliEdits.WithoutRemovesExactly | src/ebbflow.rs:674-681 | removal keeps exactly the entries of other names |
| CliEdits.WithoutConcat | src/ebbflow.rs:674-681 | it goes piece by piece, so order and repetitions stay |
| CliEdits.CommandsKeepReloadsQuiet | src/ebbflow.rs:579-695 | every command sequence keeps distinct names distinct, so reloading the result any number of times is free of stops and spawns |
| CliEdits.ToggleChanges | src/ebbflow.rs:584-605 | the config changes iff a targeted entry had the other setting; each targeted entry then has the wanted one and differs in nothing else, and everything else is untouched |
| CliEdits.SshToggleChanges | src/ebbflow.rs:618-632 | switching ssh changes its setting and nothing else |
| CliEdits.ToggleReportsTheChange | src/ebbflow.rs:584-594 | for one name "mutated" is exactly "the config changed" iff the last entry of the name has the other setting whenever some entry has; always for distinct names, and a reported change is always real |
| CliEdits.ToggleCanMissAChange | src/ebbflow.rs:586-592 | a disabled and then an enabled entry of one name: enabling it changes the config and reports no change |
| CliEdits.ToggleAllReport | src/ebbflow.rs:595-599 | for all endpoints the flag is right iff the list is empty or some entry had the other setting |
| CliEdits.ToggleAllCanInventAChange | src/ebbflow.rs:595-599 | setting an endpoint to what it is already reports a change |
| CliEdits.RemovalUndoesAddition | src/ebbflow.rs:634-797 | remove undoes add, and ssh removal undoes ssh setup, iff the name or ssh was absent before |
| CliEdits.TogglingBackRestores | src/ebbflow.rs:579-605 | switching there and back restores the config iff every targeted entry had the other setting |
| CliEdits.ToggleDisturbsOnlyItsTarget | src/ebbflow.rs:579-605 | toggling one endpoint leaves every other running instance of the daemon alone |
| Messaging.ToWireMessage | src/messaging.rs:35-45 | encoding fails exactly if the payload cannot be written; otherwise the first word is the length of the rest modulo 2^32, the second the number of the message, and the rest decodes to the message |
| Messaging.WireLayout | src/messaging.rs:35-103 | byte by byte, most significant first: the length, the number 1 to 8 of the message's kind, and the payload, which three kinds do not have |
| Messaging.DecodeByNumber | src/messaging.rs:48-75 | for every input: below four bytes a parse error, a number other than 1 to 8 unknown, 2, 5 and 7 bare messages, else what the codec makes of the rest; a message is of the kind its number says |
| Messaging.DecodeEncode | src/messaging.rs:48-103 | decoding an encoding without its length gives back the message |
| Messaging.HeaderIsTrueIff | src/messaging.rs:38-40 | the 32-bit length word equals the real length iff that is below 4 GiB |
| Messaging.LongFramesMislead | src/messaging.rs:38-40 | under a faithful codec a Hello with a key of 4 GiB is announced as an empty payload and has the Hello without a key as a proper prefix |
| Messaging.ByteStream.AwaitMessage | src/daemon/connection.rs:295-309 | the reader returns the first frame of the stream and uses exactly its bytes |
| Messaging.FrameRoundTrip | src/daemon/connection.rs:300-304 | a frame of any length is read back as the message iff it is within 200 KiB; a larger one below 4 GiB is rejected |
| Messaging.FrameOfPrefix | src/daemon/connection.rs:295-309 | any prefix of an encoding leaves the reader waiting until the last byte, then yields exactly the message |
| Messaging.StreamRoundTrip | src/messaging.rs:31-103 | repeated reading of concatenated encodings returns exactly the messages and leaves exactly the rest |
| Messaging.EncodingsArePrefixFree | src/messaging.rs:35-45 | an encoding that is a prefix of another equals it iff they differ by less than 4 GiB in length, so below 4 GiB none is a proper prefix of another |
| Proxy.ForwardsAPrefix | src/daemon/connection.rs:366-405 | for any chunking, interleaving, failure or abort each side is given a prefix of the other side's bytes, at most one buffer behind; end-of-file means everything was delivered |
| Proxy.ForwardsExactly | src/daemon/connection.rs:366-405 | two byte strings can have been read and two delivered on some run iff each delivered one is a prefix lacking at most one 10 KiB buffer |
| Proxy.AbortEndsAnywhere | src/daemon/connection.rs:253-264 | a running proxy can be aborted at any point, and what was delivered stays so |
| Proxy.EverythingCanArrive | src/daemon/connection.rs:366-405 | all of any two byte strings can be exchanged, ending by end-of-file |
| Proxy.CopyBytes | src/daemon/connection.rs:386-405 | the copy loop delivers every chunk before the first that is not read and written whole, and of that one what the writer took; it succeeds exactly at end-of-file, with everything delivered |
| Handshake.HandshakeGrammar | src/daemon/connection.rs:156-239 | on every run the client's bytes are a prefix of Hello+negative reply or Hello+positive reply+local bytes; replies and proxying only after an issue-free HelloResponse and StartTraffic; the local server gets a prefix of exactly what follows those frames |
| Handshake.EndingsAreTrue | src/daemon/connection.rs:156-239 | on every run a connection ends for the reason it gives: refused, unexpected and malformed only if such a message came, shut down only after the greeting, local failure only with the negative reply sent in full, finished only with greeting, positive reply and the local bytes sent |
| HandshakeRuns.MessagesDecide | src/daemon/connection.rs:173-205 | a client awaiting a message that has arrived can take it, and the message alone decides: onward for an issue-free response and then StartTraffic, refused for a response with an issue, unexpected for any other |
| HandshakeRuns.FirstMessageDecides | src/daemon/connection.rs:173-187 | if the first message is not an issue-free response the client never replies, and can end on that message only as it deserves |
| HandshakeRuns.SecondMessageDecides | src/daemon/connection.rs:189-205 | likewise if the second is not StartTraffic |
| HandshakeRuns.OversizeEndsIt | src/daemon/connection.rs:300-304 | a length word above 200 KiB ends the connection as malformed |
| HandshakeRuns.HandshakeSucceeds | src/daemon/connection.rs:156-239 | with a peer that keeps to the protocol the client can reach the proxy, having sent exactly Hello and the positive reply and used exactly the two frames |
| HandshakeRuns.LocalFailureIsReported | src/daemon/connection.rs:227-236 | it can fail locally with exactly Hello and the negative reply sent |
| HandshakeRuns.WaitsCanEnd | src/daemon/connection.rs:79-83 | every reachable wait up to the start of traffic can end by an error or the idle limit, and the wait for traffic by the stop signal, with nothing more sent |
| HandshakeRuns.ProxyRunsFreely | src/daemon/connection.rs:241-277 | every run of the proxy alone on the bytes the peer sends is a run of the connection |
| HandshakeRuns.FullExchange | src/daemon/connection.rs:156-277 | whatever follows the handshake and whatever the local server gives can arrive whole, the client having sent exactly Hello, the positive reply and the local bytes |
| Handshake.StepKeepsOut | src/daemon/connection.rs:168-239 | every step keeps the output grammar, partial writes included |
| Handshake.StepKeepsIn | src/daemon/connection.rs:173-205 | every step keeps the account of which input bytes were handshake frames and which were forwarded |
| Handshake.PeerIsNeverSurprised | tests/mockebb.rs:42-124 | the mock peer's first read waits or yields Hello, its second waits or yields the client's reply |
| Handshake.MockPeerIsUnderstood | tests/mockebb.rs:57-109 | with a peer that keeps to the mock's script the client never ends on an unexpected, refused or malformed message |

## Left out

- TLS, TCP, DNS, certificates and the choice of address: connects succeed, fail or time out nondeterministically.
- The bytes of CBOR and YAML: payload codec and parser are parameters.
- Torn file reads: a reader never sees half of one write.
- Deletion of the configuration or key file, which the watcher ignores.
- Panics, process exit and operating system errors in the command line client: a command that exits did not happen; the OS hostname is a constant.
- Overflow of the 64-bit connection counters upwards.
- The overflow check of debug builds on the length word: it wraps, as in release builds.
- The priority of `select`: where both futures are ready the model lets either win, so every real run is included.
- An update of the endpoint tables is one step of the composed daemon; the source holds the runner's lock throughout.
- The status report beyond its two counters, the message log, the info server, log levels, CLI parsing and printing, key creation: single-branch code and user interface.
- The contents of Hello (key, kind and name of the endpoint): a parameter of the handshake.
- The order of addresses tried for the local connection: `connect_local` is a nondeterministic outcome.
