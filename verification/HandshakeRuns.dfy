/** What a connection can do, and what each message of Ebbflow makes it do: with a peer that keeps to
    the protocol it reaches the proxy and can exchange everything; any other first or second message
    ends it, with the reason that message deserves. */
module HandshakeRuns {
  import opened Wrappers
  import opened Messaging
  import opened Handshake
  import Proxy

  lemma {:induction false} RunConcat(c: Codec, hello: HelloV0, s: State, a: seq<Step>, b: seq<Step>)
    requires Valid(c, hello, s, a) && Valid(c, hello, Run(c, hello, s, a), b)
    ensures Valid(c, hello, s, a + b)
    ensures Run(c, hello, s, a + b) == Run(c, hello, Run(c, hello, s, a), b)
    decreases |a|
  {
    if a == [] {
      assert a + b == b;
    } else {
      assert (a + b)[1..] == a[1..] + b;
      RunConcat(c, hello, Apply(c, hello, s, a[0]), a[1..], b);
    }
  }

  lemma Then(c: Codec, hello: HelloV0, s: State, steps: seq<Step>, step: Step) returns (longer: seq<Step>)
    requires Valid(c, hello, s, steps) && Enabled(c, Run(c, hello, s, steps), step)
    ensures Valid(c, hello, s, longer)
    ensures Run(c, hello, s, longer) == Apply(c, hello, Run(c, hello, s, steps), step)
  {
    longer := steps + [step];
    assert Valid(c, hello, Run(c, hello, s, steps), [step]);
    RunConcat(c, hello, s, steps, [step]);
  }

  // ---------------------------------------------------------------- each message decides

  /** What the message that answers Hello must lead to. */
  predicate DecidesFirst(m: Message, pc: Pc) {
    match m
    case HelloResponse(None) => pc == AwaitingTraffic
    case HelloResponse(Some(issue)) => pc == Over(Refused(issue))
    case _ => pc == Over(UnexpectedMessage)
  }

  /** And what the one after it must lead to. */
  predicate DecidesSecond(m: Message, pc: Pc) {
    if m == StartTraffic then pc == ConnectingLocal else pc == Over(UnexpectedMessage)
  }

  /** In every reachable state in which the client awaits a message and has been sent one within the
      safeguard, it can take it, and the message alone decides how the connection goes on. */
  lemma MessagesDecide(c: Codec, hello: HelloV0, steps: seq<Step>, m: Message, b: Bytes, rest: Bytes)
    requires Faithful(c) && Valid(c, hello, Init(), steps)
    requires Encodes(c, m, b) && |b| - 4 <= 204_800
    requires var s := Run(c, hello, Init(), steps); s.consumed <= |s.input| && s.input[s.consumed..] == b + rest
    ensures var s := Run(c, hello, Init(), steps);
            s.pc.AwaitingHelloResponse? || s.pc.AwaitingTraffic? ==>
              && Enabled(c, s, Receive)
              && var s' := Apply(c, hello, s, Receive);
                 && (s.pc.AwaitingHelloResponse? ==> DecidesFirst(m, s'.pc))
                 && (s.pc.AwaitingTraffic? ==> DecidesSecond(m, s'.pc))
                 && (!s'.pc.Over? ==> s'.consumed == s.consumed + |b|)
                 && s'.output == s.output && s'.input == s.input
  {
    FrameRoundTrip(c, m, b, rest);
  }

  /** A frame above the safeguard ends the connection at its length word, wherever it is awaited. */
  lemma OversizeEndsIt(c: Codec, hello: HelloV0, s: State)
    requires s.pc.AwaitingHelloResponse? || s.pc.AwaitingTraffic?
    requires s.consumed + 4 <= |s.input| && WordAt(s.input, s.consumed) > 204_800
    ensures Enabled(c, s, Receive) && Apply(c, hello, s, Receive).pc == Over(BadMessage)
  {
    var tail := s.input[s.consumed..];
    assert tail[..4] == [tail[0], tail[1], tail[2], tail[3]];
  }

  /** A connection whose first message is not an issue-free response: it never replies, never sends
      more than its greeting, and if it ends by that message then as the message deserves. */
  lemma FirstMessageDecides(c: Codec, hello: HelloV0, steps: seq<Step>, m: Message, b: Bytes, rest: Bytes)
    requires Faithful(c) && ClientEncodes(c, hello) && Valid(c, hello, Init(), steps)
    requires Encodes(c, m, b) && |b| - 4 <= 204_800 && m != HelloResponse(None)
    requires Run(c, hello, Init(), steps).input == b + rest
    ensures var s := Run(c, hello, Init(), steps);
            && s.reply.None? && s.output <= Wire(c, Hello(hello)) && s.duplex == Proxy.NewDuplex()
            && (s.pc.Over? ==> s.pc.why.IoFailed? || s.pc.why.TimedOut? || DecidesFirst(m, s.pc))
            && (s.pc.Over? || s.pc.Connecting? || s.pc.SendingHello? || s.pc.AwaitingHelloResponse?)
  {
    RunFromInit(c, hello, steps);
    EndingsAreTrue(c, hello, steps);
    HandshakeGrammar(c, hello, steps);
    FrameRoundTrip(c, m, b, rest);
  }

  /** And one whose second message is not the start of traffic. */
  lemma SecondMessageDecides(c: Codec, hello: HelloV0, steps: seq<Step>, m: Message, b: Bytes, rest: Bytes)
    requires Faithful(c) && ClientEncodes(c, hello) && PeerEncodes(c) && Valid(c, hello, Init(), steps)
    requires Encodes(c, m, b) && |b| - 4 <= 204_800 && m != StartTraffic
    requires Run(c, hello, Init(), steps).input == Wire(c, HelloResponse(None)) + (b + rest)
    ensures var s := Run(c, hello, Init(), steps);
            && s.reply.None? && s.output <= Wire(c, Hello(hello)) && s.duplex == Proxy.NewDuplex()
            && (s.pc.Over? ==>
                  s.pc.why.IoFailed? || s.pc.why.TimedOut? || s.pc.why.Shutdown? || DecidesSecond(m, s.pc))
            && !s.pc.ConnectingLocal?
  {
    RunFromInit(c, hello, steps);
    EndingsAreTrue(c, hello, steps);
    HandshakeGrammar(c, hello, steps);
    var first := Wire(c, HelloResponse(None));
    FrameRoundTrip(c, HelloResponse(None), first, b + rest);
    FrameRoundTrip(c, m, b, rest);
    assert (first + (b + rest))[|first|..] == b + rest;
  }

  // ---------------------------------------------------------------- the handshake succeeds

  /** The client has read both frames and is about to connect locally. */
  function AtLocal(c: Codec, hello: HelloV0, data: Bytes): State {
    var first := Wire(c, HelloResponse(None));
    State(ConnectingLocal, PeerScript(c) + data, |PeerScript(c)|, Wire(c, Hello(hello)),
          |first|, |PeerScript(c)|, None, Proxy.NewDuplex())
  }

  lemma Greet(c: Codec, hello: HelloV0, data: Bytes) returns (steps: seq<Step>)
    requires ClientEncodes(c, hello)
    ensures Valid(c, hello, Init(), steps)
    ensures Run(c, hello, Init(), steps)
         == Init().(pc := AwaitingHelloResponse, input := PeerScript(c) + data, output := Wire(c, Hello(hello)))
  {
    var h := Wire(c, Hello(hello));
    steps := Then(c, hello, Init(), [], PeerSends(PeerScript(c) + data));
    steps := Then(c, hello, Init(), steps, Connected);
    steps := Then(c, hello, Init(), steps, WriteSome(|h|));
    assert h[..|h|] == h && [] + h == h;
  }

  lemma BothFrames(c: Codec, data: Bytes)
    requires Faithful(c) && PeerEncodes(c)
    ensures var first, input := Wire(c, HelloResponse(None)), PeerScript(c) + data;
            && |first| <= |PeerScript(c)|
            && FirstFrame(c, input[0..], MESSAGE_LIMIT) == Got(HelloResponse(None), |first|)
            && FirstFrame(c, input[|first|..], MESSAGE_LIMIT) == Got(StartTraffic, |PeerScript(c)| - |first|)
  {
    var first, second := Wire(c, HelloResponse(None)), Wire(c, StartTraffic);
    var input := PeerScript(c) + data;
    assert input[0..] == first + (second + data);
    assert input[|first|..] == second + data;
    FrameRoundTrip(c, HelloResponse(None), first, second + data);
    FrameRoundTrip(c, StartTraffic, second, data);
  }

  /** With a peer that keeps to the script the client gets as far as the local connect. */
  lemma ReachLocal(c: Codec, hello: HelloV0, data: Bytes) returns (steps: seq<Step>)
    requires Faithful(c) && ClientEncodes(c, hello) && PeerEncodes(c)
    ensures Valid(c, hello, Init(), steps) && Run(c, hello, Init(), steps) == AtLocal(c, hello, data)
  {
    steps := Greet(c, hello, data);
    BothFrames(c, data);
    steps := Then(c, hello, Init(), steps, Receive);
    steps := Then(c, hello, Init(), steps, Receive);
  }

  /** The handshake can succeed: once the peer's input is the script followed by anything, there is a
      run on which the client proxies, having sent exactly its greeting and the positive reply and used
      exactly the script. */
  lemma HandshakeSucceeds(c: Codec, hello: HelloV0, data: Bytes) returns (steps: seq<Step>)
    requires Faithful(c) && ClientEncodes(c, hello) && PeerEncodes(c)
    ensures Valid(c, hello, Init(), steps)
    ensures var s := Run(c, hello, Init(), steps);
            && s.pc.Proxying? && s.input == PeerScript(c) + data
            && s.consumed == s.started == |PeerScript(c)| && s.duplex == Proxy.NewDuplex()
            && s.output == Wire(c, Hello(hello)) + Wire(c, StartTrafficResponse(true))
  {
    var yes := Wire(c, StartTrafficResponse(true));
    steps := ReachLocal(c, hello, data);
    steps := Then(c, hello, Init(), steps, LocalUp);
    steps := Then(c, hello, Init(), steps, WriteSome(|yes|));
    assert yes[..|yes|] == yes;
  }

  /** And it can fail at the local server, with the negative reply sent in full. */
  lemma LocalFailureIsReported(c: Codec, hello: HelloV0, data: Bytes) returns (steps: seq<Step>)
    requires Faithful(c) && ClientEncodes(c, hello) && PeerEncodes(c)
    ensures Valid(c, hello, Init(), steps)
    ensures var s := Run(c, hello, Init(), steps);
            && s.pc == Over(LocalFailed)
            && s.output == Wire(c, Hello(hello)) + Wire(c, StartTrafficResponse(false))
  {
    var no := Wire(c, StartTrafficResponse(false));
    steps := ReachLocal(c, hello, data);
    steps := Then(c, hello, Init(), steps, LocalDown);
    steps := Then(c, hello, Init(), steps, WriteSome(|no|));
    assert no[..|no|] == no;
  }

  /** Every reachable wait can be cut short: up to the start of traffic by an error or the idle limit,
      and while waiting for traffic by the stop signal. */
  lemma WaitsCanEnd(c: Codec, hello: HelloV0, steps: seq<Step>, why: Why) returns (longer: seq<Step>)
    requires Valid(c, hello, Init(), steps)
    requires var pc := Run(c, hello, Init(), steps).pc;
             !pc.Over? && !pc.ConnectingLocal? && !pc.SendingReply? && !pc.Proxying?
    requires why.IoFailed? || why.TimedOut? || (why.Shutdown? && Run(c, hello, Init(), steps).pc.AwaitingTraffic?)
    ensures Valid(c, hello, Init(), longer) && Run(c, hello, Init(), longer).pc == Over(why)
    ensures Run(c, hello, Init(), longer).output == Run(c, hello, Init(), steps).output
  {
    longer := Then(c, hello, Init(), steps, Quit(why));
  }

  // ---------------------------------------------------------------- a full exchange

  function Forwards(steps: seq<Proxy.DuplexStep>): seq<Step> {
    seq(|steps|, k requires 0 <= k < |steps| => Forward(steps[k]))
  }

  lemma {:induction false} ReadsGrow(p: Proxy.Duplex, steps: seq<Proxy.DuplexStep>)
    requires Proxy.ValidRun(p, steps)
    ensures p.down.read <= Proxy.RunAll(p, steps).down.read
    decreases |steps|
  {
    if steps != [] {
      ReadsGrow(Proxy.Stepped(p, steps[0]), steps[1..]);
    }
  }

  /** What has been read for the local server is what came after the handshake. */
  predicate InStep(s: State) {
    && s.started <= s.consumed <= |s.input|
    && s.duplex.down.read == s.input[s.started..s.consumed]
    && (s.pc.Proxying? || !s.duplex.running)
  }

  lemma ForwardStaysInStep(c: Codec, hello: HelloV0, s: State, d: Proxy.DuplexStep)
    requires InStep(s) && Proxy.CanStep(s.duplex, d)
    requires Proxy.Stepped(s.duplex, d).down.read <= s.input[s.started..]
    ensures Enabled(c, s, Forward(d)) && InStep(Apply(c, hello, s, Forward(d)))
    ensures Apply(c, hello, s, Forward(d)).duplex == Proxy.Stepped(s.duplex, d)
    ensures Apply(c, hello, s, Forward(d)).input == s.input && Apply(c, hello, s, Forward(d)).started == s.started
  {
    if d.Down? && d.step.Read? {
      var read, data := s.duplex.down.read, d.step.data;
      assert (read + data)[|read|..] == data;
      assert s.input[s.started..][..|read + data|] == read + data;
      assert s.input[s.consumed..s.consumed + |data|] == data;
    }
  }

  /** The proxy runs inside the connection as it runs alone, on the bytes the peer sends. */
  lemma {:induction false} ProxyRunsFreely(c: Codec, hello: HelloV0, s: State, steps: seq<Proxy.DuplexStep>)
    requires InStep(s) && Proxy.ValidRun(s.duplex, steps)
    requires Proxy.RunAll(s.duplex, steps).down.read <= s.input[s.started..]
    ensures Valid(c, hello, s, Forwards(steps))
    ensures Run(c, hello, s, Forwards(steps)).duplex == Proxy.RunAll(s.duplex, steps)
    ensures InStep(Run(c, hello, s, Forwards(steps)))
    ensures Run(c, hello, s, Forwards(steps)).input == s.input
    decreases |steps|
  {
    if steps != [] {
      ReadsGrow(Proxy.Stepped(s.duplex, steps[0]), steps[1..]);
      ForwardStaysInStep(c, hello, s, steps[0]);
      assert Forwards(steps)[1..] == Forwards(steps[1..]);
      ProxyRunsFreely(c, hello, Apply(c, hello, s, Forward(steps[0])), steps[1..]);
    }
  }

  /** A full exchange: whatever Ebbflow sends after the script and whatever the local server gives,
      there is a run on which both arrive whole and the connection ends, the client having sent exactly
      its greeting, the positive reply and the local server's bytes. */
  lemma FullExchange(c: Codec, hello: HelloV0, local: Bytes, data: Bytes) returns (steps: seq<Step>)
    requires Faithful(c) && ClientEncodes(c, hello) && PeerEncodes(c)
    ensures Valid(c, hello, Init(), steps)
    ensures var s := Run(c, hello, Init(), steps);
            && s.pc == Over(Finished) && s.input == PeerScript(c) + data
            && s.duplex.down.delivered == data
            && s.output == Wire(c, Hello(hello)) + Wire(c, StartTrafficResponse(true)) + local
  {
    var open := HandshakeSucceeds(c, hello, data);
    var s := Run(c, hello, Init(), open);
    var exchange := Proxy.EverythingCanArrive(local, data);
    assert s.input[s.started..] == data;
    ProxyRunsFreely(c, hello, s, exchange);
    RunConcat(c, hello, Init(), open, Forwards(exchange));
    steps := open + Forwards(exchange);
    RunFromInit(c, hello, steps);
    EndingsAreTrue(c, hello, steps);
    ForwardsFinish(c, hello, s, exchange);
  }

  lemma {:induction false} ForwardsFinish(c: Codec, hello: HelloV0, s: State, steps: seq<Proxy.DuplexStep>)
    requires Valid(c, hello, s, Forwards(steps))
    requires s.pc == if s.duplex.running then Proxying else Over(Finished)
    ensures var t := Run(c, hello, s, Forwards(steps)); t.pc == if t.duplex.running then Proxying else Over(Finished)
    decreases |steps|
  {
    if steps != [] {
      assert Forwards(steps)[1..] == Forwards(steps[1..]);
      ForwardsFinish(c, hello, Apply(c, hello, s, Forward(steps[0])), steps[1..]);
    }
  }
}
