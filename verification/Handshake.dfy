/** One connection to Ebbflow from the client's side, byte by byte: say hello, await the response,
    await the start of traffic, connect locally, reply, and proxy. Bytes from Ebbflow arrive in any
    pieces at any time; writes are accepted in any pieces; errors, timeouts and the stop signal can
    end the connection at any point. */
module Handshake {
  import opened Wrappers
  import opened Messaging
  import opened Proxy

  datatype Why =
    | IoFailed
    | TimedOut
    | Shutdown
    | Refused(issue: HelloResponseIssue)
    | UnexpectedMessage
    | BadMessage
    | LocalFailed
    | Finished

  datatype Pc =
    | Connecting
    | SendingHello(pending: Bytes)
    | AwaitingHelloResponse
    | AwaitingTraffic
    | ConnectingLocal
    | SendingReply(ready: bool, pending: Bytes)
    | Proxying
    | Over(why: Why)

  /** `input` is all that Ebbflow has sent and `output` all that the stream accepted from the client.
      `greeted` and `started` mark where the two handshake frames end in the input, and `reply` is
      the answer the client chose to give. */
  datatype State = State(
    pc: Pc, input: Bytes, consumed: nat, output: Bytes, greeted: nat, started: nat,
    reply: Option<bool>, duplex: Duplex)

  datatype Step =
    | PeerSends(data: Bytes)
    | Connected
    | WriteSome(n: nat)
    | Receive
    | LocalUp
    | LocalDown
    | Forward(step: DuplexStep)
    | Quit(why: Why)

  function Init(): State {
    State(Connecting, [], 0, [], 0, 0, None, NewDuplex())
  }

  function NextFrame(c: Codec, s: State): Frame
    requires s.consumed <= |s.input|
  {
    FirstFrame(c, s.input[s.consumed..], MESSAGE_LIMIT)
  }

  /** Every read and write can fail, the idle limit covers everything up to the start of traffic, and
      only that wait is raced against the stop signal. While proxying, failure and stop are the
      duplex's own. */
  predicate CanQuit(pc: Pc, why: Why) {
    match why
    case IoFailed => pc.Connecting? || pc.SendingHello? || pc.AwaitingHelloResponse? || pc.AwaitingTraffic? || pc.SendingReply?
    case TimedOut => pc.Connecting? || pc.SendingHello? || pc.AwaitingHelloResponse? || pc.AwaitingTraffic?
    case Shutdown => pc.AwaitingTraffic?
    case _ => false
  }

  predicate Enabled(c: Codec, s: State, step: Step) {
    match step
    case PeerSends(_) => true
    case Connected => s.pc.Connecting?
    case WriteSome(n) => (s.pc.SendingHello? || s.pc.SendingReply?) && n <= |s.pc.pending|
    case Receive =>
      && (s.pc.AwaitingHelloResponse? || s.pc.AwaitingTraffic?)
      && s.consumed <= |s.input|
      && !NextFrame(c, s).Starved?
    case LocalUp => s.pc.ConnectingLocal?
    case LocalDown => s.pc.ConnectingLocal?
    case Forward(d) =>
      && s.pc.Proxying?
      && CanStep(s.duplex, d)
      && (d.Down? && d.step.Read? ==>
            && s.consumed + |d.step.data| <= |s.input|
            && d.step.data == s.input[s.consumed..s.consumed + |d.step.data|])
    case Quit(why) => CanQuit(s.pc, why)
  }

  /** Start sending a message, or give up if it cannot be encoded. */
  function Sending(c: Codec, m: Message, next: Bytes -> Pc): Pc {
    match Encode(c, m)
    case Ok(b) => next(b)
    case Err(_) => Over(BadMessage)
  }

  function Received(c: Codec, s: State, f: Frame): State
    requires !f.Starved?
  {
    match f
    case Rejected(_, used) => s.(pc := Over(BadMessage))
    case Got(m, used) =>
      if s.pc.AwaitingHelloResponse? then
        (match m
         case HelloResponse(Some(issue)) => s.(pc := Over(Refused(issue)))
         case HelloResponse(None) =>
           s.(pc := AwaitingTraffic, consumed := s.consumed + used, greeted := s.consumed + used)
         case _ => s.(pc := Over(UnexpectedMessage)))
      else if m.StartTraffic? then
        s.(pc := ConnectingLocal, consumed := s.consumed + used, started := s.consumed + used)
      else s.(pc := Over(UnexpectedMessage))
  }

  function Apply(c: Codec, hello: HelloV0, s: State, step: Step): State
    requires Enabled(c, s, step)
  {
    match step
    case PeerSends(data) => s.(input := s.input + data)
    case Connected => s.(pc := Sending(c, Hello(hello), b => SendingHello(b)))
    case WriteSome(n) =>
      var rest := s.pc.pending[n..];
      s.(output := s.output + s.pc.pending[..n],
         pc := if s.pc.SendingHello? then (if rest == [] then AwaitingHelloResponse else SendingHello(rest))
               else if rest != [] then SendingReply(s.pc.ready, rest)
               else if s.pc.ready then Proxying
               else Over(LocalFailed))
    case Receive => Received(c, s, NextFrame(c, s))
    case LocalUp =>
      s.(reply := Some(true), pc := Sending(c, StartTrafficResponse(true), b => SendingReply(true, b)))
    case LocalDown =>
      s.(reply := Some(false), pc := Sending(c, StartTrafficResponse(false), b => SendingReply(false, b)))
    case Forward(d) =>
      s.(duplex := Stepped(s.duplex, d),
         consumed := s.consumed + (if d.Down? && d.step.Read? then |d.step.data| else 0),
         output := s.output + (if d.Up? && d.step.Write? then s.duplex.up.buffer[..d.step.n] else []),
         pc := if d.Finish? || d.Abort? then Over(Finished) else s.pc)
    case Quit(why) => s.(pc := Over(why))
  }

  predicate Valid(c: Codec, hello: HelloV0, s: State, steps: seq<Step>)
    decreases |steps|
  {
    steps == [] || (Enabled(c, s, steps[0]) && Valid(c, hello, Apply(c, hello, s, steps[0]), steps[1..]))
  }

  function Run(c: Codec, hello: HelloV0, s: State, steps: seq<Step>): State
    requires Valid(c, hello, s, steps)
    decreases |steps|
  {
    if steps == [] then s else Run(c, hello, Apply(c, hello, s, steps[0]), steps[1..])
  }

  // ---------------------------------------------------------------- what the client sends

  /** The bytes of a message, or nothing if it has no encoding. */
  function Wire(c: Codec, m: Message): Bytes {
    if Encode(c, m).Ok? then Encode(c, m).value else []
  }

  /** The three byte strings a client can send of its own. */
  datatype Lines = Lines(hello: Bytes, yes: Bytes, no: Bytes) {
    function Reply(ready: bool): Bytes {
      if ready then yes else no
    }
  }

  function LinesOf(c: Codec, hello: HelloV0): Lines {
    Lines(Wire(c, Hello(hello)), Wire(c, StartTrafficResponse(true)), Wire(c, StartTrafficResponse(false)))
  }

  /** The client's bytes: a prefix of Hello, then possibly a prefix of one reply, then, after a
      complete positive reply, local bytes in order. */
  predicate Grammar(l: Lines, s: State) {
    match s.reply
    case None => s.output <= l.hello
    case Some(r) =>
      if s.duplex.up.read == [] then s.output <= l.hello + l.Reply(r)
      else r && s.output == l.hello + l.yes + s.duplex.up.delivered
  }

  predicate OutInv(l: Lines, s: State) {
    && CopyOk(s.duplex.up)
    && (s.duplex.up == NewCopy() || s.pc.Proxying? || s.pc.Over?)
    && match s.pc
       case Connecting => s.reply.None? && s.output == []
       case SendingHello(p) => s.reply.None? && s.output + p == l.hello
       case SendingReply(r, p) => s.reply == Some(r) && s.output + p == l.hello + l.Reply(r)
       case Proxying => s.reply == Some(true) && s.output == l.hello + l.yes + s.duplex.up.delivered
       case Over(_) => Grammar(l, s)
       case _ => s.reply.None? && s.output == l.hello
  }

  lemma OutInvMeansGrammar(l: Lines, s: State)
    requires OutInv(l, s)
    ensures Grammar(l, s)
  {
  }

  lemma WriteKeepsOut(c: Codec, hello: HelloV0, l: Lines, s: State, n: nat)
    requires OutInv(l, s) && Enabled(c, s, WriteSome(n))
    ensures OutInv(l, Apply(c, hello, s, WriteSome(n)))
  {
    var pending := s.pc.pending;
    assert s.output + pending == s.output + pending[..n] + pending[n..];
    if pending[n..] == [] {
      assert s.output + pending[..n] == s.output + pending;
    }
  }

  lemma ForwardKeepsOut(c: Codec, hello: HelloV0, l: Lines, s: State, d: DuplexStep)
    requires OutInv(l, s) && Enabled(c, s, Forward(d))
    ensures OutInv(l, Apply(c, hello, s, Forward(d)))
  {
    var s' := Apply(c, hello, s, Forward(d));
    if d.Up? {
      CopyStepKeepsOk(s.duplex.up, d.step);
    }
    assert s'.output == l.hello + l.yes + s'.duplex.up.delivered;
    if s'.duplex.up.read == [] {
      assert s'.duplex.up.delivered == [];
      assert s'.output == l.hello + l.yes;
    }
  }

  lemma StepKeepsOut(c: Codec, hello: HelloV0, s: State, step: Step)
    requires OutInv(LinesOf(c, hello), s) && Enabled(c, s, step)
    ensures OutInv(LinesOf(c, hello), Apply(c, hello, s, step))
  {
    var l := LinesOf(c, hello);
    match step
    case WriteSome(n) => WriteKeepsOut(c, hello, l, s, n);
    case Forward(d) => ForwardKeepsOut(c, hello, l, s, d);
    case Quit(_) => OutInvMeansGrammar(l, s);
    case LocalUp => assert s.output + l.yes == l.hello + l.yes;
    case LocalDown => assert s.output + l.no == l.hello + l.no;
    case _ =>
  }

  // ---------------------------------------------------------------- what the client has received

  /** An issue-free HelloResponse came first and ended at `greeted`. */
  predicate Greeted(c: Codec, input: Bytes, greeted: nat) {
    && greeted <= |input|
    && FirstFrame(c, input, MESSAGE_LIMIT) == Got(HelloResponse(None), greeted)
  }

  /** And StartTraffic came right after it and ended at `started`. */
  predicate Opened(c: Codec, input: Bytes, greeted: nat, started: nat) {
    && Greeted(c, input, greeted)
    && greeted <= started <= |input|
    && FirstFrame(c, input[greeted..], MESSAGE_LIMIT) == Got(StartTraffic, started - greeted)
  }

  /** What was read for the local server is what Ebbflow sent after the handshake. */
  predicate DownOk(s: State) {
    && s.started + |s.duplex.down.read| <= |s.input|
    && s.duplex.down.read == s.input[s.started..s.started + |s.duplex.down.read|]
    && CopyOk(s.duplex.down)
  }

  predicate InInv(c: Codec, s: State) {
    && s.consumed <= |s.input|
    && (s.reply.Some? ==> Opened(c, s.input, s.greeted, s.started) && DownOk(s))
    && (s.reply.None? ==> s.duplex == NewDuplex())
    && match s.pc
       case AwaitingTraffic => s.reply.None? && Greeted(c, s.input, s.greeted) && s.consumed == s.greeted
       case ConnectingLocal => s.reply.None? && Opened(c, s.input, s.greeted, s.started) && s.consumed == s.started
       case SendingReply(r, _) => s.reply == Some(r) && s.consumed == s.started && s.duplex == NewDuplex()
       case Proxying => s.reply.Some? && s.consumed == s.started + |s.duplex.down.read|
       case Over(_) => true
       case _ => s.reply.None? && s.consumed == 0
  }

  lemma MarksAreStable(c: Codec, input: Bytes, greeted: nat, started: nat, data: Bytes)
    ensures Greeted(c, input, greeted) ==> Greeted(c, input + data, greeted)
    ensures Opened(c, input, greeted, started) ==> Opened(c, input + data, greeted, started)
  {
    if Greeted(c, input, greeted) {
      FrameIsStable(c, input, data, MESSAGE_LIMIT);
    }
    if Opened(c, input, greeted, started) {
      assert (input + data)[greeted..] == input[greeted..] + data;
      FrameIsStable(c, input[greeted..], data, MESSAGE_LIMIT);
    }
  }

  lemma SendsKeepsIn(c: Codec, s: State, data: Bytes)
    requires InInv(c, s)
    ensures InInv(c, s.(input := s.input + data))
  {
    MarksAreStable(c, s.input, s.greeted, s.started, data);
    if DownOk(s) {
      var till := s.started + |s.duplex.down.read|;
      assert (s.input + data)[s.started..till] == s.input[s.started..till];
    }
  }

  /** What the first read leaves behind, with the frame it saw as `f`. */
  lemma GreetingKeepsIn(c: Codec, s: State, f: Frame)
    requires InInv(c, s) && s.pc.AwaitingHelloResponse?
    requires f == FirstFrame(c, s.input, MESSAGE_LIMIT) && !f.Starved?
    ensures InInv(c, Received(c, s, f))
  {
  }

  lemma OpeningKeepsIn(c: Codec, s: State, f: Frame)
    requires InInv(c, s) && s.pc.AwaitingTraffic?
    requires f == FirstFrame(c, s.input[s.greeted..], MESSAGE_LIMIT) && !f.Starved?
    ensures InInv(c, Received(c, s, f))
  {
  }

  lemma ReceiveKeepsIn(c: Codec, hello: HelloV0, s: State)
    requires InInv(c, s) && Enabled(c, s, Receive)
    ensures InInv(c, Apply(c, hello, s, Receive))
  {
    if s.pc.AwaitingHelloResponse? {
      assert s.input[0..] == s.input;
      GreetingKeepsIn(c, s, NextFrame(c, s));
    } else {
      OpeningKeepsIn(c, s, NextFrame(c, s));
    }
  }

  lemma DownStaysOk(s: State, step: CopyStep, consumed: nat, s': State)
    requires DownOk(s) && CanCopy(s.duplex.down, step) && s.consumed == s.started + |s.duplex.down.read|
    requires if step.Read?
             then consumed == s.consumed + |step.data| <= |s.input| && step.data == s.input[s.consumed..consumed]
             else consumed == s.consumed
    requires s'.input == s.input && s'.started == s.started && s'.duplex.down == Copied(s.duplex.down, step)
    ensures DownOk(s') && consumed == s'.started + |s'.duplex.down.read|
  {
    CopyStepKeepsOk(s.duplex.down, step);
    if step.Read? {
      assert s.input[s.started..consumed] == s.input[s.started..s.consumed] + s.input[s.consumed..consumed];
    }
  }

  lemma DownKeepsIn(c: Codec, hello: HelloV0, s: State, step: CopyStep)
    requires InInv(c, s) && Enabled(c, s, Forward(Down(step)))
    ensures InInv(c, Apply(c, hello, s, Forward(Down(step))))
  {
    var s' := Apply(c, hello, s, Forward(Down(step)));
    DownStaysOk(s, step, s'.consumed, s');
  }

  lemma OtherForwardKeepsIn(c: Codec, hello: HelloV0, s: State, d: DuplexStep)
    requires InInv(c, s) && Enabled(c, s, Forward(d)) && !d.Down?
    ensures InInv(c, Apply(c, hello, s, Forward(d)))
  {
  }

  lemma StepKeepsIn(c: Codec, hello: HelloV0, s: State, step: Step)
    requires InInv(c, s) && Enabled(c, s, step)
    ensures InInv(c, Apply(c, hello, s, step))
  {
    match step
    case PeerSends(data) => SendsKeepsIn(c, s, data);
    case Receive => ReceiveKeepsIn(c, hello, s);
    case Forward(Down(d)) => DownKeepsIn(c, hello, s, d);
    case Forward(d) => OtherForwardKeepsIn(c, hello, s, d);
    case LocalUp => assert s.input[s.started..s.started] == [];
    case LocalDown => assert s.input[s.started..s.started] == [];
    case _ =>
  }

  // ---------------------------------------------------------------- theorems

  lemma {:induction false} RunKeepsInvs(c: Codec, hello: HelloV0, s: State, steps: seq<Step>)
    requires OutInv(LinesOf(c, hello), s) && InInv(c, s) && Valid(c, hello, s, steps)
    ensures OutInv(LinesOf(c, hello), Run(c, hello, s, steps))
    ensures InInv(c, Run(c, hello, s, steps))
    decreases |steps|
  {
    if steps != [] {
      StepKeepsOut(c, hello, s, steps[0]);
      StepKeepsIn(c, hello, s, steps[0]);
      RunKeepsInvs(c, hello, Apply(c, hello, s, steps[0]), steps[1..]);
    }
  }

  lemma RunFromInit(c: Codec, hello: HelloV0, steps: seq<Step>)
    requires Valid(c, hello, Init(), steps)
    ensures OutInv(LinesOf(c, hello), Run(c, hello, Init(), steps))
    ensures InInv(c, Run(c, hello, Init(), steps))
  {
    RunKeepsInvs(c, hello, Init(), steps);
  }

  // ---------------------------------------------------------------- why a connection ended

  predicate FirstIs(c: Codec, s: State, f: Frame) {
    f == FirstFrame(c, s.input, MESSAGE_LIMIT)
  }

  /** What Ebbflow sent second, after an issue-free response. */
  predicate SecondIs(c: Codec, s: State, f: Frame) {
    Greeted(c, s.input, s.greeted) && f == FirstFrame(c, s.input[s.greeted..], MESSAGE_LIMIT)
  }

  predicate CannotEncode(c: Codec, hello: HelloV0) {
    Encode(c, Hello(hello)).Err? || Encode(c, StartTrafficResponse(true)).Err? || Encode(c, StartTrafficResponse(false)).Err?
  }

  /** The reason a connection ended with is the true one. */
  ghost predicate EndIsTrue(c: Codec, hello: HelloV0, s: State) {
    s.pc.Over? ==>
      match s.pc.why
      case IoFailed => true
      case TimedOut => s.reply.None?
      case Shutdown => s.reply.None? && Greeted(c, s.input, s.greeted)
      case Refused(issue) => s.reply.None? && exists used: nat :: FirstIs(c, s, Got(HelloResponse(Some(issue)), used))
      case UnexpectedMessage =>
        s.reply.None? && exists m: Message, used: nat ::
          (FirstIs(c, s, Got(m, used)) && !m.HelloResponse?) || (SecondIs(c, s, Got(m, used)) && !m.StartTraffic?)
      case BadMessage =>
        CannotEncode(c, hello) ||
        exists e: MessageError, used: nat :: FirstIs(c, s, Rejected(e, used)) || SecondIs(c, s, Rejected(e, used))
      case LocalFailed => s.reply == Some(false) && s.output == LinesOf(c, hello).hello + LinesOf(c, hello).no
      case Finished =>
        && s.reply == Some(true)
        && s.output == LinesOf(c, hello).hello + LinesOf(c, hello).yes + s.duplex.up.delivered
  }

  lemma SecondIsStable(c: Codec, s: State, data: Bytes, f: Frame)
    requires !f.Starved?
    ensures FirstIs(c, s, f) ==> FirstIs(c, s.(input := s.input + data), f)
    ensures SecondIs(c, s, f) ==> SecondIs(c, s.(input := s.input + data), f)
  {
    MarksAreStable(c, s.input, s.greeted, s.started, data);
    if FirstIs(c, s, f) {
      FrameIsStable(c, s.input, data, MESSAGE_LIMIT);
    }
    if SecondIs(c, s, f) {
      assert (s.input + data)[s.greeted..] == s.input[s.greeted..] + data;
      FrameIsStable(c, s.input[s.greeted..], data, MESSAGE_LIMIT);
    }
  }

  lemma SendsKeepsEnd(c: Codec, hello: HelloV0, s: State, data: Bytes)
    requires EndIsTrue(c, hello, s)
    ensures EndIsTrue(c, hello, s.(input := s.input + data))
  {
    MarksAreStable(c, s.input, s.greeted, s.started, data);
    forall f: Frame | !f.Starved?
      ensures FirstIs(c, s, f) ==> FirstIs(c, s.(input := s.input + data), f)
      ensures SecondIs(c, s, f) ==> SecondIs(c, s.(input := s.input + data), f)
    {
      SecondIsStable(c, s, data, f);
    }
  }

  lemma ReceiveEndsTruly(c: Codec, hello: HelloV0, s: State)
    requires InInv(c, s) && Enabled(c, s, Receive)
    ensures EndIsTrue(c, hello, Apply(c, hello, s, Receive))
  {
    var f := NextFrame(c, s);
    var s' := Apply(c, hello, s, Receive);
    if s.pc.AwaitingHelloResponse? {
      assert s.input[0..] == s.input;
      assert FirstIs(c, s, f);
      assert s'.pc.Over? ==> FirstIs(c, s', f);
    } else {
      assert SecondIs(c, s, f);
      assert s'.pc.Over? ==> SecondIs(c, s', f);
    }
  }

  lemma StepKeepsEnd(c: Codec, hello: HelloV0, s: State, step: Step)
    requires OutInv(LinesOf(c, hello), s) && InInv(c, s) && EndIsTrue(c, hello, s) && Enabled(c, s, step)
    ensures EndIsTrue(c, hello, Apply(c, hello, s, step))
  {
    match step
    case PeerSends(data) => SendsKeepsEnd(c, hello, s, data);
    case Receive => ReceiveEndsTruly(c, hello, s);
    case WriteSome(n) =>
      if n == |s.pc.pending| {
        assert s.pc.pending[..n] == s.pc.pending;
      }
    case _ =>
  }

  lemma {:induction false} RunKeepsEnd(c: Codec, hello: HelloV0, s: State, steps: seq<Step>)
    requires OutInv(LinesOf(c, hello), s) && InInv(c, s) && EndIsTrue(c, hello, s) && Valid(c, hello, s, steps)
    ensures EndIsTrue(c, hello, Run(c, hello, s, steps))
    decreases |steps|
  {
    if steps != [] {
      StepKeepsEnd(c, hello, s, steps[0]);
      StepKeepsOut(c, hello, s, steps[0]);
      StepKeepsIn(c, hello, s, steps[0]);
      RunKeepsEnd(c, hello, Apply(c, hello, s, steps[0]), steps[1..]);
    }
  }

  /** Every connection ends for the reason it gives, on every run: a refusal was received first, an
      unexpected message was received where another was due, a stop came after the greeting, a failed
      local connect was reported in full, and a finished one has sent its greeting, its reply and what
      the local server gave. */
  lemma EndingsAreTrue(c: Codec, hello: HelloV0, steps: seq<Step>)
    requires Valid(c, hello, Init(), steps)
    ensures EndIsTrue(c, hello, Run(c, hello, Init(), steps))
  {
    RunKeepsEnd(c, hello, Init(), steps);
  }

  /** The longest continuation of Hello that the output can be a prefix of. */
  function Continuation(l: Lines, s: State): Bytes {
    if s.reply.Some? then l.Reply(s.reply.value) + (if s.reply.value then s.duplex.up.read else []) else []
  }

  lemma OutputIsPrefix(l: Lines, s: State)
    requires OutInv(l, s)
    ensures s.output <= l.hello + Continuation(l, s)
  {
    OutInvMeansGrammar(l, s);
    if s.reply.Some? {
      var start := l.hello + l.Reply(s.reply.value);
      assert l.hello + Continuation(l, s) == start + (if s.reply.value then s.duplex.up.read else []);
      if s.duplex.up.read != [] {
        assert start + s.duplex.up.delivered <= start + s.duplex.up.read;
      }
    }
  }

  /** Trace grammar: on every run the client's bytes are a prefix of Hello followed by a negative
      reply, or of Hello, a positive reply and the local server's bytes in order. A reply is given,
      and bytes are proxied, only if Ebbflow's input began with an issue-free HelloResponse and then
      StartTraffic; the local server is given a prefix of exactly what follows those two frames. */
  lemma HandshakeGrammar(c: Codec, hello: HelloV0, steps: seq<Step>)
    requires Valid(c, hello, Init(), steps)
    ensures var s := Run(c, hello, Init(), steps);
            var l := LinesOf(c, hello);
            && (s.output <= l.hello + l.no || s.output <= l.hello + (l.yes + s.duplex.up.read))
            && (s.reply.None? ==> s.output <= l.hello)
            && (s.pc.Proxying? || s.duplex != NewDuplex() || s.reply.Some? ==>
                  Opened(c, s.input, s.greeted, s.started) && s.duplex.down.delivered <= s.input[s.started..])
  {
    RunFromInit(c, hello, steps);
    var s := Run(c, hello, Init(), steps);
    var l := LinesOf(c, hello);
    OutputIsPrefix(l, s);
    if s.reply.Some? {
      DeliveredDown(c, s);
      assert !s.reply.value ==> Continuation(l, s) == l.no;
    } else {
      assert l.hello <= l.hello + l.no;
    }
  }

  lemma DeliveredDown(c: Codec, s: State)
    requires InInv(c, s) && s.reply.Some?
    ensures s.duplex.down.delivered <= s.input[s.started..]
  {
    var n := |s.duplex.down.read|;
    assert s.input[s.started..][..n] == s.input[s.started..s.started + n];
  }

  /** A reader without the client's safeguard, such as the mock Ebbflow of the tests. */
  function PeerFrame(c: Codec, s: Bytes): Frame {
    FirstFrame(c, s, WORD)
  }

  /** Both messages of the client can be encoded, in frames shorter than 4 GiB. */
  predicate ClientEncodes(c: Codec, hello: HelloV0) {
    && (var h := Encode(c, Hello(hello)); h.Ok? && |h.value| - 4 < WORD)
    && (forall r :: var b := Encode(c, StartTrafficResponse(r)); b.Ok? && |b.value| - 4 < WORD)
  }

  /** Nothing complete yet, or the reply the client chose. */
  predicate WaitsOrIsReply(s: State, f: Frame) {
    f.Starved? || (f.Got? && s.reply.Some? && f.message == StartTrafficResponse(s.reply.value))
  }

  /** The mock peer is never surprised: whatever the client has sent on whatever run, the peer's
      first read waits or yields Hello, and its second waits or yields the client's reply. */
  lemma PeerIsNeverSurprised(c: Codec, hello: HelloV0, steps: seq<Step>)
    requires Faithful(c) && ClientEncodes(c, hello) && Valid(c, hello, Init(), steps)
    ensures var s := Run(c, hello, Init(), steps);
            var h := Wire(c, Hello(hello));
            && (PeerFrame(c, s.output).Starved? || PeerFrame(c, s.output) == Got(Hello(hello), |h|))
            && (PeerFrame(c, s.output).Got? ==>
                  WaitsOrIsReply(s, PeerFrame(c, s.output[|h|..])))
  {
    RunFromInit(c, hello, steps);
    PeerReads(c, hello, Run(c, hello, Init(), steps));
  }

  lemma PeerReads(c: Codec, hello: HelloV0, s: State)
    requires Faithful(c) && ClientEncodes(c, hello) && OutInv(LinesOf(c, hello), s)
    ensures var h := Wire(c, Hello(hello));
            PeerFrame(c, s.output) == if |s.output| < |h| then Starved else Got(Hello(hello), |h|)
    ensures var h := Wire(c, Hello(hello));
            |s.output| >= |h| ==>
              WaitsOrIsReply(s, PeerFrame(c, s.output[|h|..]))
  {
    var l := LinesOf(c, hello);
    var rest := Continuation(l, s);
    OutputIsPrefix(l, s);
    FrameOfPrefix(c, Hello(hello), l.hello, rest, s.output, WORD);
    if |s.output| >= |l.hello| {
      SecondRead(c, l, s, s.output[|l.hello|..]);
    }
  }

  lemma SecondRead(c: Codec, l: Lines, s: State, tail: Bytes)
    requires Faithful(c) && tail <= Continuation(l, s)
    requires s.reply.Some? ==>
               && Encodes(c, StartTrafficResponse(s.reply.value), l.Reply(s.reply.value))
               && |l.Reply(s.reply.value)| - 4 < WORD
    ensures WaitsOrIsReply(s, PeerFrame(c, tail))
  {
    if s.reply.Some? {
      var r := s.reply.value;
      FrameOfPrefix(c, StartTrafficResponse(r), l.Reply(r), if r then s.duplex.up.read else [], tail, WORD);
    }
  }

  /** What the mock peer says: an issue-free response, then start of traffic, then anything. */
  function PeerScript(c: Codec): Bytes {
    Wire(c, HelloResponse(None)) + Wire(c, StartTraffic)
  }

  /** The client understands every peer that keeps to the script: it never ends on an unexpected,
      refused or malformed message. */
  ghost predicate Understood(s: State) {
    s.pc.Over? ==> !s.pc.why.UnexpectedMessage? && !s.pc.why.Refused? && !s.pc.why.BadMessage?
  }

  /** All that Ebbflow sends along `steps`. */
  function Sent(steps: seq<Step>): Bytes {
    if steps == [] then []
    else (if steps[0].PeerSends? then steps[0].data else []) + Sent(steps[1..])
  }

  predicate PeerEncodes(c: Codec) {
    var b := Encode(c, HelloResponse(None));
    b.Ok? && |b.value| - 4 <= MESSAGE_LIMIT
  }

  /** The scripted frames, as the client sees them at its two reads. */
  lemma ScriptedFrames(c: Codec, input: Bytes, data: Bytes)
    requires Faithful(c) && PeerEncodes(c) && input <= PeerScript(c) + data
    ensures var first := Wire(c, HelloResponse(None));
            var f := FirstFrame(c, input, MESSAGE_LIMIT);
            && (f.Starved? || f == Got(HelloResponse(None), |first|))
            && (|first| <= |input| ==>
                  var g := FirstFrame(c, input[|first|..], MESSAGE_LIMIT);
                  g.Starved? || (g.Got? && g.message == StartTraffic))
  {
    var first, second := Wire(c, HelloResponse(None)), Wire(c, StartTraffic);
    assert PeerScript(c) + data == first + (second + data);
    FrameOfPrefix(c, HelloResponse(None), first, second + data, input, MESSAGE_LIMIT);
    if |first| <= |input| {
      assert input[|first|..] <= second + data;
      FrameOfPrefix(c, StartTraffic, second, data, input[|first|..], MESSAGE_LIMIT);
    }
  }

  lemma ScriptedReceive(c: Codec, hello: HelloV0, s: State, data: Bytes)
    requires Faithful(c) && PeerEncodes(c)
    requires InInv(c, s) && Enabled(c, s, Receive) && s.input <= PeerScript(c) + data
    ensures Understood(Apply(c, hello, s, Receive))
  {
    ScriptedFrames(c, s.input, data);
    if s.pc.AwaitingHelloResponse? {
      assert s.input[0..] == s.input;
    }
  }

  lemma ScriptedStep(c: Codec, hello: HelloV0, s: State, step: Step, data: Bytes)
    requires Faithful(c) && ClientEncodes(c, hello) && PeerEncodes(c)
    requires InInv(c, s) && Enabled(c, s, step) && Understood(s) && s.input <= PeerScript(c) + data
    ensures Understood(Apply(c, hello, s, step))
  {
    match step
    case Receive => ScriptedReceive(c, hello, s, data);
    case LocalUp => assert Encode(c, StartTrafficResponse(true)).Ok?;
    case LocalDown => assert Encode(c, StartTrafficResponse(false)).Ok?;
    case _ =>
  }

  lemma InputIsSent(c: Codec, hello: HelloV0, s: State, steps: seq<Step>)
    requires steps != [] && Enabled(c, s, steps[0])
    ensures Apply(c, hello, s, steps[0]).input + Sent(steps[1..]) == s.input + Sent(steps)
  {
    var rest := Sent(steps[1..]);
    match steps[0]
    case PeerSends(more) => assert s.input + more + rest == s.input + (more + rest);
    case _ => assert [] + rest == rest;
  }

  lemma {:induction false} ScriptedRun(c: Codec, hello: HelloV0, s: State, steps: seq<Step>, data: Bytes)
    requires Faithful(c) && ClientEncodes(c, hello) && PeerEncodes(c)
    requires InInv(c, s) && Valid(c, hello, s, steps) && Understood(s)
    requires s.input + Sent(steps) <= PeerScript(c) + data
    ensures Understood(Run(c, hello, s, steps))
    decreases |steps|
  {
    if steps != [] {
      assert s.input <= s.input + Sent(steps);
      ScriptedStep(c, hello, s, steps[0], data);
      StepKeepsIn(c, hello, s, steps[0]);
      InputIsSent(c, hello, s, steps);
      ScriptedRun(c, hello, Apply(c, hello, s, steps[0]), steps[1..], data);
    }
  }

  /** Composed with the mock peer, neither side meets a message it does not expect. */
  lemma MockPeerIsUnderstood(c: Codec, hello: HelloV0, steps: seq<Step>, data: Bytes)
    requires Faithful(c) && ClientEncodes(c, hello) && PeerEncodes(c)
    requires Valid(c, hello, Init(), steps) && Sent(steps) <= PeerScript(c) + data
    ensures Understood(Run(c, hello, Init(), steps))
  {
    assert Init().input + Sent(steps) == Sent(steps);
    ScriptedRun(c, hello, Init(), steps, data);
  }

  /** The hypotheses of the two theorems above can be met, whatever the hello says. */
  lemma SomeCodecFits(hello: HelloV0) returns (c: Codec)
    ensures Faithful(c) && ClientEncodes(c, hello) && PeerEncodes(c)
  {
    var toVec := (m: Message) =>
      if m == Hello(hello) || m == HelloResponse(None) || m == StartTrafficResponse(false) then Some([0])
      else if m == StartTrafficResponse(true) then Some([1])
      else None;
    var fromSlice := (id: nat, p: Bytes) =>
      if id == 1 then Some(Hello(hello))
      else if id == 6 then Some(HelloResponse(None))
      else Some(StartTrafficResponse(p == [1]));
    c := Codec(toVec, fromSlice);
    var zero: Bytes := [0];
    assert zero != [1];
  }
}
