/** The wire format between client and Ebbflow: a big-endian length, a big-endian message id and a
    payload. Payloads are CBOR; the codec is a parameter, and what is proved about decoding assumes
    only that it reads back what it wrote. */
module Messaging {
  import opened Wrappers

  newtype u8 = x: int | 0 <= x < 0x100

  type Bytes = seq<u8>

  const WORD: nat := 0x1_0000_0000

  /** The largest frame await_message accepts. */
  const MESSAGE_LIMIT: nat := 200 * 1024

  datatype EndpointType = Ssh | Tls

  datatype HelloV0 = HelloV0(key: string, endpointType: EndpointType, endpointValue: string, meta: map<string, string>)

  datatype StatusV0 = StatusV0(endpointType: EndpointType, endpointValue: string, enabled: bool)

  datatype EnableDisableTarget = AllEverything | AllEndpoints | SshTarget | SpecificEndpoints(names: seq<string>)

  datatype HelloResponseIssue = NotFound | Forbidden | BadRequest

  datatype Message =
    | Hello(hello: HelloV0)
    | StatusRequest
    | StatusResponse(statuses: seq<StatusV0>)
    | EnableDisableRequest(shouldBeRunning: bool, target: EnableDisableTarget)
    | EnableDisableResponse
    | HelloResponse(issue: Option<HelloResponseIssue>)
    | StartTraffic
    | StartTrafficResponse(ready: bool)

  datatype MessageError = Parse | UnknownMessage | TooBig

  function MessageId(m: Message): nat {
    match m
    case Hello(_) => 1
    case StatusRequest => 2
    case StatusResponse(_) => 3
    case EnableDisableRequest(_, _) => 4
    case EnableDisableResponse => 5
    case HelloResponse(_) => 6
    case StartTraffic => 7
    case StartTrafficResponse(_) => 8
  }

  /** Messages without a payload. */
  predicate Bare(m: Message) {
    m.StatusRequest? || m.EnableDisableResponse? || m.StartTraffic?
  }

  /** serde_cbor: `fromSlice` reads the payload type that belongs to a message id. */
  datatype Codec = Codec(toVec: Message -> Option<Bytes>, fromSlice: (nat, Bytes) -> Option<Message>)

  /** Reading back what was written gives the same value. */
  ghost predicate Faithful(c: Codec) {
    forall m: Message, p: Bytes :: !Bare(m) && c.toVec(m) == Some(p) ==> c.fromSlice(MessageId(m), p) == Some(m)
  }

  // ---------------------------------------------------------------- big-endian words

  function ToBe(n: nat): (b: Bytes)
    requires n < WORD
    ensures |b| == 4
  {
    [(n / 0x100_0000) as u8, (n / 0x1_0000 % 0x100) as u8, (n / 0x100 % 0x100) as u8, (n % 0x100) as u8]
  }

  function FromBe(b: Bytes): (n: nat)
    requires |b| == 4
    ensures n < WORD
  {
    b[0] as nat * 0x100_0000 + b[1] as nat * 0x1_0000 + b[2] as nat * 0x100 + b[3] as nat
  }

  lemma BeRoundTrip(n: nat)
    requires n < WORD
    ensures FromBe(ToBe(n)) == n
  {
    var a, b := n / 0x100, n / 0x1_0000;
    assert n == a * 0x100 + n % 0x100;
    assert a == b * 0x100 + a % 0x100;
    assert b == n / 0x100_0000 * 0x100 + b % 0x100;
  }

  // ---------------------------------------------------------------- encoding and decoding

  function Payload(c: Codec, m: Message): Option<Bytes> {
    if Bare(m) then Some([]) else c.toVec(m)
  }

  /** The length word wraps at 32 bits. */
  function Encode(c: Codec, m: Message): Result<Bytes, MessageError> {
    match Payload(c, m)
    case None => Err(Parse)
    case Some(p) => Ok(ToBe((4 + |p| % WORD) % WORD) + ToBe(MessageId(m)) + p)
  }

  /** from_wire_without_the_length_prefix */
  function Decode(c: Codec, buf: Bytes): Result<Message, MessageError> {
    if |buf| < 4 then Err(Parse)
    else
      var id := FromBe(buf[..4]);
      var payload := buf[4..];
      if id == 2 then Ok(StatusRequest)
      else if id == 5 then Ok(EnableDisableResponse)
      else if id == 7 then Ok(StartTraffic)
      else if id in {1, 3, 4, 6, 8} then
        match c.fromSlice(id, payload)
        case None => Err(Parse)
        case Some(m) => Ok(m)
      else Err(UnknownMessage)
  }

  /** to_wire_message, appending to byte vectors: it fails exactly if the payload cannot be written;
      otherwise the first word is the length of the rest modulo 2^32, the second the number of the
      message, and the rest decodes to `m`. */
  method ToWireMessage(c: Codec, m: Message) returns (r: Result<Bytes, MessageError>)
    ensures r == Encode(c, m)
    ensures r.Err? <==> !Bare(m) && c.toVec(m).None?
    ensures r.Ok? ==> |r.value| >= 8 && FromBe(r.value[..4]) == (|r.value| - 4) % WORD
    ensures r.Ok? ==> HasId(m, WordAt(r.value, 4))
    ensures r.Ok? && Faithful(c) ==> Decode(c, r.value[4..]) == Ok(m)
  {
    var messageId := ToBe(MessageId(m));
    var payload := Payload(c, m);
    if payload.None? {
      return Err(Parse);
    }
    var len := (|messageId| % WORD + |payload.value| % WORD) % WORD;
    assert |messageId| % WORD == 4;
    var message := ToBe(len);
    message := message + messageId;
    message := message + payload.value;
    r := Ok(message);
    WireLayout(c, m, message);
    HeaderWord(c, m, message);
    if Faithful(c) {
      DecodeEncode(c, m, message);
    }
  }

  // ---------------------------------------------------------------- frames on a stream

  datatype Frame =
    | Got(message: Message, used: nat)
    | Starved                                   // read_exact met the end of what has arrived
    | Rejected(error: MessageError, used: nat)

  /** The first frame of a stream, for a reader that accepts at most `limit` bytes after the length. */
  function FirstFrame(c: Codec, s: Bytes, limit: nat): (f: Frame)
    ensures f.Got? ==> 4 <= f.used <= |s|
    ensures f.Rejected? ==> f.used <= |s|
  {
    if |s| < 4 then Starved
    else
      var len := FromBe(s[..4]);
      if len > limit then Rejected(TooBig, 4)
      else if |s| < 4 + len then Starved
      else
        match Decode(c, s[4..4 + len])
        case Ok(m) => Got(m, 4 + len)
        case Err(e) => Rejected(e, 4 + len)
  }

  /** A stream of received bytes with a read position. */
  class ByteStream {
    var data: Bytes
    var pos: nat

    ghost predicate Valid()
      reads this
    {
      pos <= |data|
    }

    constructor (data: Bytes)
      ensures Valid() && this.data == data && pos == 0
    {
      this.data, pos := data, 0;
    }

    /** Exactly `n` bytes, or failure. */
    method ReadExact(n: nat) returns (r: Option<Bytes>)
      requires Valid()
      modifies this`pos
      ensures Valid()
      ensures old(pos) + n <= |data| ==> r == Some(data[old(pos)..old(pos) + n]) && pos == old(pos) + n
      ensures old(pos) + n > |data| ==> r == None && pos == |data|
    {
      if pos + n <= |data| {
        r := Some(data[pos..pos + n]);
        pos := pos + n;
      } else {
        r := None;
        pos := |data|;
      }
    }

    /** await_message, proved against FirstFrame: same outcome, and exactly the frame's bytes used. */
    method AwaitMessage(c: Codec) returns (r: Frame)
      requires Valid()
      modifies this`pos
      ensures Valid()
      ensures r == FirstFrame(c, old(data[pos..]), MESSAGE_LIMIT)
      ensures r.Got? || r.Rejected? ==> pos == old(pos) + r.used
    {
      ghost var s := data[pos..];
      var lenbuf := ReadExact(4);
      if lenbuf.None? {
        return Starved;
      }
      assert lenbuf.value == s[..4];
      var len := FromBe(lenbuf.value);
      if len > MESSAGE_LIMIT {
        return Rejected(TooBig, 4);
      }
      var msgbuf := ReadExact(len);
      if msgbuf.None? {
        return Starved;
      }
      assert msgbuf.value == s[4..4 + len];
      var m := Decode(c, msgbuf.value);
      match m
      case Ok(message) => r := Got(message, 4 + len);
      case Err(e) => r := Rejected(e, 4 + len);
    }
  }

  // ---------------------------------------------------------------- theorems

  /** Encodable, with `b` as its encoding. */
  predicate Encodes(c: Codec, m: Message, b: Bytes) {
    Encode(c, m) == Ok(b)
  }

  /** Truncating before the addition or after it comes to the same. */
  lemma TruncatedSum(n: nat)
    ensures (4 + n % WORD) % WORD == (4 + n) % WORD
  {
    assert n == n / WORD * WORD + n % WORD;
  }

  lemma HeaderOf(w: nat, tail: Bytes)
    requires w < WORD
    ensures FromBe((ToBe(w) + tail)[..4]) == w
  {
    BeRoundTrip(w);
    assert (ToBe(w) + tail)[..4] == ToBe(w);
  }

  /** The length word is the length modulo 2^32. */
  lemma HeaderWord(c: Codec, m: Message, b: Bytes)
    requires Encodes(c, m, b)
    ensures |b| >= 8
    ensures FromBe(b[..4]) == (|b| - 4) % WORD
  {
    var p := Payload(c, m).value;
    TruncatedSum(|p|);
    HeaderOf((4 + |p|) % WORD, ToBe(MessageId(m)) + p);
    assert b == ToBe((4 + |p|) % WORD) + (ToBe(MessageId(m)) + p);
  }

  /** So it tells the truth exactly if the frame is shorter than 4 GiB. */
  lemma HeaderIsTrueIff(c: Codec, m: Message, b: Bytes)
    requires Encodes(c, m, b)
    ensures |b| >= 8
    ensures FromBe(b[..4]) == |b| - 4 <==> |b| - 4 < 0x1_0000_0000
  {
    HeaderWord(c, m, b);
  }

  /** The value of the four bytes from `at` on, most significant first. */
  function WordAt(b: Bytes, at: nat): nat
    requires at + 4 <= |b|
  {
    b[at] as nat * 16_777_216 + b[at + 1] as nat * 65_536 + b[at + 2] as nat * 256 + b[at + 3] as nat
  }

  /** `id` is the number of the message's kind. */
  predicate HasId(m: Message, id: nat) {
    match m
    case Hello(_) => id == 1
    case StatusRequest => id == 2
    case StatusResponse(_) => id == 3
    case EnableDisableRequest(_, _) => id == 4
    case EnableDisableResponse => id == 5
    case HelloResponse(_) => id == 6
    case StartTraffic => id == 7
    case StartTrafficResponse(_) => id == 8
  }

  /** The bytes on the wire, one by one: the length of the rest modulo 2^32 and the message's number,
      both most significant byte first, and then the payload, which three kinds do not have. */
  lemma WireLayout(c: Codec, m: Message, b: Bytes)
    requires Encodes(c, m, b)
    ensures |b| >= 8
    ensures WordAt(b, 0) == (|b| - 4) % 0x1_0000_0000
    ensures HasId(m, WordAt(b, 4))
    ensures if m.StatusRequest? || m.EnableDisableResponse? || m.StartTraffic? then b[8..] == []
            else c.toVec(m) == Some(b[8..])
  {
    HeaderWord(c, m, b);
    var p := Payload(c, m).value;
    HeaderOf(MessageId(m), p);
    assert b[4..] == ToBe(MessageId(m)) + p;
    assert b[4..][..4] == [b[4], b[5], b[6], b[7]];
    assert b[..4] == [b[0], b[1], b[2], b[3]];
  }

  /** A codec that reads a payload only as the kind it is asked for. */
  ghost predicate Typed(c: Codec) {
    forall id: nat, p: Bytes :: c.fromSlice(id, p).Some? ==> HasId(c.fromSlice(id, p).value, id)
  }

  /** Decoding, for every input: too short is a parse error, only the numbers 1 to 8 are known, three
      of them are messages whatever follows, and the others are what the codec makes of the rest. A
      message is of the kind its number says. */
  lemma DecodeByNumber(c: Codec, buf: Bytes)
    ensures |buf| < 4 ==> Decode(c, buf) == Err(Parse)
    ensures |buf| >= 4 ==>
              var id, r := WordAt(buf, 0), Decode(c, buf);
              && (id == 0 || id > 8 ==> r == Err(UnknownMessage))
              && (id == 2 ==> r == Ok(StatusRequest))
              && (id == 5 ==> r == Ok(EnableDisableResponse))
              && (id == 7 ==> r == Ok(StartTraffic))
              && (id in {1, 3, 4, 6, 8} ==>
                    var m := c.fromSlice(id, buf[4..]);
                    r == if m.Some? then Ok(m.value) else Err(Parse))
              && (Typed(c) && r.Ok? ==> HasId(r.value, id))
  {
    if |buf| >= 4 {
      assert FromBe(buf[..4]) == WordAt(buf, 0);
    }
  }

  /** A greeting with a key of `n` characters, and a codec that writes one byte for each of them. */
  function Greeting(n: nat): Message {
    Hello(HelloV0(seq(n, _ => 'a'), Tls, "", map[]))
  }

  function Zeros(n: nat): Bytes {
    seq(n, _ => 0)
  }

  function KeyCodec(): Codec {
    Codec((m: Message) => if m.Hello? && m == Greeting(|m.hello.key|) then Some(Zeros(|m.hello.key|)) else None,
          (_, p) => Some(Greeting(|p|)))
  }

  lemma KeyCodecIsFaithful()
    ensures Faithful(KeyCodec())
  {
  }

  /** The length and id words of a greeting whose key fills a multiple of 4 GiB. */
  function GreetingHead(): (b: Bytes)
    ensures |b| == 8
  {
    ToBe(4) + ToBe(1)
  }

  lemma GreetingEncodes(n: nat) returns (b: Bytes)
    requires n % WORD == 0
    ensures Encodes(KeyCodec(), Greeting(n), b)
    ensures b == GreetingHead() + Zeros(n)
  {
    b := Encode(KeyCodec(), Greeting(n)).value;
  }

  lemma GreetingLength(b: Bytes)
    requires b == GreetingHead() + Zeros(WORD)
    ensures FromBe(b[..4]) == 4 && |b| == WORD + 8
  {
    HeaderOf(4, ToBe(1) + Zeros(WORD));
    assert b == ToBe(4) + (ToBe(1) + Zeros(WORD));
  }

  /** Beyond that it does not: under a faithful codec, a greeting with a key of 4 GiB is announced as
      an empty payload, and the greeting without a key is a proper prefix of it. */
  lemma LongFramesMislead() returns (c: Codec, m1: Message, b1: Bytes, m2: Message, b2: Bytes)
    ensures Faithful(c) && Encodes(c, m1, b1) && Encodes(c, m2, b2)
    ensures m1 == Greeting(0) && m2 == Greeting(WORD)
    ensures FromBe(b2[..4]) != |b2| - 4
    ensures b1 < b2
  {
    c, m1, m2 := KeyCodec(), Greeting(0), Greeting(WORD);
    KeyCodecIsFaithful();
    b1 := GreetingEncodes(0);
    b2 := GreetingEncodes(WORD);
    GreetingLength(b2);
    assert b1 == GreetingHead();
  }

  lemma DecodeEncode(c: Codec, m: Message, b: Bytes)
    requires Faithful(c) && Encodes(c, m, b)
    ensures Decode(c, b[4..]) == Ok(m)
  {
  }

  /** A reader that has seen any prefix of an encoding followed by anything: it is starved until the
      last byte is there, and then reads exactly the message. */
  lemma FrameOfPrefix(c: Codec, m: Message, b: Bytes, rest: Bytes, s: Bytes, limit: nat)
    requires Faithful(c) && Encodes(c, m, b) && |b| - 4 < WORD && |b| - 4 <= limit
    requires s <= b + rest
    ensures FirstFrame(c, s, limit) == if |s| < |b| then Starved else Got(m, |b|)
  {
    HeaderIsTrueIff(c, m, b);
    if |s| >= 4 {
      assert s[..4] == (b + rest)[..4] == b[..4];
      if |s| >= |b| {
        assert s[4..|b|] == (b + rest)[4..|b|] == b[4..];
        DecodeEncode(c, m, b);
      }
    }
  }

  /** Round trip with its exact condition: an encoding, of any length, is read back as the message
      using exactly its bytes if and only if it respects the safeguard; above it and below 4 GiB it
      is rejected. */
  lemma FrameRoundTrip(c: Codec, m: Message, b: Bytes, rest: Bytes)
    requires Faithful(c) && Encodes(c, m, b)
    ensures FirstFrame(c, b + rest, MESSAGE_LIMIT) == Got(m, |b|) <==> |b| - 4 <= 204_800
    ensures 204_800 < |b| - 4 < 0x1_0000_0000 ==> FirstFrame(c, b + rest, MESSAGE_LIMIT) == Rejected(TooBig, 4)
  {
    HeaderWord(c, m, b);
    assert (b + rest)[..4] == b[..4];
    if |b| - 4 <= MESSAGE_LIMIT {
      FrameOfPrefix(c, m, b, rest, b + rest, MESSAGE_LIMIT);
    }
  }

  /** What has been read is not changed by what arrives later. */
  lemma FrameIsStable(c: Codec, s: Bytes, more: Bytes, limit: nat)
    requires !FirstFrame(c, s, limit).Starved?
    ensures FirstFrame(c, s + more, limit) == FirstFrame(c, s, limit)
  {
    assert (s + more)[..4] == s[..4];
    var len := FromBe(s[..4]);
    if len <= limit {
      assert (s + more)[4..4 + len] == s[4..4 + len];
    }
  }

  /** An encoding that is a prefix of another is equal to it, unless the other is 4 GiB longer; so
      below 4 GiB no encoding is a proper prefix of another. */
  lemma EncodingsArePrefixFree(c: Codec, m1: Message, b1: Bytes, m2: Message, b2: Bytes)
    requires Encodes(c, m1, b1) && Encodes(c, m2, b2) && b1 <= b2
    ensures b1 == b2 <==> |b2| - |b1| < WORD
    ensures |b2| - 4 < WORD ==> b1 == b2
  {
    HeaderWord(c, m1, b1);
    HeaderWord(c, m2, b2);
    assert b1[..4] == b2[..4];
    if |b2| - |b1| < WORD {
      SameRemainder(|b1| - 4, |b2| - 4);
    }
  }

  lemma SameRemainder(x: nat, y: nat)
    requires x <= y && x % WORD == y % WORD && y - x < WORD
    ensures x == y
  {
  }

  /** All messages encodable within the safeguard. */
  ghost predicate Sendable(c: Codec, ms: seq<Message>) {
    forall i :: 0 <= i < |ms| ==>
      Encode(c, ms[i]).Ok? && |Encode(c, ms[i]).value| - 4 <= MESSAGE_LIMIT
  }

  function Concatenated(c: Codec, ms: seq<Message>): Bytes
    requires forall i :: 0 <= i < |ms| ==> Encode(c, ms[i]).Ok?
  {
    if ms == [] then [] else Encode(c, ms[0]).value + Concatenated(c, ms[1..])
  }

  /** Reading `n` messages one after the other; the rest of the stream is handed back. */
  function ReadMany(c: Codec, s: Bytes, n: nat): Option<(seq<Message>, Bytes)>
    decreases n
  {
    if n == 0 then Some(([], s))
    else
      match FirstFrame(c, s, MESSAGE_LIMIT)
      case Got(m, used) =>
        (match ReadMany(c, s[used..], n - 1)
         case Some((ms, rest)) => Some(([m] + ms, rest))
         case None => None)
      case _ => None
  }

  /** Stream round trip: reading as many messages as were sent gives back exactly those messages and
      leaves exactly the bytes that follow them. */
  lemma {:induction false} StreamRoundTrip(c: Codec, ms: seq<Message>, rest: Bytes)
    requires Faithful(c) && Sendable(c, ms)
    ensures ReadMany(c, Concatenated(c, ms) + rest, |ms|) == Some((ms, rest))
    decreases |ms|
  {
    if ms == [] {
      assert Concatenated(c, ms) + rest == rest;
    } else {
      var b := Encode(c, ms[0]).value;
      var tail := Concatenated(c, ms[1..]) + rest;
      assert Concatenated(c, ms) + rest == b + tail;
      FrameRoundTrip(c, ms[0], b, tail);
      assert (b + tail)[|b|..] == tail;
      StreamRoundTrip(c, ms[1..], rest);
      assert [ms[0]] + ms[1..] == ms;
    }
  }
}
