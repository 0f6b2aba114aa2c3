/** The byte-copying proxy: two independent copies, one per direction, that run until one of them
    ends or the whole is aborted. */
module Proxy {
  import opened Messaging

  const BUFFER: nat := 10 * 1024

  datatype CopyPc = Reading | Writing | Flushing | AtEof | Broken

  /** One direction: everything read so far, everything handed to the writer so far, and the part of
      the buffer not yet written. */
  datatype Copy = Copy(read: Bytes, delivered: Bytes, buffer: Bytes, pc: CopyPc)

  datatype CopyStep =
    | Read(data: Bytes)
    | Eof
    | Write(n: nat)
    | Flush
    | Fail

  function NewCopy(): Copy {
    Copy([], [], [], Reading)
  }

  predicate CanCopy(d: Copy, step: CopyStep) {
    match step
    case Read(data) => d.pc.Reading? && 0 < |data| <= BUFFER
    case Eof => d.pc.Reading?
    case Write(n) => d.pc.Writing? && n <= |d.buffer|
    case Flush => d.pc.Flushing?
    case Fail => d.pc.Reading? || d.pc.Writing? || d.pc.Flushing?
  }

  function Copied(d: Copy, step: CopyStep): Copy
    requires CanCopy(d, step)
  {
    match step
    case Read(data) => d.(read := d.read + data, buffer := data, pc := Writing)
    case Eof => d.(pc := AtEof)
    case Write(n) =>
      d.(delivered := d.delivered + d.buffer[..n],
         buffer := d.buffer[n..],
         pc := if n == |d.buffer| then Flushing else Writing)
    case Flush => d.(pc := Reading)
    case Fail => d.(pc := Broken)
  }

  predicate CopyOk(d: Copy) {
    && d.delivered + d.buffer == d.read
    && |d.buffer| <= BUFFER
    && (d.pc.Reading? || d.pc.Flushing? || d.pc.AtEof? ==> d.buffer == [])
  }

  lemma CopyStepKeepsOk(d: Copy, step: CopyStep)
    requires CopyOk(d) && CanCopy(d, step)
    ensures CopyOk(Copied(d, step))
    ensures d.delivered <= Copied(d, step).delivered
  {
  }

  // ---------------------------------------------------------------- both directions

  /** `up` carries local bytes to Ebbflow, `down` Ebbflow's bytes to the local server. */
  datatype Duplex = Duplex(up: Copy, down: Copy, running: bool)

  datatype DuplexStep = Up(step: CopyStep) | Down(step: CopyStep) | Finish | Abort

  function NewDuplex(): Duplex {
    Duplex(NewCopy(), NewCopy(), true)
  }

  predicate Ended(d: Copy) {
    d.pc.AtEof? || d.pc.Broken?
  }

  /** `Finish` is the select: either direction's end ends the proxy. */
  predicate CanStep(p: Duplex, step: DuplexStep) {
    && p.running
    && match step
       case Up(c) => CanCopy(p.up, c)
       case Down(c) => CanCopy(p.down, c)
       case Finish => Ended(p.up) || Ended(p.down)
       case Abort => true
  }

  function Stepped(p: Duplex, step: DuplexStep): Duplex
    requires CanStep(p, step)
  {
    match step
    case Up(c) => p.(up := Copied(p.up, c))
    case Down(c) => p.(down := Copied(p.down, c))
    case Finish => p.(running := false)
    case Abort => p.(running := false)
  }

  predicate ValidRun(p: Duplex, steps: seq<DuplexStep>)
    decreases |steps|
  {
    steps == [] || (CanStep(p, steps[0]) && ValidRun(Stepped(p, steps[0]), steps[1..]))
  }

  function RunAll(p: Duplex, steps: seq<DuplexStep>): Duplex
    requires ValidRun(p, steps)
    decreases |steps|
  {
    if steps == [] then p else RunAll(Stepped(p, steps[0]), steps[1..])
  }

  lemma {:induction false} RunKeepsOk(p: Duplex, steps: seq<DuplexStep>)
    requires CopyOk(p.up) && CopyOk(p.down) && ValidRun(p, steps)
    ensures CopyOk(RunAll(p, steps).up) && CopyOk(RunAll(p, steps).down)
    decreases |steps|
  {
    if steps != [] {
      match steps[0] {
        case Up(c) => CopyStepKeepsOk(p.up, c);
        case Down(c) => CopyStepKeepsOk(p.down, c);
        case _ =>
      }
      RunKeepsOk(Stepped(p, steps[0]), steps[1..]);
    }
  }

  /** Faithful forwarding: for any chunking, any interleaving of the directions, any failure and any
      abort, what each side was given is a prefix of what the other side sent, in order; a
      direction that ended by end-of-file has delivered everything, and one in the middle owes at
      most one buffer. */
  lemma ForwardsAPrefix(steps: seq<DuplexStep>)
    requires ValidRun(NewDuplex(), steps)
    ensures var p := RunAll(NewDuplex(), steps);
            && p.up.delivered <= p.up.read
            && p.down.delivered <= p.down.read
            && |p.up.read| - |p.up.delivered| <= 10_240
            && |p.down.read| - |p.down.delivered| <= 10_240
            && (p.up.pc.AtEof? ==> p.up.delivered == p.up.read)
            && (p.down.pc.AtEof? ==> p.down.delivered == p.down.read)
  {
    RunKeepsOk(NewDuplex(), steps);
  }

  // ---------------------------------------------------------------- what can happen

  function Side(p: Duplex, up: bool): Copy {
    if up then p.up else p.down
  }

  function OnSide(up: bool, c: CopyStep): DuplexStep {
    if up then Up(c) else Down(c)
  }

  lemma {:induction false} RunConcat(p: Duplex, a: seq<DuplexStep>, b: seq<DuplexStep>)
    requires ValidRun(p, a) && ValidRun(RunAll(p, a), b)
    ensures ValidRun(p, a + b) && RunAll(p, a + b) == RunAll(RunAll(p, a), b)
    decreases |a|
  {
    if a == [] {
      assert a + b == b;
    } else {
      assert (a + b)[1..] == a[1..] + b;
      RunConcat(Stepped(p, a[0]), a[1..], b);
    }
  }

  lemma Then(p: Duplex, steps: seq<DuplexStep>, step: DuplexStep) returns (longer: seq<DuplexStep>)
    requires ValidRun(p, steps) && CanStep(RunAll(p, steps), step)
    ensures ValidRun(p, longer) && RunAll(p, longer) == Stepped(RunAll(p, steps), step)
  {
    longer := steps + [step];
    assert ValidRun(RunAll(p, steps), [step]);
    RunConcat(p, steps, [step]);
  }

  /** One direction carries `data` across and is ready for more. */
  lemma {:induction false} Carry(p: Duplex, up: bool, data: Bytes) returns (steps: seq<DuplexStep>)
    requires p.running && Side(p, up).pc.Reading? && Side(p, up).buffer == []
    ensures ValidRun(p, steps) && RunAll(p, steps).running
    ensures Side(RunAll(p, steps), up) == Copy(Side(p, up).read + data, Side(p, up).delivered + data, [], Reading)
    ensures Side(RunAll(p, steps), !up) == Side(p, !up)
    decreases |data|
  {
    steps := [];
    if data == [] {
      assert Side(p, up).read + data == Side(p, up).read && Side(p, up).delivered + data == Side(p, up).delivered;
    } else {
      var k := |data| - 1;
      steps := Carry(p, up, data[..k]);
      steps := Then(p, steps, OnSide(up, Read([data[k]])));
      steps := Then(p, steps, OnSide(up, Write(1)));
      steps := Then(p, steps, OnSide(up, Flush));
      assert data == data[..k] + [data[k]];
      assert Side(p, up).read + data == Side(p, up).read + data[..k] + [data[k]];
      assert Side(p, up).delivered + data == Side(p, up).delivered + data[..k] + [data[k]];
    }
  }

  /** At most one buffer of what was read has not been delivered. */
  predicate Cut(read: Bytes, delivered: Bytes) {
    delivered <= read && |read| - |delivered| <= 10_240
  }

  /** A direction that has not begun reads and delivers just this, and breaks. */
  lemma CutOff(p: Duplex, up: bool, read: Bytes, delivered: Bytes) returns (steps: seq<DuplexStep>)
    requires p.running && Side(p, up) == NewCopy() && Cut(read, delivered)
    ensures ValidRun(p, steps) && RunAll(p, steps).running
    ensures var c := Side(RunAll(p, steps), up); c.read == read && c.delivered == delivered && c.pc.Broken?
    ensures Side(RunAll(p, steps), !up) == Side(p, !up)
  {
    steps := Carry(p, up, delivered);
    var rest := read[|delivered|..];
    if rest != [] {
      steps := Then(p, steps, OnSide(up, Read(rest)));
    }
    steps := Then(p, steps, OnSide(up, Fail));
    assert delivered + rest == read;
  }

  ghost predicate Leaves(steps: seq<DuplexStep>, read: Bytes, delivered: Bytes, read': Bytes, delivered': Bytes) {
    && ValidRun(NewDuplex(), steps)
    && var p := RunAll(NewDuplex(), steps);
       p.up.read == read && p.up.delivered == delivered && p.down.read == read' && p.down.delivered == delivered'
  }

  /** Forwarding, exactly: two byte strings can have been read and two delivered on some run if and only
      if each side was given a prefix of the other side's bytes that lacks at most one buffer. */
  lemma ForwardsExactly(read: Bytes, delivered: Bytes, read': Bytes, delivered': Bytes)
    ensures (exists steps :: Leaves(steps, read, delivered, read', delivered')) <==>
            Cut(read, delivered) && Cut(read', delivered')
  {
    if steps :| Leaves(steps, read, delivered, read', delivered') {
      ForwardsAPrefix(steps);
    }
    if Cut(read, delivered) && Cut(read', delivered') {
      var up := CutOff(NewDuplex(), true, read, delivered);
      var down := CutOff(RunAll(NewDuplex(), up), false, read', delivered');
      RunConcat(NewDuplex(), up, down);
      assert Leaves(up + down, read, delivered, read', delivered');
    }
  }

  /** A proxy that is still running can be aborted at any point, which loses nothing delivered. */
  lemma AbortEndsAnywhere(steps: seq<DuplexStep>)
    requires ValidRun(NewDuplex(), steps) && RunAll(NewDuplex(), steps).running
    ensures ValidRun(NewDuplex(), steps + [Abort])
    ensures RunAll(NewDuplex(), steps + [Abort]) == RunAll(NewDuplex(), steps).(running := false)
  {
    assert ValidRun(RunAll(NewDuplex(), steps), [Abort]);
    RunConcat(NewDuplex(), steps, [Abort]);
  }

  /** And all of any two byte strings can be exchanged, ending by end-of-file. */
  lemma EverythingCanArrive(upwards: Bytes, downwards: Bytes) returns (steps: seq<DuplexStep>)
    ensures Leaves(steps, upwards, upwards, downwards, downwards)
    ensures var p := RunAll(NewDuplex(), steps); p.up.pc.AtEof? && !p.running
  {
    var p := NewDuplex();
    var up := Carry(p, true, upwards);
    var down := Carry(RunAll(p, up), false, downwards);
    RunConcat(p, up, down);
    steps := Then(p, up + down, Up(Eof));
    steps := Then(p, steps, Finish);
  }

  // ---------------------------------------------------------------- the copy loop itself

  datatype ReadResult = Chunk(data: Bytes) | ReadError

  /** The writer takes the chunk whole, or fails after some of it. */
  datatype WriteResult = Accepted | FailedAfter(n: nat)

  /** All bytes the reader is going to produce before its end or its first error. */
  ghost function Incoming(chunks: seq<ReadResult>): Bytes {
    if chunks == [] || chunks[0].ReadError? || chunks[0].data == [] then []
    else chunks[0].data + Incoming(chunks[1..])
  }

  /** The bytes the writer takes until the copy ends. */
  ghost function Taken(chunks: seq<ReadResult>, answers: seq<WriteResult>): Bytes
    requires |answers| >= |chunks|
  {
    if chunks == [] || chunks[0].ReadError? || chunks[0].data == [] then []
    else
      var data := chunks[0].data;
      match answers[0]
      case FailedAfter(n) => data[..if n < |data| then n else |data|]
      case Accepted => data + Taken(chunks[1..], answers[1..])
  }

  /** Whether the copy ends by end-of-file. */
  ghost predicate EndsAtEof(chunks: seq<ReadResult>, answers: seq<WriteResult>)
    requires |answers| >= |chunks|
  {
    chunks == [] ||
    (chunks[0].Chunk? &&
     (chunks[0].data == [] || (answers[0].Accepted? && EndsAtEof(chunks[1..], answers[1..]))))
  }

  /** What is taken is a prefix of what there was to read, and all of it at end-of-file. */
  lemma {:induction false} TakenIsPrefix(chunks: seq<ReadResult>, answers: seq<WriteResult>)
    requires |answers| >= |chunks|
    ensures Taken(chunks, answers) <= Incoming(chunks)
    ensures EndsAtEof(chunks, answers) ==> Taken(chunks, answers) == Incoming(chunks)
    decreases |chunks|
  {
    if chunks != [] && chunks[0].Chunk? && chunks[0].data != [] {
      TakenIsPrefix(chunks[1..], answers[1..]);
    }
  }

  /** The chunk is read and written whole. */
  predicate Passes(c: ReadResult, a: WriteResult) {
    c.Chunk? && c.data != [] && a.Accepted?
  }

  /** The first chunk that does not pass, or the end. */
  ghost predicate StopsAt(chunks: seq<ReadResult>, answers: seq<WriteResult>, k: nat)
    requires |answers| >= |chunks|
  {
    && k <= |chunks|
    && (forall j :: 0 <= j < k ==> Passes(chunks[j], answers[j]))
    && (k < |chunks| ==> !Passes(chunks[k], answers[k]))
  }

  ghost function Joined(chunks: seq<ReadResult>): Bytes {
    if chunks == [] then []
    else Joined(chunks[..|chunks| - 1]) + (if chunks[|chunks| - 1].Chunk? then chunks[|chunks| - 1].data else [])
  }

  /** What the writer took of the chunk it failed on. */
  ghost function Partial(chunks: seq<ReadResult>, answers: seq<WriteResult>, k: nat): Bytes
    requires |answers| >= |chunks|
  {
    if k < |chunks| && chunks[k].Chunk? && answers[k].FailedAfter?
    then chunks[k].data[..if answers[k].n < |chunks[k].data| then answers[k].n else |chunks[k].data|]
    else []
  }

  /** Whether the copy that stops at `k` has met the end of file. */
  predicate EofAt(chunks: seq<ReadResult>, k: nat) {
    k >= |chunks| || chunks[k] == Chunk([])
  }

  /** The chunks that pass are taken whole. */
  lemma {:induction false} PassedIsTaken(chunks: seq<ReadResult>, answers: seq<WriteResult>, j: nat)
    requires j <= |chunks| <= |answers| && forall i :: 0 <= i < j ==> Passes(chunks[i], answers[i])
    ensures Taken(chunks, answers) == Joined(chunks[..j]) + Taken(chunks[j..], answers[j..])
    ensures EndsAtEof(chunks, answers) <==> EndsAtEof(chunks[j..], answers[j..])
  {
    if j == 0 {
      assert chunks[0..] == chunks && answers[0..] == answers;
    } else {
      PassedIsTaken(chunks, answers, j - 1);
      assert chunks[..j][..j - 1] == chunks[..j - 1];
      assert chunks[j - 1..][1..] == chunks[j..] && answers[j - 1..][1..] == answers[j..];
    }
  }

  /** And of the one the copy stops at, what the writer took. */
  lemma TakenAtStop(chunks: seq<ReadResult>, answers: seq<WriteResult>, k: nat)
    requires |chunks| <= |answers| && StopsAt(chunks, answers, k)
    ensures Taken(chunks, answers) == Joined(chunks[..k]) + Partial(chunks, answers, k)
    ensures EndsAtEof(chunks, answers) <==> EofAt(chunks, k)
  {
    PassedIsTaken(chunks, answers, k);
  }

  /** copy_bytes_ez against a reader and a writer given by what they return; the end of `chunks`, or
      an empty chunk, is end-of-file. It delivers exactly what the writer takes, which is a prefix of
      what there was to read: every chunk before the first that does not pass, whole, and of that one
      what the writer took. It reports success exactly at end-of-file, with everything delivered. */
  method CopyBytes(chunks: seq<ReadResult>, answers: seq<WriteResult>) returns (ok: bool, delivered: Bytes)
    requires |answers| >= |chunks|
    ensures delivered <= Incoming(chunks)
    ensures ok ==> delivered == Incoming(chunks)
    ensures exists k: nat :: StopsAt(chunks, answers, k)
                             && delivered == Joined(chunks[..k]) + Partial(chunks, answers, k)
                             && (ok <==> EofAt(chunks, k))
  {
    TakenIsPrefix(chunks, answers);
    delivered := [];
    var i := 0;
    while i < |chunks|
      invariant 0 <= i <= |chunks|
      invariant forall j :: 0 <= j < i ==> Passes(chunks[j], answers[j])
      invariant delivered == Joined(chunks[..i])
    {
      assert chunks[..i + 1][..i] == chunks[..i];
      if !Passes(chunks[i], answers[i]) {
        TakenAtStop(chunks, answers, i);
      }
      match chunks[i]
      case ReadError =>
        return false, delivered;
      case Chunk(data) =>
        if |data| == 0 {
          return true, delivered;
        }
        match answers[i]
        case FailedAfter(n) =>
          return false, delivered + data[..if n < |data| then n else |data|];
        case Accepted =>
          delivered := delivered + data;
          i := i + 1;
    }
    TakenAtStop(chunks, answers, i);
    return true, delivered;
  }
}
