/** A session on each side of one connection: producers, AsyncWriter, byte pipe, AsyncReader, message
    client (src/session.cpp:101-109 and the client of test/test_messages.cpp). */
module EndToEnd {
  import opened Common
  import opened Framing
  import W = WriteQueue
  import R = ReadSequence

  /** One call of scheduleWrite by one of the producers. */
  datatype Send = Send(producer: nat, message: Message, deadline: Option<int>, handler: nat)

  /** The link carries `sent`; `progress` bytes of the outstanding write are among them. `clean` is
      the part of `sent` from before the first failed write. */
  datatype System = System(
    sends: seq<Send>, writer: W.State, progress: nat, sent: seq<byte>, clean: seq<byte>, reader: R.State<Client>)

  datatype Event =
    | Produce(send: Send)
    | Writer(e: W.Event)          // any handler of the writer except the completion of a write
    | Transmit(n: nat)            // the network takes some more bytes of the outstanding write
    | Written(ok: bool)           // the write completes; a success only after all of its bytes
    | StartReading
    | Receive(n: nat)             // the outstanding read completes with the next n bytes
    | ReceiveError(n: nat)        // it fails after n more bytes

  function BatchOf(x: Send): W.Batch {
    W.Batch([W.WriteTask(Encode(|x.message|, HEADER_SIZE), x.handler), W.WriteTask(x.message, x.handler)], x.deadline)
  }

  function BatchBytes(b: W.Batch): seq<byte> { Flatten(W.Buffers(b)) }

  function FrontBytes(w: W.State): seq<byte> {
    if w.inFlight && w.queue != [] then BatchBytes(w.queue[0].batch) else []
  }

  function Init(t0: int, wanted: pos): System {
    System([], W.Init(t0), 0, [], [], R.Step(OnRead, R.Init(), R.Schedule(Header(wanted), HEADER_SIZE)))
  }

  /** The next n bytes of the link that have not been received yet, or all of them. */
  function Next(s: System, n: nat): seq<byte> {
    var from := Min(|s.reader.log.received|, |s.sent|);
    s.sent[from..Min(|s.sent|, from + n)]
  }

  function Step(s: System, e: Event): System {
    match e
    case Produce(x) => s.(sends := s.sends + [x], writer := W.Step(s.writer, W.Schedule(BatchOf(x))))
    case Writer(we) => if we.Schedule? || we.WriteDone? then s else s.(writer := W.Step(s.writer, we))
    case Transmit(n) =>
      var bytes := FrontBytes(s.writer);
      var from := Min(s.progress, |bytes|);
      var chunk := bytes[from..Min(|bytes|, from + n)];
      s.(progress := from + |chunk|, sent := s.sent + chunk,
         clean := if s.writer.log.errors == 0 then s.clean + chunk else s.clean)
    case Written(ok) =>
      if s.writer.inFlight && (ok ==> s.progress == |FrontBytes(s.writer)|)
      then s.(writer := W.Step(s.writer, W.WriteDone(ok)), progress := 0) else s
    case StartReading => s.(reader := R.Step(OnRead, s.reader, R.RunPosted))
    case Receive(n) => s.(reader := R.Step(OnRead, s.reader, R.Arrive(Next(s, n))))
    case ReceiveError(n) => s.(reader := R.Step(OnRead, s.reader, R.Fail(Next(s, n))))
  }

  function Run(s: System, es: seq<Event>): System {
    if es == [] then s else Step(Run(s, es[..|es| - 1]), es[|es| - 1])
  }

  // ---------------------------------------------------------------- the sending side

  function MessageOf(x: Send): Message { x.message }

  function Messages(xs: seq<Send>): seq<Message> { Map(MessageOf, xs) }

  function WireBytes(bs: seq<W.Batch>): seq<byte> { Flatten(Map(BatchBytes, bs)) }

  lemma WireBytesAppend(a: seq<W.Batch>, b: seq<W.Batch>)
    ensures WireBytes(a + b) == WireBytes(a) + WireBytes(b)
  {
    MapAppend(BatchBytes, a, b);
    FlattenAppend(Map(BatchBytes, a), Map(BatchBytes, b));
  }

  lemma WireBytesOne(b: W.Batch)
    ensures WireBytes([b]) == BatchBytes(b)
  {
    assert Map(BatchBytes, [b]) == [BatchBytes(b)];
    FlattenOne(BatchBytes(b));
  }

  lemma BatchIsFrame(x: Send)
    ensures BatchBytes(BatchOf(x)) == Frame(x.message)
  {
    var h := Encode(|x.message|, HEADER_SIZE);
    assert W.Buffers(BatchOf(x)) == [h] + [x.message];
    FlattenAppend([h], [x.message]);
    FlattenOne(h);
    FlattenOne(x.message);
  }

  /** The bytes of the batches are the frames of the messages. */
  lemma {:induction false} WireIsFrames(xs: seq<Send>)
    ensures WireBytes(Map(BatchOf, xs)) == Frames(Messages(xs))
  {
    if xs != [] {
      var rest := xs[1..];
      assert Map(BatchOf, xs) == [BatchOf(xs[0])] + Map(BatchOf, rest);
      assert Messages(xs)[1..] == Messages(rest);
      WireIsFrames(rest);
      WireBytesAppend([BatchOf(xs[0])], Map(BatchOf, rest));
      WireBytesOne(BatchOf(xs[0]));
      BatchIsFrame(xs[0]);
    }
  }

  /** Up to the first failure the link carries the completed batches and then the part of the
      outstanding one that has been transmitted. */
  predicate SenderInv(s: System) {
    && W.Inv(s.writer)
    && s.writer.log.scheduled == Map(BatchOf, s.sends)
    && s.progress <= |FrontBytes(s.writer)|
    && s.clean <= s.sent
    && s.clean <= WireBytes(s.writer.log.accepted)
    && (s.writer.log.errors == 0 ==>
          s.clean == s.sent == WireBytes(s.writer.log.completed) + FrontBytes(s.writer)[..s.progress])
  }

  lemma AcceptedWire(w: W.State)
    requires W.Inv(w)
    ensures WireBytes(w.log.completed) + FrontBytes(w) <= WireBytes(w.log.accepted)
  {
    WireBytesAppend(w.log.completed, W.Batches(w.queue));
    if w.inFlight {
      var b := w.queue[0].batch;
      assert W.Batches(w.queue) == [b] + W.Batches(w.queue[1..]);
      WireBytesAppend([b], W.Batches(w.queue[1..]));
      WireBytesOne(b);
      Associative(WireBytes(w.log.completed), BatchBytes(b), WireBytes(W.Batches(w.queue[1..])));
    }
  }

  lemma PrefixTrans(a: seq<byte>, b: seq<byte>, c: seq<byte>)
    requires a <= b && b <= c
    ensures a <= c
  {
  }

  lemma ArrivalStep(w: W.State, b: W.Batch)
    requires w.inFlight ==> w.queue != []
    ensures var r := W.QueueBatchWrite(w, b);
            && r.log.completed == w.log.completed && r.log.errors == w.log.errors && r.log.scheduled == w.log.scheduled
            && (w.inFlight ==> FrontBytes(r) == FrontBytes(w))
            && WireBytes(w.log.accepted) <= WireBytes(r.log.accepted)
  {
    WireBytesAppend(w.log.accepted, [b]);
  }

  /** Every handler of the writer except writeDone leaves the outstanding write and the completed
      batches alone and only adds to the accepted ones. */
  lemma WriterStep(w: W.State, e: W.Event)
    requires W.Inv(w) && !e.WriteDone?
    ensures var r := W.Step(w, e);
            && r.log.completed == w.log.completed && r.log.errors == w.log.errors
            && (w.inFlight ==> FrontBytes(r) == FrontBytes(w))
            && WireBytes(w.log.accepted) <= WireBytes(r.log.accepted)
  {
    if e.RunPosted? && w.posted != [] {
      ArrivalStep(w.(posted := w.posted[1..]), w.posted[0]);
    }
  }

  lemma WriterEventKeepsSender(s: System, e: W.Event)
    requires SenderInv(s) && !e.WriteDone? && !e.Schedule?
    ensures SenderInv(s.(writer := W.Step(s.writer, e)))
  {
    WriterStep(s.writer, e);
    W.StepKeepsInv(s.writer, e);
    PrefixTrans(s.clean, WireBytes(s.writer.log.accepted), WireBytes(W.Step(s.writer, e).log.accepted));
    assert W.Step(s.writer, e).log.scheduled == s.writer.log.scheduled;
    if !s.writer.inFlight {
      assert s.progress == 0;
    }
  }

  lemma ProduceKeepsSender(s: System, x: Send)
    requires SenderInv(s)
    ensures SenderInv(Step(s, Produce(x)))
  {
    W.StepKeepsInv(s.writer, W.Schedule(BatchOf(x)));
    assert Map(BatchOf, s.sends + [x]) == Map(BatchOf, s.sends) + [BatchOf(x)];
  }

  lemma TransmitKeepsSender(s: System, n: nat)
    requires SenderInv(s)
    ensures SenderInv(Step(s, Transmit(n)))
  {
    var r := Step(s, Transmit(n));
    var bytes := FrontBytes(s.writer);
    if s.writer.log.errors == 0 {
      var done := WireBytes(s.writer.log.completed);
      assert bytes[..s.progress] + bytes[s.progress..r.progress] == bytes[..r.progress];
      Associative(done, bytes[..s.progress], bytes[s.progress..r.progress]);
      AcceptedWire(s.writer);
      assert done + bytes[..r.progress] <= done + bytes;
    }
  }

  lemma WrittenKeepsSender(s: System, ok: bool)
    requires SenderInv(s)
    ensures SenderInv(Step(s, Written(ok)))
  {
    var r := Step(s, Written(ok));
    if r != s {
      var b := s.writer.queue[0].batch;
      W.StepKeepsInv(s.writer, W.WriteDone(ok));
      assert r.writer.log.accepted == s.writer.log.accepted;
      if r.writer.log.errors == 0 {
        WireBytesAppend(s.writer.log.completed, [b]);
        WireBytesOne(b);
        assert FrontBytes(s.writer)[..s.progress] == BatchBytes(b);
        assert FrontBytes(r.writer)[..0] == [];
        assert r.clean + [] == r.clean;
      }
    }
  }

  lemma StepKeepsSender(s: System, e: Event)
    requires SenderInv(s)
    ensures SenderInv(Step(s, e))
  {
    match e
    case Produce(x) => ProduceKeepsSender(s, x);
    case Writer(we) =>
      if !we.Schedule? && !we.WriteDone? {
        WriterEventKeepsSender(s, we);
      }
    case Transmit(n) => TransmitKeepsSender(s, n);
    case Written(ok) => WrittenKeepsSender(s, ok);
    case StartReading =>
    case Receive(_) =>
    case ReceiveError(_) =>
  }

  // ---------------------------------------------------------------- the receiving side

  /** The reader has one read sequence, that of the message client, on a prefix of the link. */
  ghost predicate ReceiverInv(s: System, wanted: pos) {
    && R.Inv(s.reader)
    && R.Refines(OnRead, s.reader)
    && s.reader.log.received <= s.sent
    && (if s.reader.phase.Posted?
        then s.reader.log.started == [] && s.reader.log.received == [] && s.reader.pendingTask == Entry(wanted)
        else && |s.reader.log.started| == 1 && s.reader.log.started[0].entry == Entry(wanted)
             && (s.reader.log.started[0].failedAt.Some? ==> s.reader.log.errors > 0))
  }

  lemma NextContinues(s: System, n: nat)
    requires s.reader.log.received <= s.sent
    ensures s.reader.log.received + Next(s, n) <= s.sent
  {
    var m := |s.reader.log.received|;
    assert s.sent[..m] + Next(s, n) == s.sent[..m + |Next(s, n)|];
  }

  lemma StepKeepsReceiver(s: System, e: Event, wanted: pos)
    requires ReceiverInv(s, wanted)
    ensures ReceiverInv(Step(s, e), wanted)
  {
    if e.StartReading? {
      ReaderStepKeepsReceiver(s, R.RunPosted, wanted);
    } else if e.Receive? {
      NextContinues(s, e.n);
      ReaderStepKeepsReceiver(s, R.Arrive(Next(s, e.n)), wanted);
    } else if e.ReceiveError? {
      NextContinues(s, e.n);
      ReaderStepKeepsReceiver(s, R.Fail(Next(s, e.n)), wanted);
    }
  }

  lemma ReaderStepKeepsReceiver(s: System, e: R.Event<Client>, wanted: pos)
    requires ReceiverInv(s, wanted) && !e.Schedule?
    requires e.Arrive? || e.Fail? ==> s.reader.log.received + e.bytes <= s.sent
    ensures ReceiverInv(s.(reader := R.Step(OnRead, s.reader, e)), wanted)
  {
    R.StepKeepsInv(OnRead, s.reader, e);
    R.StepRefines(OnRead, s.reader, e);
    if e.RunPosted? && s.reader.phase.Posted? {
      R.DoReadKeepsInv(OnRead, R.Start(s.reader));
    } else if e.Arrive? && s.reader.phase.Waiting? && |e.bytes| >= s.reader.phase.deficit {
      R.DoReadKeepsInv(OnRead, R.Receive(s.reader, e.bytes));
    }
  }

  lemma {:induction false} RunKeepsInv(t0: int, wanted: pos, es: seq<Event>)
    ensures SenderInv(Run(Init(t0, wanted), es)) && ReceiverInv(Run(Init(t0, wanted), es), wanted)
  {
    if es != [] {
      var s := Run(Init(t0, wanted), es[..|es| - 1]);
      RunKeepsInv(t0, wanted, es[..|es| - 1]);
      StepKeepsSender(s, es[|es| - 1]);
      StepKeepsReceiver(s, es[|es| - 1], wanted);
    }
  }

  // ---------------------------------------------------------------- the theorems

  /** How many bytes the client's read sequence has been shown. */
  function Seen(s: System): nat {
    var started := s.reader.log.started;
    if started == [] then 0
    else if started[0].failedAt.Some? then started[0].failedAt.value
    else |s.reader.log.received|
  }

  lemma ReaderParses(s: System, wanted: pos)
    requires ReceiverInv(s, wanted)
    ensures Seen(s) <= |s.reader.log.received|
    ensures s.reader.log.calls == R.Parse(OnRead, Entry(wanted), s.reader.log.received[..Seen(s)]).calls
  {
    var all := s.reader.log.received;
    var started := s.reader.log.started;
    if started == [] {
      assert all[..0] == [];
    } else {
      var q := started[0];
      assert started == [q] && started[..0] == [];
      var p := R.Parsed([], R.Finish, all);
      assert R.ParseAll(OnRead, started[..0], all) == p;
      assert R.ParseAll(OnRead, started, all) == R.Continue(OnRead, p, q, |all|);
      assert all[..|all|] == all;
    }
  }

  /** All bytes from before the first write failure are a prefix of the frames of all messages. */
  lemma CleanIsFramed(s: System)
    requires SenderInv(s)
    ensures s.clean <= Frames(Messages(s.sends))
  {
    var accepted, scheduled := s.writer.log.accepted, s.writer.log.scheduled;
    assert scheduled == accepted + scheduled[|accepted|..];
    WireBytesAppend(accepted, scheduled[|accepted|..]);
    WireIsFrames(s.sends);
    PrefixTrans(s.clean, WireBytes(accepted), WireBytes(scheduled));
  }

  /** Those of the messages that come from one producer, `ms` being messages of the first of `xs`. */
  function Own(p: nat, xs: seq<Send>, ms: seq<seq<byte>>): seq<seq<byte>>
    requires |ms| <= |xs|
  {
    var n := |ms| - 1;
    if ms == [] then [] else Own(p, xs, ms[..n]) + if xs[n].producer == p then [ms[n]] else []
  }

  lemma {:induction false} OwnPrefix(p: nat, xs: seq<Send>, ms: seq<seq<byte>>, k: nat)
    requires k <= |ms| <= |xs|
    ensures Own(p, xs, ms[..k]) <= Own(p, xs, ms)
  {
    if k < |ms| {
      OwnPrefix(p, xs, ms[..|ms| - 1], k);
      assert ms[..|ms| - 1][..k] == ms[..k];
    } else {
      assert ms[..k] == ms;
    }
  }

  /** How many of the bytes that the client has been shown are from before the first write failure. */
  function CleanSeen(s: System): nat { Min(Seen(s), |s.clean|) }

  /** The number of messages, of those a client wants, that are complete in these bytes. */
  function DeliveredCount(s: System, wanted: pos): nat {
    Min(wanted, Complete(Messages(s.sends), CleanSeen(s)))
  }

  lemma AcceptedIsFramed(s: System)
    requires SenderInv(s)
    ensures |s.writer.log.accepted| <= |s.sends|
    ensures WireBytes(s.writer.log.accepted) == Frames(Messages(s.sends)[..|s.writer.log.accepted|])
  {
    var n := |s.writer.log.accepted|;
    assert s.writer.log.accepted == s.writer.log.scheduled[..n] == Map(BatchOf, s.sends[..n]);
    WireIsFrames(s.sends[..n]);
    assert Messages(s.sends[..n]) == Messages(s.sends)[..n];
  }

  lemma CommonPrefix(a: seq<byte>, b: seq<byte>, all: seq<byte>, m: nat)
    requires a <= all && b <= all && m <= |a| && m <= |b|
    ensures a[..m] <= b
  {
    assert a[..m] == all[..m] == b[..m];
  }

  lemma CutAt(a: seq<byte>, m: nat, n: nat)
    requires m <= n <= |a|
    ensures a[..n] == a[..m] + a[m..n]
  {
  }

  /** The bytes that the client has been shown are clean ones and then any others. */
  lemma ShownBytes(s: System, wanted: pos)
    requires SenderInv(s) && ReceiverInv(s, wanted)
    ensures CleanSeen(s) <= Seen(s) <= |s.reader.log.received|
    ensures s.reader.log.received[..CleanSeen(s)] <= Frames(Messages(s.sends))
    ensures s.reader.log.received[..Seen(s)]
         == s.reader.log.received[..CleanSeen(s)] + s.reader.log.received[CleanSeen(s)..Seen(s)]
  {
    ReaderParses(s, wanted);
    CleanIsFramed(s);
    CommonPrefix(s.reader.log.received, s.clean, s.sent, CleanSeen(s));
    PrefixTrans(s.reader.log.received[..CleanSeen(s)], s.clean, Frames(Messages(s.sends)));
    CutAt(s.reader.log.received, CleanSeen(s), Seen(s));
  }

  /** Further bytes only add to what the client has been given. */
  lemma MoreBytesMoreMessages(wanted: pos, a: seq<byte>, b: seq<byte>)
    ensures Delivered(R.Parse(OnRead, Entry(wanted), a).calls) <= Delivered(R.Parse(OnRead, Entry(wanted), a + b).calls)
  {
    var p := R.Parse(OnRead, Entry(wanted), a);
    R.ParseAppend(OnRead, Entry(wanted), a, b);
    DeliveredAppend(p.calls, R.Parse(OnRead, p.task, p.rest + b).calls);
  }

  lemma FirstMessages(xs: seq<Send>, k: nat)
    requires k <= |xs|
    ensures Messages(xs)[..k] == Messages(xs[..k])
  {
  }

  /** What the client has been given from the clean bytes; what it has been given in all goes on from
      there, and is no more if it has been shown clean bytes only. */
  lemma ClientParsesClean(s: System, wanted: pos)
    requires SenderInv(s) && ReceiverInv(s, wanted)
    ensures DeliveredCount(s, wanted) <= |s.sends|
    ensures Messages(s.sends[..DeliveredCount(s, wanted)]) <= Delivered(s.reader.log.calls)
    ensures Seen(s) <= |s.clean| ==>
              Delivered(s.reader.log.calls) == Messages(s.sends[..DeliveredCount(s, wanted)])
  {
    var m, n := CleanSeen(s), Seen(s);
    var received := s.reader.log.received;
    ReaderParses(s, wanted);
    ShownBytes(s, wanted);
    ParseFrames(wanted, Messages(s.sends), received[..m]);
    FirstMessages(s.sends, DeliveredCount(s, wanted));
    MoreBytesMoreMessages(wanted, received[..m], received[m..n]);
  }

  /** Every producer's messages arrive in the order in which it has sent them. */
  ghost predicate OwnInOrder(xs: seq<Send>, delivered: seq<seq<byte>>) {
    |delivered| <= |xs| && forall p: nat :: Own(p, xs, delivered) <= Own(p, xs, Messages(xs))
  }

  lemma FirstAreInOrder(xs: seq<Send>, delivered: seq<seq<byte>>, k: nat)
    requires k <= |xs| && Messages(xs[..k]) <= delivered
    ensures OwnInOrder(xs, delivered[..k])
  {
    assert delivered[..k] == Messages(xs[..k]);
    FirstMessages(xs, k);
    forall p: nat ensures Own(p, xs, delivered[..k]) <= Own(p, xs, Messages(xs)) {
      OwnPrefix(p, xs, Messages(xs), k);
    }
  }

  /** End to end: whatever the interleaving of the producers, the deadlines, the cutting of the bytes
      and the errors, the client has been given, first of all, exactly the messages that are complete in
      the bytes it has been shown from before the first write failure: the first k scheduled ones, all
      of them accepted by the writer, each producer's own in their order. Nothing else has been
      delivered as long as it has been shown no later bytes. */
  lemma MessagesArriveInOrder(t0: int, wanted: pos, es: seq<Event>)
    ensures var s := Run(Init(t0, wanted), es);
            var k := DeliveredCount(s, wanted);
            && k <= |s.writer.log.accepted| <= |s.sends|
            && Messages(s.sends[..k]) <= Delivered(s.reader.log.calls)
            && (Seen(s) <= |s.clean| ==> Delivered(s.reader.log.calls) == Messages(s.sends[..k]))
            && OwnInOrder(s.sends, Delivered(s.reader.log.calls)[..k])
  {
    RunKeepsInv(t0, wanted, es);
    var s := Run(Init(t0, wanted), es);
    var k := DeliveredCount(s, wanted);
    ClientParsesClean(s, wanted);
    AcceptedIsFramed(s);
    CompleteWithin(Messages(s.sends), |s.writer.log.accepted|, CleanSeen(s));
    FirstAreInOrder(s.sends, Delivered(s.reader.log.calls), k);
  }

  /** Once the client has been shown the bytes of all accepted batches, timeouts or not, it has been
      given exactly the accepted messages. */
  lemma AcceptedMessagesArrive(t0: int, wanted: pos, es: seq<Event>)
    requires var s := Run(Init(t0, wanted), es);
             && Seen(s) <= |s.clean| && Seen(s) == |WireBytes(s.writer.log.accepted)|
             && wanted >= |s.writer.log.accepted|
    ensures var s := Run(Init(t0, wanted), es);
            && |s.writer.log.accepted| <= |s.sends|
            && Delivered(s.reader.log.calls) == Messages(s.sends[..|s.writer.log.accepted|])
  {
    RunKeepsInv(t0, wanted, es);
    var s := Run(Init(t0, wanted), es);
    ClientParsesClean(s, wanted);
    AcceptedIsFramed(s);
    CompleteWithin(Messages(s.sends), |s.writer.log.accepted|, Seen(s));
  }

  /** Nothing is left to do: all handlers have run, the queue is empty and all bytes have arrived. */
  predicate Quiet(s: System) {
    && s.writer.posted == [] && s.writer.queue == []
    && s.reader.log.received == s.sent
    && !s.reader.phase.Posted?
  }

  /** When all is quiet and there was neither a timeout nor an error, every message has arrived. */
  lemma AllMessagesArrive(t0: int, wanted: pos, es: seq<Event>)
    requires var s := Run(Init(t0, wanted), es);
             && Quiet(s) && !s.writer.timeoutReached && s.writer.log.errors == 0 && s.reader.log.errors == 0
             && wanted >= |s.sends|
    ensures var s := Run(Init(t0, wanted), es);
            Delivered(s.reader.log.calls) == Messages(s.sends)
  {
    var s := Run(Init(t0, wanted), es);
    RunKeepsInv(t0, wanted, es);
    assert W.Batches(s.writer.queue) == [];
    assert s.writer.log.completed == s.writer.log.accepted == s.writer.log.scheduled;
    AcceptedMessagesArrive(t0, wanted, es);
    assert s.sends[..|s.sends|] == s.sends;
  }

  /** Reader and writer never wait for each other: as long as no write has failed, what the waiting
      reader is missing is contained in the accepted batches whose bytes it has not received yet,
      unless it has received all of them. */
  lemma ReaderNeverStarves(t0: int, wanted: pos, es: seq<Event>)
    requires Run(Init(t0, wanted), es).writer.log.errors == 0
    ensures var s := Run(Init(t0, wanted), es);
            var accepted := WireBytes(s.writer.log.accepted);
            && s.reader.log.received <= accepted
            && (s.reader.phase.Waiting? ==>
                  || s.reader.log.received == accepted
                  || s.reader.phase.deficit <= |accepted| - |s.reader.log.received|)
  {
    RunKeepsInv(t0, wanted, es);
    var s := Run(Init(t0, wanted), es);
    var n := |s.writer.log.accepted|;
    var received := s.reader.log.received;
    AcceptedIsFramed(s);
    assert Messages(s.sends)[..n] == Messages(s.sends[..n]);
    PrefixTrans(received, s.clean, WireBytes(s.writer.log.accepted));
    if s.reader.phase.Waiting? && received != WireBytes(s.writer.log.accepted) {
      WaitingReaderParses(s, wanted);
      DeficitWithinFrames(wanted, Messages(s.sends[..n]), received);
    }
  }

  lemma WaitingReaderParses(s: System, wanted: pos)
    requires ReceiverInv(s, wanted) && s.reader.phase.Waiting?
    ensures var p := R.Parse(OnRead, Entry(wanted), s.reader.log.received);
            p.task == s.reader.pendingTask && p.rest == s.reader.buffer
  {
    var started := s.reader.log.started;
    assert started == [started[0]] && started[..0] == [];
    var p := R.Parsed([], R.Finish, s.reader.log.received);
    assert R.ParseAll(OnRead, started[..0], s.reader.log.received) == p;
    assert R.ParseAll(OnRead, started, s.reader.log.received) == R.Begin(OnRead, p, Entry(wanted));
  }
}
