/** Progress of the composed system: when everything that has been scheduled can still arrive
    (src/async_writer.cpp:46-144, src/async_reader.cpp:15-97, test/test_messages.cpp:298-423). */
module Progress {
  import opened Common
  import opened Framing
  import opened EndToEnd
  import W = WriteQueue
  import R = ReadSequence

  ghost predicate NoProduce(es: seq<Event>) {
    forall k :: 0 <= k < |es| ==> !es[k].Produce?
  }

  lemma {:induction false} RunAppend(s: System, a: seq<Event>, b: seq<Event>)
    ensures Run(s, a + b) == Run(Run(s, a), b)
  {
    if b == [] {
      assert a + b == a;
    } else {
      var n := |b| - 1;
      assert (a + b)[..|a + b| - 1] == a + b[..n];
      RunAppend(s, a, b[..n]);
    }
  }

  lemma RunOne(s: System, e: Event)
    ensures Run(s, [e]) == Step(s, e)
  {
    assert [e][..0] == [];
    assert Run(s, [e][..0]) == s;
  }

  /** Some batch that is still posted has missed its deadline already. */
  predicate LatePosted(w: W.State) {
    exists i :: 0 <= i < |w.posted| && W.TooLate(w.posted[i], w.now)
  }

  predicate NoErrors(s: System) {
    !s.writer.timeoutReached && s.writer.log.errors == 0 && s.reader.log.errors == 0
  }

  ghost predicate Sound(s: System, wanted: pos) {
    SenderInv(s) && ReceiverInv(s, wanted) && NoErrors(s) && !LatePosted(s.writer)
  }

  // ---------------------------------------------------------------- the writer finishes

  lemma AcceptOne(s: System, wanted: pos)
    requires Sound(s, wanted) && s.writer.posted != []
    ensures var r := Step(s, Writer(W.RunPosted));
            && Sound(r, wanted) && r.sends == s.sends && r.reader == s.reader
            && r.writer.posted == s.writer.posted[1..] && |r.writer.queue| == |s.writer.queue| + 1
  {
    var w := s.writer;
    var r := Step(s, Writer(W.RunPosted));
    StepKeepsSender(s, Writer(W.RunPosted));
    StepKeepsReceiver(s, Writer(W.RunPosted), wanted);
    assert !W.TooLate(w.posted[0], w.now);
    assert forall i :: 0 <= i < |r.writer.posted| ==> r.writer.posted[i] == w.posted[i + 1];
  }

  lemma TransmitFront(s: System, wanted: pos)
    requires Sound(s, wanted)
    ensures var n := |FrontBytes(s.writer)|;
            var r := Step(s, Transmit(n));
            && Sound(r, wanted) && r.sends == s.sends && r.reader == s.reader && r.writer == s.writer
            && r.progress == n
  {
    StepKeepsSender(s, Transmit(|FrontBytes(s.writer)|));
    StepKeepsReceiver(s, Transmit(|FrontBytes(s.writer)|), wanted);
  }

  lemma CompleteFront(s: System, wanted: pos)
    requires Sound(s, wanted) && s.writer.queue != [] && s.progress == |FrontBytes(s.writer)|
    ensures var r := Step(s, Written(true));
            && Sound(r, wanted) && r.sends == s.sends && r.reader == s.reader
            && r.writer.posted == s.writer.posted && r.writer.queue == s.writer.queue[1..]
  {
    StepKeepsSender(s, Written(true));
    StepKeepsReceiver(s, Written(true), wanted);
    assert !W.Stalled(s.writer);
  }

  lemma SendFront(s: System, wanted: pos)
    requires Sound(s, wanted) && s.writer.queue != []
    ensures var r := Step(Step(s, Transmit(|FrontBytes(s.writer)|)), Written(true));
            && Sound(r, wanted) && r.sends == s.sends && r.reader == s.reader
            && r.writer.posted == s.writer.posted && |r.writer.queue| == |s.writer.queue| - 1
  {
    TransmitFront(s, wanted);
    CompleteFront(Step(s, Transmit(|FrontBytes(s.writer)|)), wanted);
  }

  lemma RunCons(s: System, e: Event, es: seq<Event>)
    ensures Run(s, [e] + es) == Run(Step(s, e), es)
  {
    RunOne(s, e);
    RunAppend(s, [e], es);
  }

  lemma {:induction false} WriterFinishes(s: System, wanted: pos) returns (later: seq<Event>)
    requires Sound(s, wanted)
    ensures NoProduce(later)
    ensures var r := Run(s, later);
            && Sound(r, wanted) && r.sends == s.sends && r.reader == s.reader
            && r.writer.posted == [] && r.writer.queue == []
    decreases 2 * |s.writer.posted| + |s.writer.queue|
  {
    later := [];
    if s.writer.posted != [] {
      AcceptOne(s, wanted);
      later := WriterFinishes(Step(s, Writer(W.RunPosted)), wanted);
      RunCons(s, Writer(W.RunPosted), later);
      later := [Writer(W.RunPosted)] + later;
    } else if s.writer.queue != [] {
      var transmit := Transmit(|FrontBytes(s.writer)|);
      SendFront(s, wanted);
      later := WriterFinishes(Step(Step(s, transmit), Written(true)), wanted);
      RunCons(Step(s, transmit), Written(true), later);
      later := [Written(true)] + later;
      RunCons(s, transmit, later);
      later := [transmit] + later;
    }
  }

  // ---------------------------------------------------------------- the reader finishes

  /** All that has been scheduled is on the link. */
  lemma AllSent(s: System, wanted: pos)
    requires Sound(s, wanted) && s.writer.posted == [] && s.writer.queue == []
    ensures s.sent == Frames(Messages(s.sends))
  {
    assert W.Batches(s.writer.queue) == [];
    assert s.writer.log.completed == s.writer.log.accepted == s.writer.log.scheduled;
    WireIsFrames(s.sends);
  }

  lemma ReaderStarts(s: System, wanted: pos)
    requires Sound(s, wanted) && s.reader.phase.Posted?
    ensures var r := Step(s, StartReading);
            Sound(r, wanted) && r.writer == s.writer && r.sends == s.sends && !r.reader.phase.Posted?
  {
    StepKeepsSender(s, StartReading);
    StepKeepsReceiver(s, StartReading, wanted);
    R.DoReadKeepsInv(OnRead, R.Start(s.reader));
  }

  /** A reader that does not wait has been given as many messages as its client wants. */
  lemma IdleReaderHasAll(s: System, wanted: pos)
    requires Sound(s, wanted) && s.reader.phase.Idle? && wanted >= |s.sends|
    requires s.sent == Frames(Messages(s.sends))
    ensures s.reader.log.received == s.sent
  {
    var started := s.reader.log.started;
    var received := s.reader.log.received;
    assert started == [started[0]] && started[..0] == [];
    var p := R.Parsed([], R.Finish, received);
    assert R.ParseAll(OnRead, started[..0], received) == p;
    assert R.ParseAll(OnRead, started, received) == R.Begin(OnRead, p, Entry(wanted));
    FinishedIsWhole(wanted, Messages(s.sends), received);
  }

  lemma ArrivalCompletes(r: R.State<Client>, bytes: seq<byte>)
    requires R.Inv(r) && r.phase.Waiting? && |bytes| >= r.phase.deficit
    ensures var t := R.Step(OnRead, r, R.Arrive(bytes));
            !t.phase.Posted? && t.log.received == r.log.received + bytes && t.log.errors == r.log.errors
  {
    R.DoReadKeepsInv(OnRead, R.Receive(r, bytes));
  }

  /** The next |s.sent| bytes are all that is left. */
  lemma NextIsRest(s: System)
    requires s.reader.log.received <= s.sent
    ensures s.reader.log.received + Next(s, |s.sent|) == s.sent
  {
    assert s.sent == s.reader.log.received + s.sent[|s.reader.log.received|..];
  }

  lemma DeficitWithinRest(s: System, wanted: pos)
    requires Sound(s, wanted) && s.reader.phase.Waiting?
    requires s.sent == Frames(Messages(s.sends)) && s.reader.log.received != s.sent
    ensures s.reader.phase.deficit <= |s.sent| - |s.reader.log.received|
  {
    WaitingReaderParses(s, wanted);
    DeficitWithinFrames(wanted, Messages(s.sends), s.reader.log.received);
  }

  lemma ReceiveAll(s: System, wanted: pos)
    requires Sound(s, wanted) && s.reader.phase.Waiting?
    requires s.sent == Frames(Messages(s.sends)) && s.reader.log.received != s.sent
    ensures var r := Step(s, Receive(|s.sent|));
            && r.writer == s.writer && r.sends == s.sends && NoErrors(r)
            && !r.reader.phase.Posted? && r.reader.log.received == r.sent
  {
    NextIsRest(s);
    DeficitWithinRest(s, wanted);
    ArrivalCompletes(s.reader, Next(s, |s.sent|));
  }

  lemma ReaderFinishes(s: System, wanted: pos) returns (later: seq<Event>)
    requires Sound(s, wanted) && s.writer.posted == [] && s.writer.queue == [] && wanted >= |s.sends|
    ensures NoProduce(later)
    ensures var r := Run(s, later);
            Quiet(r) && NoErrors(r) && r.sends == s.sends
    decreases s.reader.phase.Posted?
  {
    AllSent(s, wanted);
    if s.reader.phase.Posted? {
      ReaderStarts(s, wanted);
      var rest := ReaderFinishes(Step(s, StartReading), wanted);
      later := [StartReading] + rest;
      RunCons(s, StartReading, rest);
    } else if s.reader.log.received == s.sent {
      later := [];
    } else {
      if s.reader.phase.Idle? {
        IdleReaderHasAll(s, wanted);
      }
      ReceiveAll(s, wanted);
      later := [Receive(|s.sent|)];
      RunOne(s, Receive(|s.sent|));
    }
  }

  // ---------------------------------------------------------------- a late batch

  /** A batch that is late while it is posted leads to a timeout before the posted ones have all run. */
  predicate Spoiled(w: W.State) {
    w.timeoutReached || LatePosted(w)
  }

  lemma SpoiledStep(w: W.State, e: W.Event)
    requires Spoiled(w)
    ensures Spoiled(W.Step(w, e))
  {
    var r := W.Step(w, e);
    if !w.timeoutReached {
      var i :| 0 <= i < |w.posted| && W.TooLate(w.posted[i], w.now);
      if e.RunPosted? {
        if i > 0 && !r.timeoutReached {
          assert W.TooLate(r.posted[i - 1], r.now);
        }
      } else if !r.timeoutReached {
        assert W.TooLate(r.posted[i], r.now);
      }
    }
  }

  lemma {:induction false} SpoiledRun(s: System, es: seq<Event>)
    requires Spoiled(s.writer)
    ensures Spoiled(Run(s, es).writer)
  {
    if es != [] {
      var r, e := Run(s, es[..|es| - 1]), es[|es| - 1];
      SpoiledRun(s, es[..|es| - 1]);
      match e
      case Produce(x) => SpoiledStep(r.writer, W.Schedule(BatchOf(x)));
      case Writer(we) => SpoiledStep(r.writer, we);
      case Written(ok) => SpoiledStep(r.writer, W.WriteDone(ok));
      case _ =>
    }
  }

  // ---------------------------------------------------------------- the theorem

  /** A continuation, with nothing more scheduled, after which all is quiet without timeout or error and
      the client has been given every message. */
  ghost predicate Completes(s: System, later: seq<Event>) {
    var r := Run(s, later);
    NoProduce(later) && Quiet(r) && NoErrors(r) && Delivered(r.reader.log.calls) == Messages(s.sends)
  }

  /** There is no deadlock: in whatever state the system is, as long as there has been neither a timeout
      nor an error, everything that has been scheduled can still arrive, if and only if no batch that is
      still posted is late already. */
  lemma EverythingCanArrive(t0: int, wanted: pos, es: seq<Event>)
    requires NoErrors(Run(Init(t0, wanted), es)) && wanted >= |Run(Init(t0, wanted), es).sends|
    ensures var s := Run(Init(t0, wanted), es);
            !LatePosted(s.writer) <==> exists later :: Completes(s, later)
  {
    var s := Run(Init(t0, wanted), es);
    RunKeepsInv(t0, wanted, es);
    if LatePosted(s.writer) {
      forall later ensures !Completes(s, later) {
        SpoiledRun(s, later);
      }
    } else {
      var first := WriterFinishes(s, wanted);
      var second := ReaderFinishes(Run(s, first), wanted);
      RunAppend(s, first, second);
      RunAppend(Init(t0, wanted), es, first + second);
      AllMessagesArrive(t0, wanted, es + (first + second));
      assert Completes(s, first + second);
    }
  }
}
