/** Read sequences (src/async_reader.cpp): the simple recursive parse of a byte stream, the reader's
    reactions to events in terms of it, and what holds over all runs and all fragmentations. */
module ReadSequence {
  import opened Common

  /** A read task; the default-constructed one, without a handler, ends the sequence. `S` is what a
      handler has captured, so that a handler function over `S` is an arbitrary automaton. */
  datatype ReadTask<+S> = Finish | ReadTask(handler: S, size: pos)

  type Handlers<!S> = (S, seq<byte>) -> ReadTask<S>

  datatype Call<+S> = Call(handler: S, data: seq<byte>)

  datatype Parsed<+S> = Parsed(calls: seq<Call<S>>, task: ReadTask<S>, rest: seq<byte>)

  /** The reference: hand out exactly the requested bytes while there are enough of them. */
  function Parse<S>(f: Handlers<S>, t: ReadTask<S>, bytes: seq<byte>): Parsed<S>
    decreases |bytes|
  {
    if t.Finish? || |bytes| < t.size then Parsed([], t, bytes)
    else
      var chunk := bytes[..t.size];
      var p := Parse(f, f(t.handler, chunk), bytes[t.size..]);
      p.(calls := [Call(t.handler, chunk)] + p.calls)
  }

  /** The bytes that the handlers have been given, in order. */
  function Consumed<S>(calls: seq<Call<S>>): seq<byte> {
    if calls == [] then [] else calls[0].data + Consumed(calls[1..])
  }

  lemma {:induction false} ConsumedAppend<S>(a: seq<Call<S>>, b: seq<Call<S>>)
    ensures Consumed(a + b) == Consumed(a) + Consumed(b)
  {
    if a == [] {
      assert a + b == b;
    } else {
      assert (a + b)[1..] == a[1..] + b;
      ConsumedAppend(a[1..], b);
    }
  }

  lemma ConsumedCons<S>(c: Call<S>, calls: seq<Call<S>>, rest: seq<byte>)
    ensures Consumed([c] + calls) + rest == c.data + (Consumed(calls) + rest)
  {
    Cons(c, calls);
    Associative(c.data, Consumed(calls), rest);
  }

  /** The parse stops only at the end of the sequence or when the next task needs more bytes than are
      left. */
  lemma {:induction false} ParseStops<S>(f: Handlers<S>, t: ReadTask<S>, bytes: seq<byte>)
    ensures var p := Parse(f, t, bytes); p.task.Finish? || |p.rest| < p.task.size
    decreases |bytes|
  {
    if t.ReadTask? && |bytes| >= t.size {
      ParseStops(f, f(t.handler, bytes[..t.size]), bytes[t.size..]);
    }
  }

  /** No byte is lost or duplicated. */
  lemma {:induction false} ParseConserves<S>(f: Handlers<S>, t: ReadTask<S>, bytes: seq<byte>)
    ensures Consumed(Parse(f, t, bytes).calls) + Parse(f, t, bytes).rest == bytes
    decreases |bytes|
  {
    if t.Finish? || |bytes| < t.size {
      assert Parse(f, t, bytes).calls == [];
    } else {
      var chunk, tail := bytes[..t.size], bytes[t.size..];
      var p := Parse(f, f(t.handler, chunk), tail);
      ParseConserves(f, f(t.handler, chunk), tail);
      ConsumedCons(Call(t.handler, chunk), p.calls, p.rest);
      assert chunk + tail == bytes;
    }
  }

  function Resume<S>(f: Handlers<S>, p: Parsed<S>, more: seq<byte>): Parsed<S> {
    var q := Parse(f, p.task, p.rest + more);
    q.(calls := p.calls + q.calls)
  }

  /** Parsing can stop anywhere and be resumed when more bytes have come. */
  lemma {:induction false} ParseAppend<S>(f: Handlers<S>, t: ReadTask<S>, a: seq<byte>, b: seq<byte>)
    ensures Parse(f, t, a + b) == Resume(f, Parse(f, t, a), b)
    decreases |a|
  {
    if t.ReadTask? && |a| >= t.size {
      var chunk := a[..t.size];
      assert (a + b)[..t.size] == chunk && (a + b)[t.size..] == a[t.size..] + b;
      ParseAppend(f, f(t.handler, chunk), a[t.size..], b);
    }
  }

  /** The task that is current after the first i calls. */
  function TaskAfter<S>(f: Handlers<S>, t: ReadTask<S>, calls: seq<Call<S>>, i: nat): ReadTask<S>
    requires i <= |calls|
  {
    if i == 0 then t else f(calls[i - 1].handler, calls[i - 1].data)
  }

  /** The i-th call is of the handler of the task that is current then, with exactly as many bytes as that
      task asks for. */
  ghost predicate FollowsAt<S>(f: Handlers<S>, t: ReadTask<S>, calls: seq<Call<S>>, i: nat)
    requires i < |calls|
  {
    var now := TaskAfter(f, t, calls, i);
    now.ReadTask? && calls[i].handler == now.handler && |calls[i].data| == now.size
  }

  ghost predicate Follows<S>(f: Handlers<S>, t: ReadTask<S>, calls: seq<Call<S>>) {
    forall i: nat :: i < |calls| ==> FollowsAt(f, t, calls, i)
  }

  lemma TaskAfterCons<S>(f: Handlers<S>, t: ReadTask<S>, c: Call<S>, calls: seq<Call<S>>, i: nat)
    requires i <= |calls|
    ensures TaskAfter(f, t, [c] + calls, i + 1) == TaskAfter(f, f(c.handler, c.data), calls, i)
  {
    if i > 0 {
      assert ([c] + calls)[i] == calls[i - 1];
    }
  }

  lemma FollowsCons<S>(f: Handlers<S>, t: ReadTask<S>, c: Call<S>, calls: seq<Call<S>>)
    requires t.ReadTask? && c.handler == t.handler && |c.data| == t.size
    requires Follows(f, f(c.handler, c.data), calls)
    ensures Follows(f, t, [c] + calls)
  {
    forall i: nat | i < |[c] + calls| ensures FollowsAt(f, t, [c] + calls, i) {
      if i > 0 {
        TaskAfterCons(f, t, c, calls, i - 1);
        assert FollowsAt(f, f(c.handler, c.data), calls, i - 1);
        assert ([c] + calls)[i] == calls[i - 1];
      }
    }
  }

  /** The handlers are called in turn, each with exactly the bytes that its task asks for, and what the
      last one returns is the task that is left. */
  lemma {:induction false} ParseFollowsHandlers<S>(f: Handlers<S>, t: ReadTask<S>, bytes: seq<byte>)
    ensures var p := Parse(f, t, bytes);
            Follows(f, t, p.calls) && p.task == TaskAfter(f, t, p.calls, |p.calls|)
    decreases |bytes|
  {
    if t.ReadTask? && |bytes| >= t.size {
      var chunk, tail := bytes[..t.size], bytes[t.size..];
      ParseFollowsHandlers(f, f(t.handler, chunk), tail);
      var calls := Parse(f, f(t.handler, chunk), tail).calls;
      FollowsCons(f, t, Call(t.handler, chunk), calls);
      TaskAfterCons(f, t, Call(t.handler, chunk), calls, |calls|);
    }
  }

  // ---------------------------------------------------------------- the reader's reactions

  /** Idle: nothing outstanding. Posted: scheduleRead has posted its handler. Waiting: an async_read
      with transfer_at_least(deficit) is outstanding. */
  datatype Phase = Idle | Posted | Waiting(deficit: pos)

  /** A read sequence that has started. `failedAt` is set when a read of it fails, to the number of
      bytes that the reader had received before that read. */
  datatype Sequence<+S> = Sequence(entry: ReadTask<S>, failedAt: Option<nat>)

  datatype Log<+S> = Log(
    started: seq<Sequence<S>>,
    received: seq<byte>,         // all bytes that have come from the network
    calls: seq<Call<S>>,         // all calls of read handlers
    alive: nat,                  // calls of connectionAliveCallback
    errors: nat)                 // reads that completed with an error

  datatype State<+S> = State(phase: Phase, pendingTask: ReadTask<S>, buffer: seq<byte>, log: Log<S>)

  datatype Event<+S> =
    | Schedule(handler: S, size: pos)   // scheduleRead
    | RunPosted                         // the posted handler runs
    | Arrive(bytes: seq<byte>)          // the outstanding read completes
    | Fail(bytes: seq<byte>)            // it fails; some bytes may have come before

  function Init<S>(): State<S> {
    State(Idle, Finish, [], Log([], [], [], 0, 0))
  }

  /** doRead on a buffer: everything that can be parsed is parsed at once, then the reader waits for
      the deficit. */
  function DoRead<S>(f: Handlers<S>, s: State<S>): State<S> {
    var p := Parse(f, s.pendingTask, s.buffer);
    State(
      if p.task.ReadTask? && |p.rest| < p.task.size then Waiting(p.task.size - |p.rest|) else Idle,
      p.task, p.rest,
      s.log.(calls := s.log.calls + p.calls, alive := s.log.alive + |p.calls|))
  }

  function Receive<S>(s: State<S>, bytes: seq<byte>): State<S> {
    s.(buffer := s.buffer + bytes, log := s.log.(received := s.log.received + bytes))
  }

  function Start<S>(s: State<S>): State<S> {
    s.(log := s.log.(started := s.log.started + [Sequence(s.pendingTask, None)]))
  }

  /** The current sequence is over because its read has failed; `at` bytes had come before that read. */
  function MarkFailed<S>(s: State<S>, at: nat): State<S> {
    var n := |s.log.started|;
    if n == 0 then s
    else s.(log := s.log.(started := s.log.started[n - 1 := s.log.started[n - 1].(failedAt := Some(at))]))
  }

  /** readDone with an error: the error handler is told, nothing else is started. */
  function ReportError<S>(s: State<S>): State<S> {
    s.(phase := Idle, log := s.log.(errors := s.log.errors + 1))
  }

  /** One step; an event that cannot happen in `s` leaves `s` as it is. A sequence is scheduled only
      when none is active, and a read that succeeds has brought at least the bytes asked for. */
  function Step<S>(f: Handlers<S>, s: State<S>, e: Event<S>): State<S> {
    match e
    case Schedule(handler, size) =>
      if s.phase.Idle? then s.(phase := Posted, pendingTask := ReadTask(handler, size)) else s
    case RunPosted =>
      if s.phase.Posted? then DoRead(f, Start(s)) else s
    case Arrive(bytes) =>
      if s.phase.Waiting? && |bytes| >= s.phase.deficit then DoRead(f, Receive(s, bytes)) else s
    case Fail(bytes) =>
      if s.phase.Waiting?
      then ReportError(MarkFailed(Receive(s, bytes), |s.log.received|)) else s
  }

  function Run<S>(f: Handlers<S>, s: State<S>, es: seq<Event<S>>): State<S> {
    if es == [] then s else Step(f, Run(f, s, es[..|es| - 1]), es[|es| - 1])
  }

  // ---------------------------------------------------------------- every reachable state

  ghost predicate Inv<S>(s: State<S>) {
    && s.log.received == Consumed(s.log.calls) + s.buffer
    && s.log.alive == |s.log.calls|
    && (s.phase.Posted? ==> s.pendingTask.ReadTask?)
    && (s.phase.Waiting? ==> s.pendingTask.ReadTask? && s.phase.deficit == s.pendingTask.size - |s.buffer|)
  }

  lemma DoReadKeepsInv<S>(f: Handlers<S>, s: State<S>)
    requires s.log.received == Consumed(s.log.calls) + s.buffer && s.log.alive == |s.log.calls|
    ensures Inv(DoRead(f, s)) && !DoRead(f, s).phase.Posted?
  {
    var p := Parse(f, s.pendingTask, s.buffer);
    ParseConserves(f, s.pendingTask, s.buffer);
    ParseStops(f, s.pendingTask, s.buffer);
    ConsumedAppend(s.log.calls, p.calls);
    Associative(Consumed(s.log.calls), Consumed(p.calls), p.rest);
  }

  lemma StepKeepsInv<S>(f: Handlers<S>, s: State<S>, e: Event<S>)
    requires Inv(s)
    ensures Inv(Step(f, s, e))
  {
    match e
    case Schedule(_, _) =>
    case RunPosted =>
      DoReadKeepsInv(f, Start(s));
    case Arrive(bytes) =>
      Associative(Consumed(s.log.calls), s.buffer, bytes);
      DoReadKeepsInv(f, Receive(s, bytes));
    case Fail(bytes) =>
      Associative(Consumed(s.log.calls), s.buffer, bytes);
  }

  lemma {:induction false} RunKeepsInv<S>(f: Handlers<S>, s: State<S>, es: seq<Event<S>>)
    requires Inv(s)
    ensures Inv(Run(f, s, es))
  {
    if es != [] {
      RunKeepsInv(f, s, es[..|es| - 1]);
      StepKeepsInv(f, Run(f, s, es[..|es| - 1]), es[|es| - 1]);
    }
  }

  lemma InitInv<S>()
    ensures Inv(Init<S>())
  {
  }

  /** Over any run of sequences, arrivals and errors: the bytes received are the bytes delivered
      followed by the buffer, and every handler call has been announced as a sign of life. */
  lemma ByteConservation<S>(f: Handlers<S>, es: seq<Event<S>>)
    ensures var s := Run(f, Init(), es);
            s.log.received == Consumed(s.log.calls) + s.buffer && s.log.alive == |s.log.calls|
  {
    InitInv<S>();
    RunKeepsInv(f, Init(), es);
  }

  /** Whenever the reader waits for the network, the buffer alone cannot serve the pending task, and
      the read asks for exactly what is missing. */
  lemma {:induction false} WaitsForExactDeficit<S>(f: Handlers<S>, es: seq<Event<S>>)
    ensures var s := Run(f, Init(), es);
            s.phase.Waiting? ==> && s.pendingTask.ReadTask? && |s.buffer| < s.pendingTask.size
                                 && s.phase.deficit == s.pendingTask.size - |s.buffer|
  {
    InitInv<S>();
    RunKeepsInv(f, Init(), es);
  }

  // ---------------------------------------------------------------- what scheduleRead asks for

  /** A read sequence starts with the handler and the size that scheduleRead was given: the handler is
      called at once with exactly that many buffered bytes, or the reader waits for what is missing. */
  lemma ScheduledReadIsServed<S>(f: Handlers<S>, s: State<S>, handler: S, size: pos)
    requires s.phase.Idle?
    ensures var r := Step(f, Step(f, s, Schedule(handler, size)), RunPosted);
            var n := |s.log.calls|;
            if |s.buffer| >= size
            then |r.log.calls| > n && r.log.calls[n] == Call(handler, s.buffer[..size])
            else && r.log.calls == s.log.calls && r.buffer == s.buffer
                 && r.phase == Waiting(size - |s.buffer|) && r.pendingTask == ReadTask(handler, size)
  {
  }

  /** The bytes that end a wait are handed over together with the buffered ones. */
  lemma ArrivalIsServed<S>(f: Handlers<S>, s: State<S>, bytes: seq<byte>)
    requires Inv(s) && s.phase.Waiting?
    ensures var r := Step(f, s, Arrive(bytes));
            var n := |s.log.calls|;
            if |bytes| >= s.phase.deficit
            then && |r.log.calls| > n
                 && r.log.calls[n] == Call(s.pendingTask.handler, (s.buffer + bytes)[..s.pendingTask.size])
            else r == s
  {
  }

  /** The tasks of the scheduleRead calls of a run, in order. */
  function Scheduled<S>(f: Handlers<S>, es: seq<Event<S>>): seq<ReadTask<S>> {
    if es == [] then []
    else
      var before, e := es[..|es| - 1], es[|es| - 1];
      Scheduled(f, before)
      + if e.Schedule? && Run(f, Init(), before).phase.Idle? then [ReadTask(e.handler, e.size)] else []
  }

  function Entries<S>(started: seq<Sequence<S>>): seq<ReadTask<S>> {
    Map((q: Sequence<S>) => q.entry, started)
  }

  /** The read sequences of a run are those that were scheduled, each with its own task, in order; the
      last one may still be waiting for its posted handler. */
  lemma {:induction false} StartedAreScheduled<S>(f: Handlers<S>, es: seq<Event<S>>)
    ensures var s := Run(f, Init(), es);
            Scheduled(f, es) == Entries(s.log.started) + if s.phase.Posted? then [s.pendingTask] else []
  {
    if es != [] {
      var before, e := es[..|es| - 1], es[|es| - 1];
      var s := Run(f, Init(), before);
      StartedAreScheduled(f, before);
      InitInv<S>();
      RunKeepsInv(f, Init(), before);
      StartedStep(f, s, e);
    }
  }

  /** The bytes that the event brings, if a read is outstanding that it can complete. */
  function Brings<S>(s: State<S>, e: Event<S>): seq<byte> {
    if e.Arrive? && s.phase.Waiting? && |e.bytes| >= s.phase.deficit then e.bytes
    else if e.Fail? && s.phase.Waiting? then e.bytes
    else []
  }

  /** All bytes that the reads of a run have brought. */
  function Arrived<S>(f: Handlers<S>, es: seq<Event<S>>): seq<byte> {
    if es == [] then []
    else Arrived(f, es[..|es| - 1]) + Brings(Run(f, Init(), es[..|es| - 1]), es[|es| - 1])
  }

  /** No byte of an arrival is lost, neither one beyond those asked for nor one that came before an error. */
  lemma {:induction false} ReceivedAreArrived<S>(f: Handlers<S>, es: seq<Event<S>>)
    ensures Run(f, Init(), es).log.received == Arrived(f, es)
  {
    if es != [] {
      ReceivedAreArrived(f, es[..|es| - 1]);
      ReceivedStep(f, Run(f, Init(), es[..|es| - 1]), es[|es| - 1]);
    }
  }

  lemma ReceivedStep<S>(f: Handlers<S>, s: State<S>, e: Event<S>)
    ensures Step(f, s, e).log.received == s.log.received + Brings(s, e)
  {
    assert s.log.received + [] == s.log.received;
  }

  function Pending<S>(s: State<S>): seq<ReadTask<S>> {
    Entries(s.log.started) + if s.phase.Posted? then [s.pendingTask] else []
  }

  lemma StartedStep<S>(f: Handlers<S>, s: State<S>, e: Event<S>)
    requires Inv(s)
    ensures Pending(Step(f, s, e)) == Pending(s)
                                    + if e.Schedule? && s.phase.Idle? then [ReadTask(e.handler, e.size)] else []
  {
    var r := Step(f, s, e);
    match e
    case Schedule(_, _) =>
    case RunPosted =>
      if s.phase.Posted? {
        DoReadKeepsInv(f, Start(s));
        assert Entries(r.log.started) == Entries(s.log.started) + [s.pendingTask];
      }
    case Arrive(bytes) =>
      if s.phase.Waiting? && |bytes| >= s.phase.deficit {
        Associative(Consumed(s.log.calls), s.buffer, bytes);
        DoReadKeepsInv(f, Receive(s, bytes));
      }
    case Fail(bytes) =>
      assert Entries(r.log.started) == Entries(s.log.started);
  }

  // ---------------------------------------------------------------- refinement of the simple parse

  /** The next sequence parses what the previous ones have left. */
  function Begin<S>(f: Handlers<S>, p: Parsed<S>, t: ReadTask<S>): Parsed<S> {
    var r := Parse(f, t, p.rest);
    r.(calls := p.calls + r.calls)
  }

  /** A sequence whose last read failed has not parsed the bytes that came with the failure or later,
      the last `late` ones; they are left over too. */
  function Abandon<S>(f: Handlers<S>, p: Parsed<S>, t: ReadTask<S>, late: nat): Parsed<S>
    requires late <= |p.rest|
  {
    var n := |p.rest| - late;
    var r := Begin(f, p.(rest := p.rest[..n]), t);
    Parsed(r.calls, Finish, r.rest + p.rest[n..])
  }

  function Continue<S>(f: Handlers<S>, p: Parsed<S>, q: Sequence<S>, total: nat): Parsed<S> {
    if q.failedAt.None? then Begin(f, p, q.entry)
    else Abandon(f, p, q.entry, if total > q.failedAt.value then Min(|p.rest|, total - q.failedAt.value) else 0)
  }

  /** The reference for several read sequences on one stream of bytes. */
  function ParseAll<S>(f: Handlers<S>, started: seq<Sequence<S>>, bytes: seq<byte>): Parsed<S> {
    if started == [] then Parsed([], Finish, bytes)
    else
      var p := ParseAll(f, started[..|started| - 1], bytes);
      if p.task.Finish? then Continue(f, p, started[|started| - 1], |bytes|) else p
  }

  ghost predicate FailuresWithin<S>(started: seq<Sequence<S>>, n: nat) {
    forall i :: 0 <= i < |started| && started[i].failedAt.Some? ==> started[i].failedAt.value <= n
  }

  lemma BeginAppend<S>(f: Handlers<S>, p: Parsed<S>, t: ReadTask<S>, b: seq<byte>)
    ensures Begin(f, p.(rest := p.rest + b), t) == Resume(f, Begin(f, p, t), b)
  {
    ParseAppend(f, t, p.rest, b);
    var first := Parse(f, t, p.rest);
    var second := Parse(f, first.task, first.rest + b);
    Associative(p.calls, first.calls, second.calls);
  }

  lemma AbandonAppend<S>(f: Handlers<S>, p: Parsed<S>, t: ReadTask<S>, late: nat, b: seq<byte>)
    requires late <= |p.rest|
    ensures var c := Abandon(f, p, t, late);
            Abandon(f, p.(rest := p.rest + b), t, late + |b|) == c.(rest := c.rest + b)
  {
    var n := |p.rest| - late;
    assert (p.rest + b)[..n] == p.rest[..n];
    assert (p.rest + b)[n..] == p.rest[n..] + b;
    var r := Begin(f, p.(rest := p.rest[..n]), t);
    Associative(r.rest, p.rest[n..], b);
  }

  lemma FinishedResume<S>(f: Handlers<S>, c: Parsed<S>, b: seq<byte>)
    requires c.task.Finish?
    ensures Resume(f, c, b) == c.(rest := c.rest + b)
  {
    assert c.calls + [] == c.calls;
  }

  lemma ContinueAppend<S>(f: Handlers<S>, p: Parsed<S>, q: Sequence<S>, n: nat, b: seq<byte>)
    requires q.failedAt.Some? ==> q.failedAt.value <= n
    ensures Continue(f, p.(rest := p.rest + b), q, n + |b|) == Resume(f, Continue(f, p, q, n), b)
  {
    if q.failedAt.Some? {
      var late := if n > q.failedAt.value then Min(|p.rest|, n - q.failedAt.value) else 0;
      AbandonAppend(f, p, q.entry, late, b);
      FinishedResume(f, Abandon(f, p, q.entry, late), b);
    } else {
      BeginAppend(f, p, q.entry, b);
    }
  }

  /** Sequences that are over stay as they were when more bytes come: these only extend the residue. */
  lemma {:induction false} OverStaysOver<S>(f: Handlers<S>, started: seq<Sequence<S>>, a: seq<byte>, b: seq<byte>)
    requires FailuresWithin(started, |a|)
    requires ParseAll(f, started, a).task.Finish?
    ensures var p := ParseAll(f, started, a);
            ParseAll(f, started, a + b) == p.(rest := p.rest + b)
  {
    if started != [] {
      var before, q := started[..|started| - 1], started[|started| - 1];
      var p := ParseAll(f, before, a);
      assert p.task.Finish?;
      OverStaysOver(f, before, a, b);
      ContinueAppend(f, p, q, |a|, b);
      assert ParseAll(f, started, a + b) == Continue(f, p.(rest := p.rest + b), q, |a| + |b|);
      FinishedResume(f, Continue(f, p, q, |a|), b);
    }
  }

  lemma ParseAllAppend<S>(f: Handlers<S>, before: seq<Sequence<S>>, q: Sequence<S>, a: seq<byte>, b: seq<byte>)
    requires FailuresWithin(before, |a|) && q.failedAt.None?
    requires ParseAll(f, before, a).task.Finish? && !ParseAll(f, before + [q], a).task.Finish?
    ensures ParseAll(f, before, a + b).task.Finish?
    ensures ParseAll(f, before + [q], a + b) == Resume(f, ParseAll(f, before + [q], a), b)
  {
    OverStaysOver(f, before, a, b);
    assert (before + [q])[..|before|] == before;
    ContinueAppend(f, ParseAll(f, before, a), q, |a|, b);
  }

  /** What a run has done so far is what ParseAll does with all bytes received. */
  ghost predicate Refines<S>(f: Handlers<S>, s: State<S>) {
    var n := |s.log.started|;
    var p := ParseAll(f, s.log.started, s.log.received);
    && FailuresWithin(s.log.started, |s.log.received|)
    && p.calls == s.log.calls
    && p.rest == s.buffer
    && p.task == (if s.phase.Waiting? then s.pendingTask else Finish)
    && (n > 0 ==> ParseAll(f, s.log.started[..n - 1], s.log.received).task.Finish?)
    && (s.phase.Waiting? ==> n > 0 && s.log.started[n - 1].failedAt.None?)
  }

  lemma StartRefines<S>(f: Handlers<S>, s: State<S>)
    requires Inv(s) && Refines(f, s) && s.phase.Posted?
    ensures Refines(f, Step(f, s, RunPosted))
  {
    var r := Step(f, s, RunPosted);
    assert r.log.started[..|r.log.started| - 1] == s.log.started;
    ParseStops(f, s.pendingTask, s.buffer);
  }

  lemma ArrivalRefines<S>(f: Handlers<S>, s: State<S>, bytes: seq<byte>)
    requires Inv(s) && Refines(f, s) && s.phase.Waiting? && |bytes| >= s.phase.deficit
    ensures Refines(f, Step(f, s, Arrive(bytes)))
  {
    var n := |s.log.started|;
    var before, q := s.log.started[..n - 1], s.log.started[n - 1];
    assert before + [q] == s.log.started;
    ParseAllAppend(f, before, q, s.log.received, bytes);
    ParseStops(f, s.pendingTask, s.buffer + bytes);
  }

  lemma AbandonNow<S>(f: Handlers<S>, p: Parsed<S>, t: ReadTask<S>, b: seq<byte>)
    ensures var c := Begin(f, p, t);
            Abandon(f, p.(rest := p.rest + b), t, |b|) == Parsed(c.calls, Finish, c.rest + b)
  {
    Split(p.rest, b);
  }

  lemma FailureRefines<S>(f: Handlers<S>, s: State<S>, bytes: seq<byte>)
    requires Inv(s) && Refines(f, s) && s.phase.Waiting?
    ensures Refines(f, Step(f, s, Fail(bytes)))
  {
    var n := |s.log.started|;
    var before, q := s.log.started[..n - 1], s.log.started[n - 1];
    var r := Step(f, s, Fail(bytes));
    var p := ParseAll(f, before, s.log.received);
    assert r.log.started[..n - 1] == before;
    OverStaysOver(f, before, s.log.received, bytes);
    AbandonNow(f, p, q.entry, bytes);
    assert r.log.started[n - 1] == Sequence(q.entry, Some(|s.log.received|));
    assert ParseAll(f, r.log.started, r.log.received)
        == Continue(f, p.(rest := p.rest + bytes), r.log.started[n - 1], |r.log.received|);
  }

  /** Fragmentation does not matter, over the whole life of the reader: after any run of successive
      read sequences, errors included, with the network cutting the bytes as it likes, the handler
      calls are those of the simple parse of all received bytes, and so is the position in it. */
  lemma {:induction false} Refinement<S>(f: Handlers<S>, es: seq<Event<S>>)
    ensures Refines(f, Run(f, Init(), es))
  {
    if es != [] {
      var before, e := es[..|es| - 1], es[|es| - 1];
      Refinement(f, before);
      InitInv<S>();
      RunKeepsInv(f, Init(), before);
      StepRefines(f, Run(f, Init(), before), e);
    }
  }

  lemma StepRefines<S>(f: Handlers<S>, s: State<S>, e: Event<S>)
    requires Inv(s) && Refines(f, s)
    ensures Refines(f, Step(f, s, e))
  {
    if e.RunPosted? && s.phase.Posted? {
      StartRefines(f, s);
    } else if e.Arrive? && s.phase.Waiting? && |e.bytes| >= s.phase.deficit {
      ArrivalRefines(f, s, e.bytes);
    } else if e.Fail? && s.phase.Waiting? {
      FailureRefines(f, s, e.bytes);
    }
  }

  /** Two runs of the same sequences on the same bytes are indistinguishable, however differently the
      bytes were cut into arrivals. */
  lemma FragmentationIndependence<S>(f: Handlers<S>, es1: seq<Event<S>>, es2: seq<Event<S>>)
    requires Run(f, Init(), es1).log.started == Run(f, Init(), es2).log.started
    requires Run(f, Init(), es1).log.received == Run(f, Init(), es2).log.received
    ensures Run(f, Init(), es1).log.calls == Run(f, Init(), es2).log.calls
    ensures Run(f, Init(), es1).buffer == Run(f, Init(), es2).buffer
    ensures Run(f, Init(), es1).phase.Waiting? ==>
              && Run(f, Init(), es1).phase == Run(f, Init(), es2).phase
              && Run(f, Init(), es1).pendingTask == Run(f, Init(), es2).pendingTask
  {
    Refinement(f, es1);
    Refinement(f, es2);
    InitInv<S>();
    RunKeepsInv(f, Init(), es1);
    RunKeepsInv(f, Init(), es2);
  }
}
