/** What the writer's handlers do to its state, one atomic step per handler that the io_context
    runs, and what every run of such steps keeps (src/async_writer.cpp). */
module WriteQueue {
  import opened Common

  datatype WriteTask = WriteTask(buffer: seq<byte>, handler: nat)

  datatype Batch = Batch(tasks: seq<WriteTask>, deadline: Option<int>)

  /** A deadline timer owned by a queued batch. `Expired` means that its wait has completed, so that
      the callback is queued in the io_context and a later cancel() no longer reaches it. */
  datatype Timer = Armed(expiry: int) | Expired

  datatype Entry = Entry(batch: Batch, timer: Option<Timer>)

  /** Everything the writer has done so far. */
  datatype Log = Log(
    scheduled: seq<Batch>,           // scheduleWrite calls, in the order of their posts
    accepted: seq<Batch>,            // pushed into the queue
    refused: seq<Batch>,             // dropped because of a timeout
    issued: seq<seq<seq<byte>>>,     // buffer sequences handed to async_write
    completed: seq<Batch>,           // popped by writeDone
    handlers: seq<nat>,              // task handlers called
    timedOut: nat,                   // calls of writeTaskTimeoutHandler
    alive: nat,                      // calls of connectionAliveCallback
    errors: nat)                     // writes that completed with an error

  datatype State = State(
    posted: seq<Batch>,              // posted by scheduleWrite, not yet run
    timeoutReached: bool,
    queue: seq<Entry>,
    inFlight: bool,                  // an async_write is outstanding
    ready: nat,                      // expired deadline callbacks that have not run yet
    now: int,                        // the steady clock
    log: Log)

  datatype Event =
    | Schedule(batch: Batch)         // a producer calls scheduleWrite
    | RunPosted                      // the oldest posted queueBatchWrite runs
    | WriteDone(ok: bool)            // the outstanding async_write completes
    | Expire(i: nat)                 // the timer of the i-th queued batch expires
    | TimerCallback(aborted: bool)   // a deadline callback runs
    | Advance(to: int)               // time passes

  function Init(t0: int): State {
    State([], false, [], false, 0, t0, Log([], [], [], [], [], [], 0, 0, 0))
  }

  // ---------------------------------------------------------------- the handlers

  function TaskBuffer(t: WriteTask): seq<byte> { t.buffer }

  function TaskHandler(t: WriteTask): nat { t.handler }

  /** The buffers of all tasks, in their order. */
  function Buffers(b: Batch): (bs: seq<seq<byte>>)
    ensures |bs| == |b.tasks| && forall i :: 0 <= i < |bs| ==> bs[i] == b.tasks[i].buffer
  {
    Map(TaskBuffer, b.tasks)
  }

  /** The handlers of all tasks, in their order. */
  function BatchHandlers(b: Batch): (hs: seq<nat>)
    ensures |hs| == |b.tasks| && forall i :: 0 <= i < |hs| ==> hs[i] == b.tasks[i].handler
  {
    Map(TaskHandler, b.tasks)
  }

  function EntryBatch(e: Entry): Batch { e.batch }

  function OnTimeoutReached(s: State): State {
    if s.timeoutReached then s
    else s.(timeoutReached := true, log := s.log.(timedOut := s.log.timedOut + 1))
  }

  function DoWrite(s: State): State
    requires s.queue != []
  {
    if s.timeoutReached then s
    else s.(inFlight := true, log := s.log.(issued := s.log.issued + [Buffers(s.queue[0].batch)]))
  }

  predicate TooLate(b: Batch, now: int) {
    b.deadline.Some? && now > b.deadline.value
  }

  function NewTimer(b: Batch): Option<Timer> {
    if b.deadline.Some? then Some(Armed(b.deadline.value)) else None
  }

  function Refuse(s: State, b: Batch): State {
    s.(log := s.log.(refused := s.log.refused + [b]))
  }

  function QueueBatchWrite(s: State, b: Batch): State {
    if s.timeoutReached then Refuse(s, b)
    else if TooLate(b, s.now) then OnTimeoutReached(Refuse(s, b))
    else
      var pushed := s.(queue := s.queue + [Entry(b, NewTimer(b))],
                       log := s.log.(accepted := s.log.accepted + [b]));
      if s.queue == [] then DoWrite(pushed) else pushed
  }

  function CompleteWrite(s: State, ok: bool): State
    requires s.queue != []
  {
    var b := s.queue[0].batch;
    var popped := s.(queue := s.queue[1..], inFlight := false,
                     log := s.log.(completed := s.log.completed + [b],
                                   handlers := s.log.handlers + BatchHandlers(b)));
    if !ok then popped.(log := popped.log.(errors := popped.log.errors + 1))
    else
      var alive := popped.(log := popped.log.(alive := popped.log.alive + 1));
      if alive.queue != [] then DoWrite(alive) else alive
  }

  predicate CanExpire(s: State, i: nat) {
    i < |s.queue| && s.queue[i].timer.Some? && s.queue[i].timer.value.Armed?
    && s.queue[i].timer.value.expiry <= s.now
  }

  /** One step. An event that cannot happen in `s` leaves `s` as it is, so that the sequences of
      events are exactly the runs. */
  function Step(s: State, e: Event): State {
    match e
    case Schedule(b) => s.(posted := s.posted + [b], log := s.log.(scheduled := s.log.scheduled + [b]))
    case RunPosted => if s.posted == [] then s else QueueBatchWrite(s.(posted := s.posted[1..]), s.posted[0])
    case WriteDone(ok) => if s.inFlight && s.queue != [] then CompleteWrite(s, ok) else s
    case Expire(i) =>
      if CanExpire(s, i)
      then s.(queue := s.queue[i := s.queue[i].(timer := Some(Expired))], ready := s.ready + 1) else s
    case TimerCallback(aborted) =>
      if aborted || s.ready == 0 then s else OnTimeoutReached(s.(ready := s.ready - 1))
    case Advance(to) => if to > s.now then s.(now := to) else s
  }

  function Run(s: State, es: seq<Event>): State {
    if es == [] then s else Step(Run(s, es[..|es| - 1]), es[|es| - 1])
  }

  /** The k-th event of the run satisfies `p` in the state in which it happens. */
  ghost predicate HoldsAt(p: (State, Event) -> bool, s: State, es: seq<Event>, k: nat) {
    k < |es| && p(Run(s, es[..k]), es[k])
  }

  lemma HoldsAtSnoc(p: (State, Event) -> bool, s: State, es: seq<Event>, e: Event)
    ensures (exists k: nat :: HoldsAt(p, s, es + [e], k))
        <==> p(Run(s, es), e) || exists k: nat :: HoldsAt(p, s, es, k)
  {
    var all := es + [e];
    assert all[..|es|] == es;
    if p(Run(s, es), e) {
      assert HoldsAt(p, s, all, |es|);
    }
    forall k: nat | k < |es| ensures HoldsAt(p, s, all, k) == HoldsAt(p, s, es, k) {
      assert all[..k] == es[..k];
    }
    if k: nat :| HoldsAt(p, s, all, k) {
      assert k == |es| || HoldsAt(p, s, es, k);
    }
  }

  // ---------------------------------------------------------------- the invariant

  function Batches(q: seq<Entry>): seq<Batch> { Map(EntryBatch, q) }

  function HandlersOf(bs: seq<Batch>): seq<nat> { Flatten(Map(BatchHandlers, bs)) }

  /** Queued work with no write outstanding: nothing will ever restart the queue. */
  predicate Stalled(s: State) {
    s.queue != [] && !s.inFlight
  }

  predicate TimerMatches(e: Entry) {
    && (e.timer.Some? <==> e.batch.deadline.Some?)
    && (e.timer.Some? && e.timer.value.Armed? ==> e.timer.value.expiry == e.batch.deadline.value)
  }

  /** What holds at any moment, also between the completion of one write and the start of the next. */
  predicate Core(s: State) {
    && s.log.scheduled == s.log.accepted + s.log.refused + s.posted
    && (s.log.refused != [] ==> s.timeoutReached)
    && s.log.accepted == s.log.completed + Batches(s.queue)
    && s.log.handlers == HandlersOf(s.log.completed)
    && s.log.timedOut == (if s.timeoutReached then 1 else 0)
    && s.log.alive + s.log.errors == |s.log.completed|
    && forall i :: 0 <= i < |s.queue| ==> TimerMatches(s.queue[i])
  }

  predicate Inv(s: State) {
    && Core(s)
    && (s.inFlight ==> s.queue != [])
    && s.log.issued == Map(Buffers, s.log.completed + if s.inFlight then [s.queue[0].batch] else [])
    && (Stalled(s) ==> s.timeoutReached || s.log.errors > 0)
  }

  lemma HandlersOfSnoc(bs: seq<Batch>, b: Batch)
    ensures HandlersOf(bs + [b]) == HandlersOf(bs) + BatchHandlers(b)
  {
    MapAppend(BatchHandlers, bs, [b]);
    assert Map(BatchHandlers, [b]) == [BatchHandlers(b)];
    FlattenAppend(Map(BatchHandlers, bs), [BatchHandlers(b)]);
    FlattenOne(BatchHandlers(b));
  }

  lemma RefuseKeepsInv(s: State, b: Batch)
    requires Inv(s.(posted := [b] + s.posted))
    requires s.timeoutReached || TooLate(b, s.now)
    ensures Inv(QueueBatchWrite(s, b))
  {
    var a, r := s.log.accepted, s.log.refused;
    Associative(a + r, [b], s.posted);
    Associative(a, r, [b]);
    assert Inv(OnTimeoutReached(Refuse(s, b)));
  }

  lemma QueuePush(q: seq<Entry>, b: Batch)
    requires forall i :: 0 <= i < |q| ==> TimerMatches(q[i])
    ensures var r := q + [Entry(b, NewTimer(b))];
            Batches(r) == Batches(q) + [b] && forall i :: 0 <= i < |r| ==> TimerMatches(r[i])
  {
  }

  lemma PushKeepsCore(s: State, b: Batch)
    requires Core(s.(posted := [b] + s.posted)) && !s.timeoutReached
    ensures Core(s.(queue := s.queue + [Entry(b, NewTimer(b))], log := s.log.(accepted := s.log.accepted + [b])))
  {
    QueuePush(s.queue, b);
    Associative(s.log.completed, Batches(s.queue), [b]);
    Associative(s.log.accepted, [b], s.posted);
    assert s.log.refused == [];
    assert s.log.accepted + [] == s.log.accepted && s.log.accepted + [b] + [] == s.log.accepted + [b];
  }

  lemma DoWriteKeepsInv(s: State)
    requires Core(s) && !s.inFlight && s.queue != [] && s.log.issued == Map(Buffers, s.log.completed)
    ensures Inv(DoWrite(s))
  {
    MapAppend(Buffers, s.log.completed, [s.queue[0].batch]);
    assert s.log.completed + [] == s.log.completed;
  }

  lemma QueueBatchWriteKeepsInv(s: State, b: Batch)
    requires Inv(s.(posted := [b] + s.posted))
    ensures Inv(QueueBatchWrite(s, b))
  {
    if s.timeoutReached || TooLate(b, s.now) {
      RefuseKeepsInv(s, b);
    } else {
      PushKeepsCore(s, b);
      assert s.log.completed + [] == s.log.completed;
      if s.queue == [] {
        var pushed := s.queue + [Entry(b, NewTimer(b))];
        DoWriteKeepsInv(s.(queue := pushed, log := s.log.(accepted := s.log.accepted + [b])));
      }
    }
  }

  /** The queue after writeDone has popped its front and before the next write starts. */
  function Popped(s: State, ok: bool): State
    requires s.queue != []
  {
    var b := s.queue[0].batch;
    s.(queue := s.queue[1..], inFlight := false,
       log := s.log.(completed := s.log.completed + [b],
                     handlers := s.log.handlers + BatchHandlers(b),
                     alive := s.log.alive + (if ok then 1 else 0),
                     errors := s.log.errors + (if ok then 0 else 1)))
  }

  lemma QueuePop(q: seq<Entry>)
    requires q != [] && forall i :: 0 <= i < |q| ==> TimerMatches(q[i])
    ensures Batches(q) == [q[0].batch] + Batches(q[1..])
    ensures forall i :: 0 <= i < |q[1..]| ==> TimerMatches(q[1..][i])
  {
  }

  lemma PoppedKeepsInv(s: State, ok: bool)
    requires Inv(s) && s.inFlight
    ensures Core(Popped(s, ok)) && Popped(s, ok).log.issued == Map(Buffers, Popped(s, ok).log.completed)
  {
    var b := s.queue[0].batch;
    HandlersOfSnoc(s.log.completed, b);
    QueuePop(s.queue);
    Associative(s.log.completed, [b], Batches(s.queue[1..]));
  }

  lemma CompleteWriteKeepsInv(s: State, ok: bool)
    requires Inv(s) && s.inFlight
    ensures Inv(CompleteWrite(s, ok))
  {
    var r := Popped(s, ok);
    PoppedKeepsInv(s, ok);
    if ok && r.queue != [] {
      DoWriteKeepsInv(r);
      assert CompleteWrite(s, ok) == DoWrite(r);
    } else {
      assert CompleteWrite(s, ok) == r;
      assert r.log.completed + [] == r.log.completed;
    }
  }

  lemma StepKeepsInv(s: State, e: Event)
    requires Inv(s)
    ensures Inv(Step(s, e))
  {
    match e
    case Schedule(b) =>
      Associative(s.log.accepted + s.log.refused, s.posted, [b]);
    case RunPosted =>
      if s.posted != [] {
        var r := s.(posted := s.posted[1..]);
        assert [s.posted[0]] + r.posted == s.posted;
        QueueBatchWriteKeepsInv(r, s.posted[0]);
      }
    case WriteDone(ok) =>
      if s.inFlight && s.queue != [] {
        CompleteWriteKeepsInv(s, ok);
      }
    case Expire(i) =>
      assert Batches(Step(s, e).queue) == Batches(s.queue);
    case TimerCallback(aborted) =>
    case Advance(to) =>
  }

  lemma {:induction false} RunKeepsInv(s: State, es: seq<Event>)
    requires Inv(s)
    ensures Inv(Run(s, es))
  {
    if es != [] {
      RunKeepsInv(s, es[..|es| - 1]);
      StepKeepsInv(Run(s, es[..|es| - 1]), es[|es| - 1]);
    }
  }

  // ---------------------------------------------------------------- theorems over all runs

  /** FIFO conservation, errors and timeouts included. */
  lemma FifoConservation(t0: int, es: seq<Event>)
    ensures var s := Run(Init(t0), es);
            && s.log.accepted == s.log.completed + Batches(s.queue)
            && s.log.issued == Map(Buffers, s.log.completed
                 + if s.inFlight && s.queue != [] then [s.queue[0].batch] else [])
            && s.log.handlers == HandlersOf(s.log.completed)
            && s.log.alive + s.log.errors == |s.log.completed|
  {
    RunKeepsInv(Init(t0), es);
  }

  /** The tasks of all batches, in order. */
  function TasksOf(bs: seq<Batch>): seq<WriteTask> {
    if bs == [] then [] else TasksOf(bs[..|bs| - 1]) + bs[|bs| - 1].tasks
  }

  lemma {:induction false} HandlersOfTasks(bs: seq<Batch>)
    ensures |HandlersOf(bs)| == |TasksOf(bs)|
    ensures forall i :: 0 <= i < |TasksOf(bs)| ==> HandlersOf(bs)[i] == TasksOf(bs)[i].handler
  {
    if bs != [] {
      var before, b := bs[..|bs| - 1], bs[|bs| - 1];
      HandlersOfTasks(before);
      assert bs == before + [b];
      HandlersOfSnoc(before, b);
    }
  }

  /** Task by task, in every run: the handlers called are those of all tasks of the completed batches, one
      call for each task, and the k-th write has the buffers of all tasks of the k-th accepted batch. */
  lemma EveryTaskIsHandled(t0: int, es: seq<Event>)
    ensures var s := Run(Init(t0), es);
            var tasks := TasksOf(s.log.completed);
            && |s.log.handlers| == |tasks|
            && forall i :: 0 <= i < |tasks| ==> s.log.handlers[i] == tasks[i].handler
    ensures var s := Run(Init(t0), es);
            && |s.log.issued| <= |s.log.accepted|
            && forall k :: 0 <= k < |s.log.issued| ==>
                 && |s.log.issued[k]| == |s.log.accepted[k].tasks|
                 && forall i :: 0 <= i < |s.log.issued[k]| ==>
                      s.log.issued[k][i] == s.log.accepted[k].tasks[i].buffer
  {
    RunKeepsInv(Init(t0), es);
    var s := Run(Init(t0), es);
    HandlersOfTasks(s.log.completed);
    IssuedAreAccepted(s);
  }

  lemma IssuedAreAccepted(s: State)
    requires Inv(s)
    ensures |s.log.issued| <= |s.log.accepted|
    ensures forall k :: 0 <= k < |s.log.issued| ==> s.log.issued[k] == Buffers(s.log.accepted[k])
  {
    if s.inFlight {
      assert Batches(s.queue)[0] == s.queue[0].batch;
    }
  }

  /** The batches of the scheduleWrite calls of a run. */
  function ScheduledBatches(es: seq<Event>): seq<Batch> {
    if es == [] then []
    else ScheduledBatches(es[..|es| - 1]) + if es[|es| - 1].Schedule? then [es[|es| - 1].batch] else []
  }

  lemma {:induction false} ScheduledAreCalls(t0: int, es: seq<Event>)
    ensures Run(Init(t0), es).log.scheduled == ScheduledBatches(es)
  {
    if es != [] {
      ScheduledAreCalls(t0, es[..|es| - 1]);
      ScheduledStep(Run(Init(t0), es[..|es| - 1]), es[|es| - 1]);
    }
  }

  lemma ScheduledStep(s: State, e: Event)
    ensures Step(s, e).log.scheduled == s.log.scheduled + if e.Schedule? then [e.batch] else []
  {
    assert s.log.scheduled + [] == s.log.scheduled;
  }

  /** What is accepted is a prefix of what was scheduled, in the order of the scheduleWrite calls;
      without a timeout nothing is dropped. */
  lemma AcceptedInScheduleOrder(t0: int, es: seq<Event>)
    ensures var s := Run(Init(t0), es);
            && s.log.accepted <= s.log.scheduled
            && s.log.scheduled == s.log.accepted + s.log.refused + s.posted
            && (!s.timeoutReached ==> s.log.refused == [])
            && s.log.scheduled == ScheduledBatches(es)
  {
    RunKeepsInv(Init(t0), es);
    ScheduledAreCalls(t0, es);
  }

  /** At most one async_write is outstanding, and it is the one for the front of the queue. */
  lemma SingleFlight(t0: int, es: seq<Event>)
    ensures var s := Run(Init(t0), es);
            && |s.log.issued| == |s.log.completed| + (if s.inFlight then 1 else 0)
            && (s.inFlight ==> s.queue != [] && s.log.issued[|s.log.completed|] == Buffers(s.queue[0].batch))
  {
    RunKeepsInv(Init(t0), es);
  }

  /** The completion that stalls the queue: others are waiting, and either the write failed or the
      timeout has been reached. */
  predicate StallingCompletion(s: State, e: Event) {
    e.WriteDone? && s.inFlight && |s.queue| > 1 && (!e.ok || s.timeoutReached)
  }

  lemma StallStep(s: State, e: Event)
    requires Inv(s)
    ensures Stalled(Step(s, e)) <==> Stalled(s) || StallingCompletion(s, e)
    ensures Stalled(s) ==> Step(s, e).log.issued == s.log.issued && Step(s, e).log.completed == s.log.completed
  {
  }

  /** A queue is stalled exactly when some completion of the run has stalled it. */
  lemma {:induction false} StallCharacterisation(t0: int, es: seq<Event>)
    ensures Stalled(Run(Init(t0), es)) <==> exists k: nat :: HoldsAt(StallingCompletion, Init(t0), es, k)
  {
    if es != [] {
      var before, e := es[..|es| - 1], es[|es| - 1];
      StallCharacterisation(t0, before);
      RunKeepsInv(Init(t0), before);
      StallStep(Run(Init(t0), before), e);
      assert es == before + [e];
      HoldsAtSnoc(StallingCompletion, Init(t0), before, e);
    }
  }

  /** Once stalled, no sequence of events issues or completes another write. */
  lemma {:induction false} StalledForever(s: State, es: seq<Event>)
    requires Inv(s) && Stalled(s)
    ensures var r := Run(s, es);
            Stalled(r) && r.log.issued == s.log.issued && r.log.completed == s.log.completed
            && r.log.handlers == s.log.handlers
  {
    if es != [] {
      var before := es[..|es| - 1];
      StalledForever(s, before);
      RunKeepsInv(s, before);
      StallStep(Run(s, before), es[|es| - 1]);
      StepKeepsInv(Run(s, before), es[|es| - 1]);
    }
  }

  /** The latch: from a timed-out state on nothing is issued or accepted, the callback is not called
      again, and only a write that is still outstanding can complete. */
  predicate LatchedSince(s: State, r: State) {
    && r.timeoutReached
    && r.log.issued == s.log.issued
    && r.log.accepted == s.log.accepted
    && r.log.timedOut == s.log.timedOut
    && (|| (r.log.completed == s.log.completed && r.log.handlers == s.log.handlers
            && r.inFlight == s.inFlight && Batches(r.queue) == Batches(s.queue))
        || (&& s.inFlight && s.queue != [] && !r.inFlight
            && r.log.completed == s.log.completed + [s.queue[0].batch]
            && r.log.handlers == s.log.handlers + BatchHandlers(s.queue[0].batch)
            && Batches(r.queue) == Batches(s.queue)[1..]))
  }

  lemma LatchStep(s: State, r: State, e: Event)
    requires LatchedSince(s, r) && Inv(r)
    ensures LatchedSince(s, Step(r, e))
  {
    var r' := Step(r, e);
    if e.Expire? {
      assert Batches(r'.queue) == Batches(r.queue);
    } else if e.WriteDone? && r.inFlight && r.queue != [] {
      assert Batches(r.queue)[0] == r.queue[0].batch;
      assert Batches(r.queue[1..]) == Batches(r.queue)[1..];
      assert Batches(s.queue)[0] == s.queue[0].batch;
    }
  }

  lemma {:induction false} TimeoutLatch(s: State, es: seq<Event>)
    requires Inv(s) && s.timeoutReached
    ensures LatchedSince(s, Run(s, es))
    ensures Run(s, es).log.timedOut == 1
  {
    if es != [] {
      var before := es[..|es| - 1];
      TimeoutLatch(s, before);
      RunKeepsInv(s, before);
      LatchStep(s, Run(s, before), es[|es| - 1]);
    }
  }

  /** The timed-out callback runs once if the timeout has been reached and never otherwise. */
  lemma {:induction false} TimedOutOnce(t0: int, es: seq<Event>)
    ensures Run(Init(t0), es).log.timedOut == (if Run(Init(t0), es).timeoutReached then 1 else 0)
  {
    RunKeepsInv(Init(t0), es);
  }

  // ---------------------------------------------------------------- when the latch is set

  predicate LateArrival(s: State, e: Event) {
    e.RunPosted? && s.posted != [] && s.posted[0].deadline.Some? && s.posted[0].deadline.value < s.now
  }

  /** Some queued batch is at or past its deadline. */
  predicate Overdue(s: State) {
    exists i :: 0 <= i < |s.queue| && s.queue[i].batch.deadline.Some? && s.queue[i].batch.deadline.value <= s.now
  }

  predicate LatchingEvent(s: State, e: Event) {
    LateArrival(s, e) || (e == TimerCallback(false) && s.ready > 0)
  }

  /** The run shows a batch that missed its deadline: one arrived after it, or was still queued at it. */
  ghost predicate MissedAt(s: State, es: seq<Event>, k: nat) {
    k <= |es| && (Overdue(Run(s, es[..k])) || (k < |es| && LateArrival(Run(s, es[..k]), es[k])))
  }

  /** The latch is set exactly by a late arrival or by an expired timer whose callback runs. */
  lemma {:induction false} LatchCause(t0: int, es: seq<Event>)
    ensures Run(Init(t0), es).timeoutReached <==> exists k: nat :: HoldsAt(LatchingEvent, Init(t0), es, k)
  {
    if es != [] {
      var before, e := es[..|es| - 1], es[|es| - 1];
      LatchCause(t0, before);
      LatchStepCause(Run(Init(t0), before), e);
      assert es == before + [e];
      HoldsAtSnoc(LatchingEvent, Init(t0), before, e);
    }
  }

  lemma LatchStepCause(s: State, e: Event)
    ensures Step(s, e).timeoutReached <==> s.timeoutReached || LatchingEvent(s, e)
  {
  }

  /** The latch is never set, and no expired callback is even pending, unless a batch missed its
      deadline, however late the callbacks are delivered. */
  lemma {:induction false} TimeoutSoundness(t0: int, es: seq<Event>)
    requires forall k: nat :: !MissedAt(Init(t0), es, k)
    ensures !Run(Init(t0), es).timeoutReached && Run(Init(t0), es).ready == 0
    ensures Run(Init(t0), es).log.timedOut == 0 && Run(Init(t0), es).log.refused == []
  {
    RunKeepsInv(Init(t0), es);
    if es != [] {
      var n := |es| - 1;
      var before := es[..n];
      forall k: nat | k <= n ensures !MissedAt(Init(t0), before, k) {
        assert before[..k] == es[..k];
        assert !MissedAt(Init(t0), es, k);
      }
      TimeoutSoundness(t0, before);
      RunKeepsInv(Init(t0), before);
      assert !MissedAt(Init(t0), es, n);
      InTimeStep(Run(Init(t0), before), es[n]);
    }
  }

  lemma InTimeStep(s: State, e: Event)
    requires Inv(s) && !s.timeoutReached && s.ready == 0 && !Overdue(s) && !LateArrival(s, e)
    ensures !Step(s, e).timeoutReached && Step(s, e).ready == 0
  {
    if e.Expire? && e.i < |s.queue| {
      assert TimerMatches(s.queue[e.i]);
    }
  }

  /** While there has been no timeout, an expired timer in the queue has its callback still to run. */
  predicate ExpiredIsReady(s: State) {
    !s.timeoutReached ==>
      forall i :: 0 <= i < |s.queue| && s.queue[i].timer == Some(Expired) ==> s.ready > 0
  }

  lemma {:induction false} RunKeepsReady(t0: int, es: seq<Event>)
    ensures ExpiredIsReady(Run(Init(t0), es))
  {
    if es != [] {
      RunKeepsReady(t0, es[..|es| - 1]);
      ReadyStep(Run(Init(t0), es[..|es| - 1]), es[|es| - 1]);
    }
  }

  lemma ReadyStep(s: State, e: Event)
    requires ExpiredIsReady(s)
    ensures ExpiredIsReady(Step(s, e))
  {
  }

  lemma RunTwo(s: State, e1: Event, e2: Event)
    ensures Run(s, [e1, e2]) == Step(Step(s, e1), e2)
  {
    assert [e1, e2][..1] == [e1] && [e1][..0] == [];
    assert Run(s, [e1][..0]) == s;
  }

  /** Deadlines have an effect: any batch that is still queued at its deadline, in whatever place, times
      out when its timer expires and the callback runs. */
  lemma OverdueTimesOut(t0: int, es: seq<Event>, i: nat)
    requires var s := Run(Init(t0), es);
             i < |s.queue| && s.queue[i].batch.deadline.Some? && s.queue[i].batch.deadline.value <= s.now
    ensures Run(Run(Init(t0), es), [Expire(i), TimerCallback(false)]).timeoutReached
  {
    var s := Run(Init(t0), es);
    RunKeepsInv(Init(t0), es);
    RunKeepsReady(t0, es);
    RunTwo(s, Expire(i), TimerCallback(false));
    ExpiryLeavesReady(s, i);
  }

  lemma ExpiryLeavesReady(s: State, i: nat)
    requires i < |s.queue| && TimerMatches(s.queue[i]) && ExpiredIsReady(s)
    requires s.queue[i].batch.deadline.Some? && s.queue[i].batch.deadline.value <= s.now
    ensures var r := Step(s, Expire(i)); r.timeoutReached || r.ready > 0
  {
  }

  lemma RunCons(s: State, e: Event, es: seq<Event>)
    ensures Run(s, [e] + es) == Run(Step(s, e), es)
  {
    if es == [] {
      assert [e] + es == [e] && [e][..0] == [];
      assert Run(s, [e][..0]) == s;
    } else {
      var n := |es| - 1;
      RunCons(s, e, es[..n]);
      assert ([e] + es)[..|[e] + es| - 1] == [e] + es[..n];
    }
  }

  /** Any queued batch with a deadline times out if it stays in the queue until then. */
  lemma DeadlineTimesOut(t0: int, es: seq<Event>, i: nat)
    requires i < |Run(Init(t0), es).queue| && Run(Init(t0), es).queue[i].batch.deadline.Some?
    ensures var s := Run(Init(t0), es);
            Run(s, [Advance(s.queue[i].batch.deadline.value)] + [Expire(i), TimerCallback(false)]).timeoutReached
  {
    var s := Run(Init(t0), es);
    var d := Advance(s.queue[i].batch.deadline.value);
    assert (es + [d])[..|es|] == es;
    RunCons(s, d, [Expire(i), TimerCallback(false)]);
    OverdueTimesOut(t0, es + [d], i);
  }

  ghost predicate OnlyTimers(es: seq<Event>) {
    forall k :: 0 <= k < |es| ==> es[k].Expire? || es[k].TimerCallback?
  }

  lemma {:induction false} NothingDue(s: State, es: seq<Event>)
    requires Inv(s) && !s.timeoutReached && s.ready == 0 && !Overdue(s) && OnlyTimers(es)
    ensures var r := Run(s, es); Inv(r) && !r.timeoutReached && r.ready == 0 && !Overdue(r)
  {
    if es != [] {
      var r := Run(s, es[..|es| - 1]);
      NothingDue(s, es[..|es| - 1]);
      InTimeStep(r, es[|es| - 1]);
      StepKeepsInv(r, es[|es| - 1]);
      if es[|es| - 1].Expire? && es[|es| - 1].i < |r.queue| {
        assert TimerMatches(r.queue[es[|es| - 1].i]);
      }
    }
  }

  /** Exactly when timers alone, with no time passing, can bring a timeout about: some queued batch has
      reached its deadline, or the callback of an expired timer is still to run. */
  lemma TimeoutPossibleIff(t0: int, es: seq<Event>)
    requires !Run(Init(t0), es).timeoutReached
    ensures var s := Run(Init(t0), es);
            (exists later :: OnlyTimers(later) && Run(s, later).timeoutReached) <==> s.ready > 0 || Overdue(s)
  {
    var s := Run(Init(t0), es);
    RunKeepsInv(Init(t0), es);
    if s.ready > 0 {
      RunTwo(s, TimerCallback(true), TimerCallback(false));
      assert OnlyTimers([TimerCallback(true), TimerCallback(false)]);
    } else if Overdue(s) {
      var i :| 0 <= i < |s.queue| && s.queue[i].batch.deadline.Some? && s.queue[i].batch.deadline.value <= s.now;
      OverdueTimesOut(t0, es, i);
      assert OnlyTimers([Expire(i), TimerCallback(false)]);
    } else {
      forall later | OnlyTimers(later) ensures !Run(s, later).timeoutReached {
        NothingDue(s, later);
      }
    }
  }

  // ---------------------------------------------------------------- drain

  predicate Healthy(s: State) {
    Inv(s) && !s.timeoutReached && !Stalled(s)
  }

  lemma DrainStep(s: State)
    requires Healthy(s) && s.queue != []
    ensures var r := Step(s, WriteDone(true));
            && Healthy(r) && r.queue == s.queue[1..] && r.now == s.now && r.posted == s.posted
            && r.log.completed == s.log.completed + [s.queue[0].batch]
  {
    StepKeepsInv(s, WriteDone(true));
  }

  lemma TakeOneMore(q: seq<Entry>, k: nat)
    requires 0 < k <= |q|
    ensures Batches(q[..k]) == Batches(q[..k - 1]) + [q[k - 1].batch]
    ensures q[k - 1..] == [q[k - 1]] + q[k..] && q[k - 1..][1..] == q[k..]
  {
  }

  /** From every healthy state k successful completions remove exactly the k oldest batches. */
  lemma {:induction false} Drain(s: State, k: nat)
    requires Healthy(s) && k <= |s.queue|
    ensures var r := Run(s, Repeat(WriteDone(true), k));
            && Healthy(r) && r.queue == s.queue[k..] && r.now == s.now && r.posted == s.posted
            && r.log.completed == s.log.completed + Batches(s.queue[..k])
  {
    if k > 0 {
      var es := Repeat(WriteDone(true), k);
      assert es[..k - 1] == Repeat(WriteDone(true), k - 1);
      Drain(s, k - 1);
      DrainStep(Run(s, es[..k - 1]));
      assert Run(s, es) == Step(Run(s, es[..k - 1]), WriteDone(true));
      TakeOneMore(s.queue, k);
      Associative(s.log.completed, Batches(s.queue[..k - 1]), [s.queue[k - 1].batch]);
    }
  }

  /** A batch that finds the queue empty is written at once. */
  lemma ArrivalAtEmptyQueue(s: State)
    requires Healthy(s) && s.queue == [] && s.posted != [] && !TooLate(s.posted[0], s.now)
    ensures var r := Step(s, RunPosted);
            && r.inFlight && r.queue == [Entry(s.posted[0], NewTimer(s.posted[0]))] && r.posted == s.posted[1..]
            && r.log.issued == Map(Buffers, s.log.completed + [s.posted[0]])
  {
    StepKeepsInv(s, RunPosted);
  }

  /** Once drained, the oldest posted batch is written at once unless it is too late. */
  lemma PostedAfterDrain(s: State)
    requires Healthy(s) && s.posted != [] && !TooLate(s.posted[0], s.now)
    ensures var r := Run(s, Repeat(WriteDone(true), |s.queue|) + [RunPosted]);
            && r.inFlight && r.queue == [Entry(s.posted[0], NewTimer(s.posted[0]))] && r.posted == s.posted[1..]
            && r.log.issued == Map(Buffers, s.log.completed + Batches(s.queue) + [s.posted[0]])
  {
    var es := Repeat(WriteDone(true), |s.queue|);
    Drain(s, |s.queue|);
    assert s.queue[..|s.queue|] == s.queue;
    assert (es + [RunPosted])[..|es|] == es;
    ArrivalAtEmptyQueue(Run(s, es));
  }

  /** The same with one more batch scheduled after the drain: the batch at the head of the backlog is
      written, and that is the new one if there is no backlog. */
  lemma WriteAfterDrain(s: State, b: Batch)
    requires Healthy(s) && !TooLate((s.posted + [b])[0], s.now)
    ensures var first := (s.posted + [b])[0];
            var r := Run(s, Repeat(WriteDone(true), |s.queue|) + [Schedule(b), RunPosted]);
            && r.inFlight && r.queue == [Entry(first, NewTimer(first))] && r.posted == (s.posted + [b])[1..]
            && r.log.issued == Map(Buffers, s.log.completed + Batches(s.queue) + [first])
  {
    var es := Repeat(WriteDone(true), |s.queue|);
    Drain(s, |s.queue|);
    var e1 := es + [Schedule(b)];
    var e2 := es + [Schedule(b), RunPosted];
    assert e2[..|e2| - 1] == e1 && e1[..|e1| - 1] == es;
    assert s.queue[..|s.queue|] == s.queue;
    var d := Run(s, es);
    assert Run(s, e1) == Step(d, Schedule(b));
    StepKeepsInv(d, Schedule(b));
    ArrivalAtEmptyQueue(Run(s, e1));
  }
}
