/** Connection attempts of the client (src/client.cpp): chains of resolve, connect and handshake that
    may overlap when connect() is called again, while there is one timer and one stream slot. */
module ConnectionAttempts {
  import opened Common

  datatype Result = Ok | Aborted | Failed

  /** An asynchronous operation is outstanding, or it has completed and its handler is queued; then
      cancelling it has no effect any more. */
  datatype Op = Outstanding | Queued(result: Result)

  datatype End = ResolveFailed | ConnectFailed | HandshakeFailed | NewSession(stream: nat) | EndpointLost

  datatype Stage =
    | Resolving(op: Op)
    | Connecting(stream: nat, op: Op)
    | Handshaking(stream: nat, op: Op)
    | Over(end: End)

  /** How an attempt ended; all but EndpointLost call the user's callback. */
  datatype Report = Report(attempt: nat, end: End)

  datatype State = State(
    attempts: seq<Stage>,            // one per connect(), in the order of the calls
    websocketStream: Option<nat>,
    timer: Option<nat>,              // the attempt whose connect() has armed the timer
    expired: seq<nat>,               // attempts whose timer has expired and whose callback has still to run
    handled: set<nat>,               // attempts whose timeout has been handled
    streams: nat,                    // streams created so far; they are numbered
    reports: seq<Report>)

  datatype Event =
    | Connect
    | Complete(i: nat, result: Result)          // the operation of attempt i completes
    | RunHandler(i: nat, endpointKnown: bool)   // its handler runs
    | Expire                                    // the timer expires
    | TimeoutHandler(aborted: bool)             // a timer callback runs, that of an expired timer in order

  function Init(): State {
    State([], None, None, [], {}, 0, [])
  }

  // ---------------------------------------------------------------- the handlers

  function StartConnect(s: State): State {
    s.(attempts := s.attempts + [Resolving(Outstanding)], timer := Some(|s.attempts|))
  }

  function Finish(s: State, i: nat, end: End): State
    requires i < |s.attempts|
  {
    s.(attempts := s.attempts[i := Over(end)], timer := None, reports := s.reports + [Report(i, end)])
  }

  function OnResolve(s: State, i: nat, r: Result): State
    requires i < |s.attempts|
  {
    if r != Ok then Finish(s, i, ResolveFailed)
    else s.(attempts := s.attempts[i := Connecting(s.streams, Outstanding)],
            websocketStream := Some(s.streams), streams := s.streams + 1)
  }

  function OnConnect(s: State, i: nat, stream: nat, r: Result): State
    requires i < |s.attempts|
  {
    if r != Ok then Finish(s, i, ConnectFailed)
    else s.(attempts := s.attempts[i := Handshaking(stream, Outstanding)])
  }

  function OnUpgradeConnection(s: State, i: nat, stream: nat, r: Result, endpointKnown: bool): State
    requires i < |s.attempts|
  {
    if r == Aborted then Finish(s, i, ConnectFailed)
    else if r == Failed then Finish(s, i, HandshakeFailed)
    else if !endpointKnown then Finish(s, i, EndpointLost)
    else Finish(s, i, NewSession(stream)).(websocketStream := None)
  }

  function Cancelled(op: Op): Op {
    if op.Outstanding? then Queued(Aborted) else op
  }

  /** resolver.cancel() reaches every resolve, the socket's cancel() the operations on its stream. */
  function CancelledStage(a: Stage, stream: Option<nat>): Stage {
    match a
    case Resolving(op) => Resolving(Cancelled(op))
    case Connecting(st, op) => if stream == Some(st) then Connecting(st, Cancelled(op)) else a
    case Handshaking(st, op) => if stream == Some(st) then Handshaking(st, Cancelled(op)) else a
    case Over(_) => a
  }

  function OnConnectionTimeout(s: State): State {
    s.(attempts := Map((a: Stage) => CancelledStage(a, s.websocketStream), s.attempts),
       websocketStream := None)
  }

  /** The oldest queued timer callback runs. */
  function HandleTimeout(s: State): State
    requires s.expired != []
  {
    OnConnectionTimeout(s.(expired := s.expired[1..], handled := s.handled + {s.expired[0]}))
  }

  function Handle(s: State, i: nat, endpointKnown: bool): State
    requires i < |s.attempts|
  {
    match s.attempts[i]
    case Resolving(Queued(r)) => OnResolve(s, i, r)
    case Connecting(stream, Queued(r)) => OnConnect(s, i, stream, r)
    case Handshaking(stream, Queued(r)) => OnUpgradeConnection(s, i, stream, r, endpointKnown)
    case _ => s
  }

  function CompleteOp(a: Stage, r: Result): Stage {
    if a.Over? || !a.op.Outstanding? then a else a.(op := Queued(r))
  }

  /** One step; an event that cannot happen in `s` leaves `s` as it is. */
  function Step(s: State, e: Event): State {
    match e
    case Connect => StartConnect(s)
    case Complete(i, r) =>
      if i < |s.attempts| then s.(attempts := s.attempts[i := CompleteOp(s.attempts[i], r)]) else s
    case RunHandler(i, endpointKnown) => if i < |s.attempts| then Handle(s, i, endpointKnown) else s
    case Expire => if s.timer.Some? then s.(timer := None, expired := s.expired + [s.timer.value]) else s
    case TimeoutHandler(aborted) =>
      if aborted || s.expired == [] then s else HandleTimeout(s)
  }

  function Run(s: State, es: seq<Event>): State {
    if es == [] then s else Step(Run(s, es[..|es| - 1]), es[|es| - 1])
  }

  // ---------------------------------------------------------------- conservation of attempts

  function InFlight(attempts: seq<Stage>): nat {
    if attempts == [] then 0
    else InFlight(attempts[..|attempts| - 1]) + if attempts[|attempts| - 1].Over? then 0 else 1
  }

  lemma {:induction false} InFlightUpdate(attempts: seq<Stage>, i: nat, a: Stage)
    requires i < |attempts|
    ensures InFlight(attempts[i := a]) + (if attempts[i].Over? then 0 else 1)
         == InFlight(attempts) + (if a.Over? then 0 else 1)
  {
    var n := |attempts| - 1;
    if i < n {
      InFlightUpdate(attempts[..n], i, a);
      assert attempts[i := a][..n] == attempts[..n][i := a];
    } else {
      assert attempts[i := a][..n] == attempts[..n];
    }
  }

  lemma {:induction false} InFlightSame(a: seq<Stage>, b: seq<Stage>)
    requires |a| == |b| && forall i :: 0 <= i < |a| ==> a[i].Over? == b[i].Over?
    ensures InFlight(a) == InFlight(b)
  {
    if a != [] {
      InFlightSame(a[..|a| - 1], b[..|b| - 1]);
    }
  }

  function Count(reports: seq<Report>, p: End -> bool): nat {
    if reports == [] then 0
    else Count(reports[..|reports| - 1], p) + if p(reports[|reports| - 1].end) then 1 else 0
  }

  predicate IsResolveFailed(e: End) { e.ResolveFailed? }
  predicate IsConnectFailed(e: End) { e.ConnectFailed? }
  predicate IsHandshakeFailed(e: End) { e.HandshakeFailed? }
  predicate IsNewSession(e: End) { e.NewSession? }
  predicate IsEndpointLost(e: End) { e.EndpointLost? }

  lemma {:induction false} CountAll(reports: seq<Report>)
    ensures |reports| == Count(reports, IsResolveFailed) + Count(reports, IsConnectFailed)
                       + Count(reports, IsHandshakeFailed) + Count(reports, IsNewSession)
                       + Count(reports, IsEndpointLost)
  {
    if reports != [] {
      CountAll(reports[..|reports| - 1]);
    }
  }

  predicate Reported(attempts: seq<Stage>, r: Report) {
    r.attempt < |attempts| && attempts[r.attempt] == Over(r.end)
  }

  /** Every report is about an attempt that is over in that way, no two are about the same attempt,
      and together with the attempts in flight they account for every connect(). */
  predicate Conserved(attempts: seq<Stage>, reports: seq<Report>) {
    && |attempts| == InFlight(attempts) + |reports|
    && (forall j :: 0 <= j < |reports| ==> Reported(attempts, reports[j]))
    && (forall j, k :: 0 <= j < k < |reports| ==> reports[j].attempt != reports[k].attempt)
  }

  /** How attempt i ended, according to the reports about it. */
  function ReportsOf(reports: seq<Report>, i: nat): seq<End> {
    if reports == [] then []
    else
      var last := reports[|reports| - 1];
      ReportsOf(reports[..|reports| - 1], i) + if last.attempt == i then [last.end] else []
  }

  function EndOf(attempts: seq<Stage>, i: nat): seq<End> {
    if i < |attempts| && attempts[i].Over? then [attempts[i].end] else []
  }

  /** An attempt that is over has one report, that of its end, and any other attempt has none. */
  ghost predicate ReportedOnce(attempts: seq<Stage>, reports: seq<Report>) {
    forall i: nat :: ReportsOf(reports, i) == EndOf(attempts, i)
  }

  /** The stream of an attempt, while it has one or when it has become a session. */
  function StreamOf(a: Stage): Option<nat> {
    match a
    case Connecting(st, _) => Some(st)
    case Handshaking(st, _) => Some(st)
    case Over(NewSession(st)) => Some(st)
    case _ => None
  }

  /** Streams have one owner each; the slot holds no stream that has been handed to a session. */
  predicate StreamsSeparate(attempts: seq<Stage>, slot: Option<nat>, streams: nat) {
    && (forall i :: 0 <= i < |attempts| && StreamOf(attempts[i]).Some? ==> StreamOf(attempts[i]).value < streams)
    && (forall i, j :: 0 <= i < j < |attempts| && StreamOf(attempts[i]).Some? ==>
          StreamOf(attempts[i]) != StreamOf(attempts[j]))
    && (slot.Some? ==>
          slot.value < streams && forall i :: 0 <= i < |attempts| ==> attempts[i] != Over(NewSession(slot.value)))
  }

  /** Timers, armed, expired or handled, belong to attempts that have been started, and an armed one has
      not expired before. */
  predicate TimersKnown(s: State) {
    && (s.timer.Some? ==> s.timer.value < |s.attempts|)
    && (s.timer.Some? ==> s.timer.value !in s.expired && s.timer.value !in s.handled)
    && (forall k :: 0 <= k < |s.expired| ==> s.expired[k] < |s.attempts|)
    && (forall i :: i in s.handled ==> i < |s.attempts|)
  }

  ghost predicate Inv(s: State) {
    && Conserved(s.attempts, s.reports) && ReportedOnce(s.attempts, s.reports)
    && StreamsSeparate(s.attempts, s.websocketStream, s.streams) && TimersKnown(s)
  }

  lemma FinishConserves(attempts: seq<Stage>, reports: seq<Report>, i: nat, end: End)
    requires Conserved(attempts, reports) && i < |attempts| && !attempts[i].Over?
    ensures Conserved(attempts[i := Over(end)], reports + [Report(i, end)])
  {
    InFlightUpdate(attempts, i, Over(end));
    forall j | 0 <= j < |reports| ensures Reported(attempts[i := Over(end)], reports[j]) && reports[j].attempt != i {
      assert Reported(attempts, reports[j]);
    }
  }

  /** A handler ends its attempt with a report, or moves it on, or finds nothing to do. */
  lemma HandleShape(s: State, i: nat, endpointKnown: bool)
    requires i < |s.attempts|
    ensures var r := Handle(s, i, endpointKnown);
            && r.expired == s.expired && r.handled == s.handled
            && (r == s || Ends(s, r, i) || MovesOn(s, r, i))
  {
  }

  predicate Ends(s: State, r: State, i: nat)
    requires i < |s.attempts|
  {
    && |r.attempts| == |s.attempts| && !s.attempts[i].Over? && r.attempts[i].Over?
    && r.attempts == s.attempts[i := r.attempts[i]]
    && r.reports == s.reports + [Report(i, r.attempts[i].end)]
    && r.timer == None && r.streams == s.streams
    && (if StreamOf(r.attempts[i]).None? then r.websocketStream == s.websocketStream
        else r.websocketStream == None && StreamOf(r.attempts[i]) == StreamOf(s.attempts[i]))
  }

  predicate MovesOn(s: State, r: State, i: nat)
    requires i < |s.attempts|
  {
    && |r.attempts| == |s.attempts| && !s.attempts[i].Over? && !r.attempts[i].Over?
    && r.attempts == s.attempts[i := r.attempts[i]]
    && r.reports == s.reports && r.timer == s.timer
    && (if s.attempts[i].Resolving?
        then && r.attempts[i] == Connecting(s.streams, Outstanding)
             && r.streams == s.streams + 1 && r.websocketStream == Some(s.streams)
        else && StreamOf(r.attempts[i]) == StreamOf(s.attempts[i])
             && r.streams == s.streams && r.websocketStream == s.websocketStream)
  }

  lemma TimeoutShape(s: State)
    requires s.expired != []
    ensures var r := HandleTimeout(s);
            && |r.attempts| == |s.attempts|
            && forall k :: 0 <= k < |s.attempts| ==>
                 && StreamOf(r.attempts[k]) == StreamOf(s.attempts[k])
                 && r.attempts[k].Over? == s.attempts[k].Over?
                 && (s.attempts[k].Over? ==> r.attempts[k] == s.attempts[k])
  {
  }

  /** Replacing attempts that are not over by others that are not over. */
  lemma SameOverConserves(a: seq<Stage>, b: seq<Stage>, reports: seq<Report>)
    requires Conserved(a, reports) && |a| == |b|
    requires forall k :: 0 <= k < |a| ==> a[k].Over? == b[k].Over? && (a[k].Over? ==> b[k] == a[k])
    ensures Conserved(b, reports)
  {
    InFlightSame(a, b);
    forall j | 0 <= j < |reports| ensures Reported(b, reports[j]) {
      assert Reported(a, reports[j]);
    }
  }

  lemma StepConserves(s: State, e: Event)
    requires Conserved(s.attempts, s.reports)
    ensures Conserved(Step(s, e).attempts, Step(s, e).reports)
  {
    match e
    case Connect =>
      var all := s.attempts + [Resolving(Outstanding)];
      assert all[..|s.attempts|] == s.attempts;
      forall j | 0 <= j < |s.reports| ensures Reported(all, s.reports[j]) {
        assert Reported(s.attempts, s.reports[j]);
      }
    case Complete(i, result) =>
      SameOverConserves(s.attempts, Step(s, e).attempts, s.reports);
    case RunHandler(i, endpointKnown) =>
      if i < |s.attempts| {
        var r := Handle(s, i, endpointKnown);
        HandleShape(s, i, endpointKnown);
        if r != s && r.attempts[i].Over? {
          FinishConserves(s.attempts, s.reports, i, r.attempts[i].end);
        } else if r != s {
          SameOverConserves(s.attempts, r.attempts, s.reports);
        }
      }
    case Expire =>
    case TimeoutHandler(aborted) =>
      if !aborted && s.expired != [] {
        TimeoutShape(s);
        SameOverConserves(s.attempts, Step(s, e).attempts, s.reports);
      }
  }

  lemma ReportsOfSnoc(reports: seq<Report>, r: Report, i: nat)
    ensures ReportsOf(reports + [r], i) == ReportsOf(reports, i) + if r.attempt == i then [r.end] else []
  {
    assert (reports + [r])[..|reports|] == reports;
  }

  lemma StepReportsOnce(s: State, e: Event)
    requires ReportedOnce(s.attempts, s.reports)
    ensures ReportedOnce(Step(s, e).attempts, Step(s, e).reports)
  {
    var r := Step(s, e);
    if e.RunHandler? && e.i < |s.attempts| {
      HandleShape(s, e.i, e.endpointKnown);
    } else if e.TimeoutHandler? && s.expired != [] {
      TimeoutShape(s);
    }
    forall i: nat ensures ReportsOf(r.reports, i) == EndOf(r.attempts, i) {
      assert ReportsOf(s.reports, i) == EndOf(s.attempts, i);
      if r.reports != s.reports {
        ReportsOfSnoc(s.reports, r.reports[|s.reports|], i);
      }
    }
  }

  /** Streams stay separate as long as attempts keep their streams or lose them. */
  lemma FewerStreams(a: seq<Stage>, b: seq<Stage>, slot: Option<nat>, streams: nat)
    requires StreamsSeparate(a, slot, streams) && |a| == |b|
    requires forall k :: 0 <= k < |a| ==> StreamOf(b[k]) == None || StreamOf(b[k]) == StreamOf(a[k])
    ensures StreamsSeparate(b, None, streams)
    ensures (forall k :: 0 <= k < |a| && b[k].Over? ==> StreamOf(b[k]) == None || b[k] == a[k]) ==>
              StreamsSeparate(b, slot, streams)
  {
  }

  lemma NewStream(a: seq<Stage>, slot: Option<nat>, streams: nat, i: nat)
    requires StreamsSeparate(a, slot, streams) && i < |a|
    ensures StreamsSeparate(a[i := Connecting(streams, Outstanding)], Some(streams), streams + 1)
  {
    var b := a[i := Connecting(streams, Outstanding)];
    forall k | 0 <= k < |b| && k != i ensures StreamOf(b[k]) != Some(streams) {
      assert b[k] == a[k];
    }
  }

  lemma ConnectSeparates(a: seq<Stage>, slot: Option<nat>, streams: nat)
    requires StreamsSeparate(a, slot, streams)
    ensures StreamsSeparate(a + [Resolving(Outstanding)], slot, streams)
  {
  }

  lemma HandleSeparates(s: State, i: nat, endpointKnown: bool)
    requires StreamsSeparate(s.attempts, s.websocketStream, s.streams) && i < |s.attempts|
    ensures var r := Handle(s, i, endpointKnown); StreamsSeparate(r.attempts, r.websocketStream, r.streams)
  {
    var r := Handle(s, i, endpointKnown);
    HandleShape(s, i, endpointKnown);
    if r.streams == s.streams {
      FewerStreams(s.attempts, r.attempts, s.websocketStream, s.streams);
    } else {
      NewStream(s.attempts, s.websocketStream, s.streams, i);
    }
  }

  lemma StepSeparates(s: State, e: Event)
    requires StreamsSeparate(s.attempts, s.websocketStream, s.streams)
    ensures var r := Step(s, e); StreamsSeparate(r.attempts, r.websocketStream, r.streams)
  {
    match e
    case Connect =>
      ConnectSeparates(s.attempts, s.websocketStream, s.streams);
    case Complete(i, result) =>
      FewerStreams(s.attempts, Step(s, e).attempts, s.websocketStream, s.streams);
    case RunHandler(i, endpointKnown) =>
      if i < |s.attempts| {
        HandleSeparates(s, i, endpointKnown);
      }
    case Expire =>
    case TimeoutHandler(aborted) =>
      if !aborted && s.expired != [] {
        TimeoutShape(s);
        FewerStreams(s.attempts, Step(s, e).attempts, s.websocketStream, s.streams);
      }
  }

  lemma StepKeepsTimersKnown(s: State, e: Event)
    requires TimersKnown(s)
    ensures TimersKnown(Step(s, e)) && |Step(s, e).attempts| >= |s.attempts|
  {
    if e.RunHandler? && e.i < |s.attempts| {
      HandleShape(s, e.i, e.endpointKnown);
    }
  }

  lemma StepKeepsInv(s: State, e: Event)
    requires Inv(s)
    ensures Inv(Step(s, e))
  {
    StepConserves(s, e);
    StepReportsOnce(s, e);
    StepSeparates(s, e);
    StepKeepsTimersKnown(s, e);
  }

  lemma {:induction false} RunKeepsInv(s: State, es: seq<Event>)
    requires Inv(s)
    ensures Inv(Run(s, es))
  {
    if es != [] {
      RunKeepsInv(s, es[..|es| - 1]);
      StepKeepsInv(Run(s, es[..|es| - 1]), es[|es| - 1]);
    }
  }

  /** Over any interleaving of overlapping attempts: every connect() is in flight or has ended in
      exactly one of the five ways, and every attempt that has ended, and no other, has reported once. */
  lemma AttemptConservation(es: seq<Event>)
    ensures var s := Run(Init(), es);
            && |s.attempts| == InFlight(s.attempts)
                             + Count(s.reports, IsResolveFailed) + Count(s.reports, IsConnectFailed)
                             + Count(s.reports, IsHandshakeFailed) + Count(s.reports, IsNewSession)
                             + Count(s.reports, IsEndpointLost)
            && (forall j, k :: 0 <= j < k < |s.reports| ==> s.reports[j].attempt != s.reports[k].attempt)
            && (forall j :: 0 <= j < |s.reports| ==> Reported(s.attempts, s.reports[j]))
            && (forall i: nat :: ReportsOf(s.reports, i) == EndOf(s.attempts, i))
  {
    RunKeepsInv(Init(), es);
    CountAll(Run(Init(), es).reports);
  }

  /** The stream that onConnectionTimeout would cancel is never one of a session, and each session
      has a stream of its own. */
  lemma TimeoutSparesSessions(es: seq<Event>)
    ensures var s := Run(Init(), es);
            && (s.websocketStream.Some? ==>
                  forall j :: 0 <= j < |s.reports| ==> s.reports[j].end != NewSession(s.websocketStream.value))
            && (forall j, k :: 0 <= j < k < |s.reports| && s.reports[j].end.NewSession? ==>
                  s.reports[j].end != s.reports[k].end)
  {
    RunKeepsInv(Init(), es);
    var s := Run(Init(), es);
    forall j | 0 <= j < |s.reports| && s.websocketStream.Some?
      ensures s.reports[j].end != NewSession(s.websocketStream.value)
    {
      assert Reported(s.attempts, s.reports[j]);
    }
    forall j, k | 0 <= j < k < |s.reports| && s.reports[j].end.NewSession?
      ensures s.reports[j].end != s.reports[k].end
    {
      assert Reported(s.attempts, s.reports[j]) && Reported(s.attempts, s.reports[k]);
      var a, b := s.reports[j].attempt, s.reports[k].attempt;
      assert a != b;
      assert StreamOf(s.attempts[a]) == Some(s.reports[j].end.stream);
      assert StreamOf(s.attempts[a]) != StreamOf(s.attempts[b]);
    }
  }

  // ---------------------------------------------------------------- what is reported

  /** What each handler reports and when: a resolve, connect or handshake that failed or was aborted, and
      the end of a handshake that succeeded. Nothing else is ever reported. */
  lemma HandlerReports(s: State, e: Event)
    ensures var r := Step(s, e);
            if !e.RunHandler? || e.i >= |s.attempts| then r.reports == s.reports
            else
              match s.attempts[e.i]
              case Resolving(Queued(result)) =>
                r.reports == s.reports + if result == Ok then [] else [Report(e.i, ResolveFailed)]
              case Connecting(stream, Queued(result)) =>
                r.reports == s.reports + if result == Ok then [] else [Report(e.i, ConnectFailed)]
              case Handshaking(stream, Queued(Aborted)) => r.reports == s.reports + [Report(e.i, ConnectFailed)]
              case Handshaking(stream, Queued(Failed)) => r.reports == s.reports + [Report(e.i, HandshakeFailed)]
              case Handshaking(stream, Queued(Ok)) =>
                r.reports == s.reports + [Report(e.i, if e.endpointKnown then NewSession(stream) else EndpointLost)]
              case _ => r.reports == s.reports
  {
    assert s.reports + [] == s.reports;
  }

  /** The operation of the attempt has completed, in the stage and with the result that `a` says. */
  predicate Completed(a: Stage) {
    !a.Over? && a.op.Queued?
  }

  /** The end that is in store for an attempt whose current operation has failed. */
  function FailureEnd(a: Stage): End
    requires Completed(a) && a.op.result != Ok
  {
    match a
    case Resolving(_) => ResolveFailed
    case Connecting(_, _) => ConnectFailed
    case Handshaking(_, op) => if op.result == Aborted then ConnectFailed else HandshakeFailed
  }

  /** Attempt n waits for the handler of its failed operation, or that handler has ended it. */
  predicate Failing(s: State, n: nat, a: Stage)
    requires Completed(a) && a.op.result != Ok
  {
    n < |s.attempts| && (s.attempts[n] == a || s.attempts[n] == Over(FailureEnd(a)))
  }

  lemma FailingStep(s: State, n: nat, a: Stage, e: Event)
    requires Completed(a) && a.op.result != Ok && Failing(s, n, a)
    ensures Failing(Step(s, e), n, a)
  {
  }

  lemma {:induction false} FailingRun(s: State, n: nat, a: Stage, es: seq<Event>)
    requires Completed(a) && a.op.result != Ok && Failing(s, n, a)
    ensures Failing(Run(s, es), n, a)
  {
    if es != [] {
      FailingRun(s, n, a, es[..|es| - 1]);
      FailingStep(Run(s, es[..|es| - 1]), n, a, es[|es| - 1]);
    }
  }

  lemma FailingHandlerReports(t: State, n: nat, a: Stage, endpointKnown: bool)
    requires ReportedOnce(t.attempts, t.reports) && Completed(a) && a.op.result != Ok && Failing(t, n, a)
    ensures ReportsOf(t.reports, n) == (if t.attempts[n].Over? then [FailureEnd(a)] else [])
    ensures ReportsOf(Step(t, RunHandler(n, endpointKnown)).reports, n) == [FailureEnd(a)]
  {
    FailingHandlerEnds(t, n, a, endpointKnown);
    StepReportsOnce(t, RunHandler(n, endpointKnown));
  }

  lemma FailingHandlerEnds(t: State, n: nat, a: Stage, endpointKnown: bool)
    requires Completed(a) && a.op.result != Ok && Failing(t, n, a)
    ensures EndOf(Step(t, RunHandler(n, endpointKnown)).attempts, n) == [FailureEnd(a)]
    ensures EndOf(t.attempts, n) == if t.attempts[n].Over? then [FailureEnd(a)] else []
  {
  }

  /** An attempt whose operation has failed or was aborted: whatever happens later, it has not reported or
      it has reported exactly once, a resolve failure for a resolve, a connect failure for a connect and
      for an aborted handshake, and a handshake failure for any other handshake. Its handler, whenever it
      runs, makes that report. */
  lemma FailedOperationReports(s: State, n: nat, later: seq<Event>, endpointKnown: bool)
    requires Inv(s) && n < |s.attempts| && Completed(s.attempts[n]) && s.attempts[n].op.result != Ok
    ensures var a, t := s.attempts[n], Run(s, later);
            var end := if a.Resolving? then ResolveFailed
                       else if a.Connecting? || a.op.result == Aborted then ConnectFailed else HandshakeFailed;
            && n < |t.attempts|
            && ReportsOf(t.reports, n) == (if t.attempts[n].Over? then [end] else [])
            && ReportsOf(Step(t, RunHandler(n, endpointKnown)).reports, n) == [end]
  {
    FailingRun(s, n, s.attempts[n], later);
    RunKeepsInv(s, later);
    FailingHandlerReports(Run(s, later), n, s.attempts[n], endpointKnown);
  }

  /** Attempt n waits for the handler of its successful handshake, or has ended with or without a session. */
  predicate Upgrading(s: State, n: nat, stream: nat) {
    && n < |s.attempts|
    && (|| s.attempts[n] == Handshaking(stream, Queued(Ok))
        || s.attempts[n] == Over(NewSession(stream)) || s.attempts[n] == Over(EndpointLost))
  }

  lemma UpgradingStep(s: State, n: nat, stream: nat, e: Event)
    requires Upgrading(s, n, stream)
    ensures Upgrading(Step(s, e), n, stream)
  {
  }

  lemma {:induction false} UpgradingRun(s: State, n: nat, stream: nat, es: seq<Event>)
    requires Upgrading(s, n, stream)
    ensures Upgrading(Run(s, es), n, stream)
  {
    if es != [] {
      UpgradingRun(s, n, stream, es[..|es| - 1]);
      UpgradingStep(Run(s, es[..|es| - 1]), n, stream, es[|es| - 1]);
    }
  }

  /** An attempt whose handshake has succeeded: whatever happens later, timeouts included, it reports at
      most once, and its handler makes the report: a session on the attempt's own stream if the endpoint
      is known, the loss of the endpoint otherwise. */
  lemma SuccessfulHandshakeReports(s: State, n: nat, stream: nat, later: seq<Event>, endpointKnown: bool)
    requires Inv(s) && n < |s.attempts| && s.attempts[n] == Handshaking(stream, Queued(Ok))
    ensures var t := Run(s, later);
            var r := Step(t, RunHandler(n, endpointKnown));
            && n < |t.attempts|
            && (if t.attempts[n].Over?
                then && (t.attempts[n].end == NewSession(stream) || t.attempts[n].end == EndpointLost)
                     && ReportsOf(t.reports, n) == [t.attempts[n].end] && r.reports == t.reports
                else && ReportsOf(t.reports, n) == []
                     && ReportsOf(r.reports, n) == [if endpointKnown then NewSession(stream) else EndpointLost])
  {
    var t := Run(s, later);
    UpgradingRun(s, n, stream, later);
    RunKeepsInv(s, later);
    UpgradeHandlerReports(t, n, stream, endpointKnown);
  }

  lemma UpgradeHandlerReports(t: State, n: nat, stream: nat, endpointKnown: bool)
    requires ReportedOnce(t.attempts, t.reports) && Upgrading(t, n, stream)
    ensures var r := Step(t, RunHandler(n, endpointKnown));
            if t.attempts[n].Over?
            then ReportsOf(t.reports, n) == [t.attempts[n].end] && r.reports == t.reports
            else && ReportsOf(t.reports, n) == []
                 && ReportsOf(r.reports, n) == [if endpointKnown then NewSession(stream) else EndpointLost]
  {
    var r := Step(t, RunHandler(n, endpointKnown));
    StepReportsOnce(t, RunHandler(n, endpointKnown));
    assert ReportsOf(t.reports, n) == EndOf(t.attempts, n);
    assert ReportsOf(r.reports, n) == EndOf(r.attempts, n);
  }

  /** A success before the handshake makes no report: the attempt goes on, with a new stream in the slot
      after the resolve and on the same stream after the connect. */
  lemma SuccessGoesOn(s: State, n: nat, endpointKnown: bool)
    requires n < |s.attempts| && (s.attempts[n].Resolving? || s.attempts[n].Connecting?)
    requires s.attempts[n].op == Queued(Ok)
    ensures var r := Step(s, RunHandler(n, endpointKnown));
            && n < |r.attempts| && r.reports == s.reports && r.timer == s.timer
            && (if s.attempts[n].Resolving?
                then r.attempts[n] == Connecting(s.streams, Outstanding) && r.websocketStream == Some(s.streams)
                else && r.attempts[n] == Handshaking(s.attempts[n].stream, Outstanding)
                     && r.websocketStream == s.websocketStream)
  {
  }

  /** Only the callback of a timer that has expired cancels anything: an aborted wait, that of a timer that
      was cancelled or armed anew, and a callback without an expired timer change nothing. Callbacks run in
      the order in which their timers have expired. */
  lemma OnlyExpiredTimersCancel(s: State, aborted: bool)
    ensures aborted || s.expired == [] ==> Step(s, TimeoutHandler(aborted)) == s
    ensures !aborted && s.expired != [] ==>
              Step(s, TimeoutHandler(aborted)).handled == s.handled + {s.expired[0]}
    ensures s.expired != [] ==> Step(s, Expire).expired[0] == s.expired[0]
  {
  }
}
