/** What connect() promises about its timeout (include/native_streaming/client.hpp:43-49): the attempt is
    cancelled when its time is over. Exactly when the code keeps that promise, as far as cancelling can
    keep it, and what a timeout decides when it does (src/client.cpp). */
module ConnectionTimeouts {
  import opened Common
  import opened ConnectionAttempts

  ghost predicate NoConnect(es: seq<Event>) {
    forall k :: 0 <= k < |es| ==> !es[k].Connect?
  }

  lemma {:induction false} RunAppend(s: State, a: seq<Event>, b: seq<Event>)
    ensures Run(s, a + b) == Run(Run(s, a), b)
  {
    if b == [] {
      assert a + b == a;
    } else {
      var n := |b| - 1;
      assert (a + b)[..|a + b| - 1] == a + b[..n];
      RunAppend(s, a, b[..n]);
    }
  }

  lemma RunCons(s: State, e: Event, es: seq<Event>)
    ensures Run(s, [e] + es) == Run(Step(s, e), es)
  {
    assert [e][..0] == [];
    assert Run(s, [e]) == Step(Run(s, [e][..0]), e);
    RunAppend(s, [e], es);
  }

  predicate Running(s: State, n: nat) {
    n < |s.attempts| && !s.attempts[n].Over?
  }

  predicate HasSession(s: State, n: nat) {
    n < |s.attempts| && s.attempts[n].Over? && s.attempts[n].end.NewSession?
  }

  // ---------------------------------------------------------------- the promise

  /** The timer of a running attempt is armed, or has expired and its callback will run, or its timeout
      has been handled. Timers of other attempts do not count. */
  predicate Guarded(s: State, n: nat) {
    Running(s, n) ==> s.timer == Some(n) || n in s.expired || n in s.handled
  }

  /** The timeout of attempt n is what the next timer callback handles. */
  predicate TimeIsUp(s: State, n: nat) {
    Running(s, n) && s.expired != [] && s.expired[0] == n
  }

  /** If the operation of attempt n is outstanding when the attempt's timeout is handled, it is aborted. An
      operation that has completed is out of reach (see RaceIsAlwaysPossible). */
  predicate CancelsOnTime(s: State, n: nat) {
    TimeIsUp(s, n) && s.attempts[n].op.Outstanding? ==>
      HandleTimeout(s).attempts[n] == s.attempts[n].(op := Queued(Aborted))
  }

  predicate KeepsPromise(s: State, n: nat) {
    Guarded(s, n) && CancelsOnTime(s, n)
  }

  /** No attempt is in flight and no timer callback of an earlier attempt is still to run. */
  predicate Calm(s: State) {
    InFlight(s.attempts) == 0 && s.expired == []
  }

  /** Every further connect() of the run is calm. */
  predicate CalmFrom(s: State, es: seq<Event>) {
    var n := |es| - 1;
    es != [] ==> CalmFrom(s, es[..n]) && (es[n].Connect? ==> Calm(Run(s, es[..n])))
  }

  lemma {:induction false} NoConnectIsCalm(s: State, es: seq<Event>)
    requires NoConnect(es)
    ensures CalmFrom(s, es)
  {
    if es != [] {
      NoConnectIsCalm(s, es[..|es| - 1]);
    }
  }

  // ---------------------------------------------------------------- a calm call keeps it

  /** Attempt n is the only one that can be in flight, and every timer left is its own; until that has
      been handled the slot holds the attempt's stream. */
  predicate Alone(s: State, n: nat) {
    && |s.attempts| == n + 1
    && (forall i :: 0 <= i < n ==> s.attempts[i].Over?)
    && (s.timer == None || s.timer == Some(n))
    && (s.expired == [] || s.expired == [n])
    && (s.timer.Some? ==> s.expired == [])
    && (Running(s, n) && n !in s.handled ==> s.timer.Some? || s.expired == [n])
    && (Running(s, n) && (s.timer.Some? || s.expired == [n]) && !s.attempts[n].Resolving? ==>
          s.websocketStream == Some(s.attempts[n].stream))
  }

  lemma {:induction false} NoneInFlight(attempts: seq<Stage>)
    ensures InFlight(attempts) == 0 <==> forall i :: 0 <= i < |attempts| ==> attempts[i].Over?
  {
    if attempts != [] {
      NoneInFlight(attempts[..|attempts| - 1]);
      assert forall i :: 0 <= i < |attempts| - 1 ==> attempts[i] == attempts[..|attempts| - 1][i];
    }
  }

  lemma CalmConnectIsAlone(s: State)
    requires Calm(s)
    ensures Alone(Step(s, Connect), |s.attempts|)
  {
    NoneInFlight(s.attempts);
  }

  lemma HandleKeepsAlone(s: State, n: nat, i: nat, endpointKnown: bool)
    requires Alone(s, n) && i < |s.attempts|
    ensures Alone(Handle(s, i, endpointKnown), n)
  {
    HandleShape(s, i, endpointKnown);
    assert i < n ==> Handle(s, i, endpointKnown) == s;
  }

  lemma AloneStep(s: State, n: nat, e: Event)
    requires Alone(s, n) && !e.Connect?
    ensures Alone(Step(s, e), n)
  {
    match e
    case Complete(i, r) =>
    case RunHandler(i, endpointKnown) =>
      if i < |s.attempts| {
        HandleKeepsAlone(s, n, i, endpointKnown);
      }
    case Expire =>
    case TimeoutHandler(aborted) =>
      if !aborted && s.expired != [] {
        TimeoutShape(s);
      }
  }

  /** The latest attempt, if there is one, is alone. */
  predicate LatestAlone(s: State) {
    if s.attempts == [] then s.timer == None && s.expired == [] else Alone(s, |s.attempts| - 1)
  }

  lemma LatestAloneStep(s: State, e: Event)
    requires LatestAlone(s) && (e.Connect? ==> Calm(s))
    ensures LatestAlone(Step(s, e)) && |Step(s, e).attempts| >= |s.attempts|
  {
    if e.Connect? {
      CalmConnectIsAlone(s);
    } else if s.attempts != [] {
      AloneStep(s, |s.attempts| - 1, e);
    }
  }

  lemma {:induction false} LatestAloneRun(s: State, es: seq<Event>)
    requires LatestAlone(s) && CalmFrom(s, es)
    ensures LatestAlone(Run(s, es)) && |Run(s, es).attempts| >= |s.attempts|
  {
    if es != [] {
      LatestAloneRun(s, es[..|es| - 1]);
      LatestAloneStep(Run(s, es[..|es| - 1]), es[|es| - 1]);
    }
  }

  lemma AloneKeepsPromise(s: State, n: nat, k: nat)
    requires Alone(s, n) && k <= n
    ensures KeepsPromise(s, k)
  {
  }

  // ---------------------------------------------------------------- another attempt in flight breaks it

  /** Two rounds of completion and handler bring any attempt to its end. */
  function EndAttempt(i: nat): seq<Event> {
    [Complete(i, Failed), RunHandler(i, true), Complete(i, Failed), RunHandler(i, true)]
  }

  function Round(s: State, i: nat, r: Result): State {
    Step(Step(s, Complete(i, r)), RunHandler(i, true))
  }

  lemma RunRound(s: State, i: nat, r: Result, es: seq<Event>)
    ensures Run(s, [Complete(i, r), RunHandler(i, true)] + es) == Run(Round(s, i, r), es)
  {
    RunCons(s, Complete(i, r), [RunHandler(i, true)] + es);
    RunCons(Step(s, Complete(i, r)), RunHandler(i, true), es);
    assert [Complete(i, r)] + ([RunHandler(i, true)] + es) == [Complete(i, r), RunHandler(i, true)] + es;
  }

  /** One round ends the attempt, which cancels the timer, unless the attempt was about to start its next
      operation. */
  lemma RoundEnds(s: State, i: nat)
    requires i < |s.attempts| && (s.attempts[i].Over? ==> s.timer == None)
    ensures var r := Round(s, i, Failed);
            && r.expired == s.expired && r.handled == s.handled && |r.attempts| == |s.attempts|
            && (forall k :: 0 <= k < |s.attempts| && k != i ==> r.attempts[k] == s.attempts[k])
            && (if r.attempts[i].Over? then r.timer == None
                else s.attempts[i].op == Queued(Ok) && r.attempts[i].op.Outstanding?)
  {
  }

  lemma EndingCancelsTimer(s: State, i: nat)
    requires Running(s, i)
    ensures var r := Run(s, EndAttempt(i));
            && r.timer == None && r.expired == s.expired && r.handled == s.handled
            && |r.attempts| == |s.attempts|
            && forall k :: 0 <= k < |s.attempts| && k != i ==> r.attempts[k] == s.attempts[k]
  {
    var s1 := Round(s, i, Failed);
    var second := [Complete(i, Failed), RunHandler(i, true)] + [];
    assert EndAttempt(i) == [Complete(i, Failed), RunHandler(i, true)] + second;
    RunRound(s, i, Failed, second);
    RunRound(s1, i, Failed, []);
    RoundEnds(s, i);
    RoundEnds(s1, i);
  }

  /** The end of any other attempt takes the new attempt's timer away. */
  lemma OverlapBreaksPromise(s: State, i: nat)
    requires Inv(s) && Running(s, i)
    ensures NoConnect(EndAttempt(i)) && !Guarded(Run(Step(s, Connect), EndAttempt(i)), |s.attempts|)
  {
    EndingCancelsTimer(Step(s, Connect), i);
  }

  // ---------------------------------------------------------------- a pending callback breaks it

  /** The new attempt while callbacks of earlier attempts run: its connect has succeeded, but the handler
      has not run yet, so that cancelling passes it by and only empties the slot. */
  predicate PassedBy(s: State, n: nat, stream: nat) {
    n < |s.attempts| && s.attempts[n] == Connecting(stream, Queued(Ok)) && s.timer == Some(n)
  }

  lemma {:induction false} StaleCallbacks(s: State, n: nat, stream: nat, k: nat)
    requires PassedBy(s, n, stream) && k <= |s.expired|
    ensures var r := Run(s, Repeat(TimeoutHandler(false), k));
            && PassedBy(r, n, stream) && |r.attempts| == |s.attempts| && r.expired == s.expired[k..]
            && (k > 0 ==> r.websocketStream == None)
  {
    if k > 0 {
      var es := Repeat(TimeoutHandler(false), k);
      assert es[..k - 1] == Repeat(TimeoutHandler(false), k - 1);
      StaleCallbacks(s, n, stream, k - 1);
      var r := Run(s, es[..k - 1]);
      assert Run(s, es) == Step(r, TimeoutHandler(false));
      assert s.expired[k - 1..][1..] == s.expired[k..];
    }
  }

  /** The new attempt resolves and connects before the callbacks of earlier attempts run. */
  function UntilStale(n: nat): seq<Event> {
    [Complete(n, Ok), RunHandler(n, true), Complete(n, Ok)]
  }

  lemma RunUntilStale(c: State, n: nat)
    requires n < |c.attempts| && c.attempts[n] == Resolving(Outstanding) && c.timer == Some(n)
    ensures var r := Run(c, UntilStale(n));
            PassedBy(r, n, c.streams) && |r.attempts| == |c.attempts| && r.expired == c.expired
  {
    RunRound(c, n, Ok, [Complete(n, Ok)]);
    assert UntilStale(n) == [Complete(n, Ok), RunHandler(n, true)] + [Complete(n, Ok)];
    assert [Complete(n, Ok)] == [Complete(n, Ok)] + [];
    RunCons(Round(c, n, Ok), Complete(n, Ok), []);
  }

  /** Then the callbacks run, the attempt goes on to its handshake, and its own time is over. */
  function Stale(n: nat, callbacks: nat): seq<Event> {
    UntilStale(n) + (Repeat(TimeoutHandler(false), callbacks) + [RunHandler(n, true), Expire])
  }

  lemma RunStale(s: State)
    requires s.expired != []
    ensures var n := |s.attempts|;
            var r := Run(Step(s, Connect), Stale(n, |s.expired|));
            && |r.attempts| == n + 1 && r.attempts[n] == Handshaking(s.streams, Outstanding)
            && r.expired == [n] && r.websocketStream == None
  {
    var n, m, c := |s.attempts|, |s.expired|, Step(s, Connect);
    var callbacks := Repeat(TimeoutHandler(false), m);
    var last := [RunHandler(n, true), Expire];
    RunAppend(c, UntilStale(n), callbacks + last);
    RunUntilStale(c, n);
    var r1 := Run(c, UntilStale(n));
    RunAppend(r1, callbacks, last);
    StaleCallbacks(r1, n, s.streams, m);
    var r2 := Run(r1, callbacks);
    assert last == [RunHandler(n, true)] + ([Expire] + []);
    RunCons(r2, RunHandler(n, true), [Expire] + []);
    RunCons(Step(r2, RunHandler(n, true)), Expire, []);
  }

  /** The slot has been emptied by a callback that was meant for another attempt: when the timeout of the
      new attempt is handled nothing is aborted, and the attempt can still become a session. */
  lemma StaleCallbackBreaksPromise(s: State)
    requires s.expired != []
    ensures var n := |s.attempts|;
            var r := Run(Step(s, Connect), Stale(n, |s.expired|));
            && NoConnect(Stale(n, |s.expired|)) && !CancelsOnTime(r, n)
            && HasSession(Run(r, [TimeoutHandler(false), Complete(n, Ok), RunHandler(n, true)]), n)
  {
    var n := |s.attempts|;
    var r := Run(Step(s, Connect), Stale(n, |s.expired|));
    RunStale(s);
    var t := Step(r, TimeoutHandler(false));
    assert t.attempts[n] == r.attempts[n];
    var more := [TimeoutHandler(false), Complete(n, Ok), RunHandler(n, true)];
    assert more == [TimeoutHandler(false)] + ([Complete(n, Ok), RunHandler(n, true)] + []);
    RunCons(r, TimeoutHandler(false), [Complete(n, Ok), RunHandler(n, true)] + []);
    RunRound(t, n, Ok, []);
  }

  // ---------------------------------------------------------------- the theorems

  /** The promise is kept in every continuation whose further calls are calm. */
  ghost predicate PromiseKeptFrom(s: State, n: nat) {
    forall es :: CalmFrom(s, es) ==> KeepsPromise(Run(s, es), n)
  }

  /** A call of connect() keeps its promise in every continuation whose further calls are calm, if and
      only if it is calm itself: no other attempt is in flight and no timer callback of an earlier attempt
      is still to run. */
  lemma PromiseKeptIffCalm(s: State)
    requires Inv(s)
    ensures Calm(s) <==> PromiseKeptFrom(Step(s, Connect), |s.attempts|)
  {
    var n, c := |s.attempts|, Step(s, Connect);
    if Calm(s) {
      forall es | CalmFrom(c, es) ensures KeepsPromise(Run(c, es), n) {
        CalmCallKeepsPromise(s, es);
      }
    } else if InFlight(s.attempts) > 0 {
      NoneInFlight(s.attempts);
      var i :| 0 <= i < |s.attempts| && !s.attempts[i].Over?;
      OverlapBreaksPromise(s, i);
      NoConnectIsCalm(c, EndAttempt(i));
      assert !KeepsPromise(Run(c, EndAttempt(i)), n);
    } else {
      StaleCallbackBreaksPromise(s);
      NoConnectIsCalm(c, Stale(n, |s.expired|));
      assert !KeepsPromise(Run(c, Stale(n, |s.expired|)), n);
    }
  }

  lemma CalmCallKeepsPromise(s: State, es: seq<Event>)
    requires Calm(s) && CalmFrom(Step(s, Connect), es)
    ensures KeepsPromise(Run(Step(s, Connect), es), |s.attempts|)
  {
    var c := Step(s, Connect);
    CalmConnectIsAlone(s);
    LatestAloneRun(c, es);
    AloneKeepsPromise(Run(c, es), |Run(c, es).attempts| - 1, |s.attempts|);
  }

  /** The timer of attempt n is not armed and has not expired. */
  predicate NoTimer(s: State, n: nat) {
    n < |s.attempts| && s.timer != Some(n) && n !in s.expired && n !in s.handled
  }

  lemma NoTimerStep(s: State, n: nat, e: Event)
    requires NoTimer(s, n)
    ensures NoTimer(Step(s, e), n)
  {
    if e.RunHandler? && e.i < |s.attempts| {
      HandleShape(s, e.i, e.endpointKnown);
    }
  }

  lemma {:induction false} NoTimerRun(s: State, n: nat, es: seq<Event>)
    requires NoTimer(s, n)
    ensures NoTimer(Run(s, es), n)
  {
    if es != [] {
      NoTimerRun(s, n, es[..|es| - 1]);
      NoTimerStep(Run(s, es[..|es| - 1]), n, es[|es| - 1]);
    }
  }

  /** The calls that come later matter as well: one that finds the attempt running with its timer armed
      takes the timer away for good. */
  lemma LaterCallTakesTimer(s: State, n: nat, later: seq<Event>)
    requires Inv(s) && Running(s, n) && s.timer == Some(n)
    ensures !Guarded(Step(s, Connect), n)
    ensures NoTimer(Run(Step(s, Connect), later), n)
  {
    NoTimerRun(Step(s, Connect), n, later);
  }

  /** Two calls in a row, from any state. */
  lemma SecondCallBreaksPromise(s: State)
    requires Inv(s)
    ensures !Guarded(Step(Step(s, Connect), Connect), |s.attempts|)
  {
    StepKeepsInv(s, Connect);
    LaterCallTakesTimer(Step(s, Connect), |s.attempts|, []);
  }

  /** Whole runs: a client whose calls are all calm keeps its promise for every attempt at all times. */
  lemma CalmClientKeepsPromises(es: seq<Event>, n: nat)
    requires CalmFrom(Init(), es) && n < |Run(Init(), es).attempts|
    ensures KeepsPromise(Run(Init(), es), n)
  {
    LatestAloneRun(Init(), es);
    AloneKeepsPromise(Run(Init(), es), |Run(Init(), es).attempts| - 1, n);
  }

  /** The timeout of another attempt leaves attempt n alone. */
  predicate SparesOthers(s: State, n: nat) {
    Running(s, n) && s.expired != [] && s.expired[0] != n ==> HandleTimeout(s).attempts[n] == s.attempts[n]
  }

  /** That is so in every continuation whose further calls are calm. */
  ghost predicate SparedFrom(s: State, n: nat) {
    forall es :: CalmFrom(s, es) ==> SparesOthers(Run(s, es), n)
  }

  /** Attempt n is over, or no timer but its own is left. */
  predicate OnlyTimer(s: State, n: nat) {
    && n < |s.attempts|
    && (s.attempts[n].Over?
        || ((s.timer == None || s.timer == Some(n)) && forall k :: 0 <= k < |s.expired| ==> s.expired[k] == n))
  }

  lemma OnlyTimerStep(s: State, n: nat, e: Event)
    requires OnlyTimer(s, n) && (e.Connect? ==> Calm(s))
    ensures OnlyTimer(Step(s, e), n)
  {
    if e.Connect? {
      NoneInFlight(s.attempts);
    } else if e.RunHandler? && e.i < |s.attempts| {
      HandleShape(s, e.i, e.endpointKnown);
    } else if e.TimeoutHandler? && s.expired != [] {
      TimeoutShape(s);
    }
  }

  lemma {:induction false} OnlyTimerRun(s: State, n: nat, es: seq<Event>)
    requires OnlyTimer(s, n) && CalmFrom(s, es)
    ensures OnlyTimer(Run(s, es), n)
  {
    if es != [] {
      OnlyTimerRun(s, n, es[..|es| - 1]);
      OnlyTimerStep(Run(s, es[..|es| - 1]), n, es[|es| - 1]);
    }
  }

  /** A new attempt is safe from the timeouts of other attempts, in every continuation whose further calls
      are calm, if and only if none of their callbacks is still to run when it starts, whatever else is in
      flight. */
  lemma SparedIffNothingPending(s: State)
    requires Inv(s)
    ensures s.expired == [] <==> SparedFrom(Step(s, Connect), |s.attempts|)
  {
    var n, c := |s.attempts|, Step(s, Connect);
    if s.expired == [] {
      forall es | CalmFrom(c, es) ensures SparesOthers(Run(c, es), n) {
        OnlyTimerRun(c, n, es);
      }
    } else {
      PendingCallbackAborts(s);
      assert CalmFrom(c, []) && Run(c, []) == c;
      assert !SparesOthers(Run(c, []), n);
    }
  }

  lemma PendingCallbackAborts(s: State)
    requires Inv(s) && s.expired != []
    ensures !SparesOthers(Step(s, Connect), |s.attempts|)
  {
    var n, c := |s.attempts|, Step(s, Connect);
    assert s.expired[0] < n && c.expired == s.expired;
    assert HandleTimeout(c).attempts[n] == Resolving(Queued(Aborted));
  }

  /** A client that has called connect() once can break the promise of the second call: while the first
      attempt is in flight, and after it has failed with its expired timer's callback still to run. */
  lemma PromisesBrokenFromInit()
    ensures var s := Run(Init(), [Connect]);
            && InFlight(s.attempts) == 1 && s.expired == []
            && !Guarded(Run(Step(s, Connect), EndAttempt(0)), 1)
    ensures var s := Run(Init(), [Connect, Expire, Complete(0, Failed), RunHandler(0, true)]);
            && InFlight(s.attempts) == 0 && s.expired == [0]
            && !CancelsOnTime(Run(Step(s, Connect), Stale(1, 1)), 1)
  {
    OverlapFromInit();
    StaleFromInit();
  }

  lemma OverlapFromInit()
    ensures var s := Run(Init(), [Connect]);
            && InFlight(s.attempts) == 1 && s.expired == []
            && !Guarded(Run(Step(s, Connect), EndAttempt(0)), 1)
  {
    var s := Step(Init(), Connect);
    assert [Connect] == [Connect] + [];
    RunCons(Init(), Connect, []);
    assert s.attempts == [Resolving(Outstanding)] && s.attempts[..0] == [];
    RunKeepsInv(Init(), [Connect]);
    OverlapBreaksPromise(s, 0);
  }

  lemma StaleFromInit()
    ensures var s := Run(Init(), [Connect, Expire, Complete(0, Failed), RunHandler(0, true)]);
            && InFlight(s.attempts) == 0 && s.expired == [0]
            && !CancelsOnTime(Run(Step(s, Connect), Stale(1, 1)), 1)
  {
    var ending := [Complete(0, Failed), RunHandler(0, true)] + [];
    var a := Step(Init(), Connect);
    var b := Step(a, Expire);
    var s := Round(b, 0, Failed);
    RunCons(Init(), Connect, [Expire] + ending);
    RunCons(a, Expire, ending);
    RunRound(b, 0, Failed, []);
    assert [Connect, Expire, Complete(0, Failed), RunHandler(0, true)] == [Connect] + ([Expire] + ending);
    assert s.attempts == [Over(ResolveFailed)] && s.attempts[..0] == [] && s.expired == [0];
    StaleCallbackBreaksPromise(s);
  }

  // ---------------------------------------------------------------- what a timeout decides

  /** The attempt has failed or is about to report that. */
  predicate Doomed(s: State, n: nat) {
    && n < |s.attempts|
    && (if s.attempts[n].Over? then !s.attempts[n].end.NewSession?
        else s.attempts[n].op.Queued? && s.attempts[n].op.result != Ok)
  }

  ghost predicate NeverSession(s: State, n: nat) {
    forall later :: !HasSession(Run(s, later), n)
  }

  lemma DoomedStep(s: State, n: nat, e: Event)
    requires Doomed(s, n)
    ensures Doomed(Step(s, e), n)
  {
  }

  lemma {:induction false} DoomedForever(s: State, n: nat, es: seq<Event>)
    requires Doomed(s, n)
    ensures Doomed(Run(s, es), n)
  {
    if es != [] {
      DoomedForever(s, n, es[..|es| - 1]);
      DoomedStep(Run(s, es[..|es| - 1]), n, es[|es| - 1]);
    }
  }

  /** Completions and handlers that let a queued success go on to a session. */
  function Succeed(n: nat): seq<Event> {
    [RunHandler(n, true)]
    + ([Complete(n, Ok), RunHandler(n, true)] + ([Complete(n, Ok), RunHandler(n, true)] + []))
  }

  /** A success that is queued leads to the next operation or to a session. */
  lemma SuccessMovesOn(s: State, n: nat)
    requires Running(s, n) && s.attempts[n].op == Queued(Ok)
    ensures var r := Step(s, RunHandler(n, true));
            && n < |r.attempts|
            && (s.attempts[n].Resolving? ==> r.attempts[n].Connecting? && r.attempts[n].op.Outstanding?)
            && (s.attempts[n].Connecting? ==> r.attempts[n].Handshaking? && r.attempts[n].op.Outstanding?)
            && (s.attempts[n].Handshaking? ==> HasSession(r, n))
  {
  }

  lemma SessionStays(s: State, n: nat, e: Event)
    requires HasSession(s, n)
    ensures HasSession(Step(s, e), n)
  {
    assert Step(s, e).attempts[n] == s.attempts[n];
  }

  /** Completion with success, then the handler. */
  lemma SuccessRound(s: State, n: nat)
    requires HasSession(s, n) || (Running(s, n) && s.attempts[n].op.Outstanding?)
    ensures var r := Round(s, n, Ok);
            || HasSession(r, n)
            || (&& Running(s, n) && Running(r, n) && r.attempts[n].op.Outstanding? && !s.attempts[n].Handshaking?
                && (s.attempts[n].Connecting? ==> r.attempts[n].Handshaking?)
                && (s.attempts[n].Resolving? ==> r.attempts[n].Connecting?))
  {
    var c := Step(s, Complete(n, Ok));
    if HasSession(s, n) {
      SessionStays(s, n, Complete(n, Ok));
      SessionStays(c, n, RunHandler(n, true));
    } else {
      SuccessMovesOn(c, n);
    }
  }

  lemma Succeeds(s: State, n: nat)
    requires Running(s, n) && s.attempts[n].op == Queued(Ok)
    ensures HasSession(Run(s, Succeed(n)), n)
  {
    var s1 := Step(s, RunHandler(n, true));
    var s2 := Round(s1, n, Ok);
    var last := [Complete(n, Ok), RunHandler(n, true)] + [];
    RunCons(s, RunHandler(n, true), [Complete(n, Ok), RunHandler(n, true)] + last);
    RunRound(s1, n, Ok, last);
    RunRound(s2, n, Ok, []);
    SuccessMovesOn(s, n);
    SuccessRound(s1, n);
    SuccessRound(s2, n);
  }

  /** An attempt can never become a session, whatever happens and however often connect() is called
      again, if and only if it has failed or a failure of its operation is queued. */
  lemma NeverSessionIffDoomed(s: State, n: nat)
    requires n < |s.attempts|
    ensures NeverSession(s, n) <==> Doomed(s, n)
  {
    if Doomed(s, n) {
      forall later ensures !HasSession(Run(s, later), n) {
        DoomedForever(s, n, later);
      }
    } else if HasSession(s, n) {
      assert Run(s, []) == s;
    } else if s.attempts[n].op.Queued? {
      Succeeds(s, n);
    } else {
      Succeeds(Step(s, Complete(n, Ok)), n);
      RunCons(s, Complete(n, Ok), Succeed(n));
      assert HasSession(Run(s, [Complete(n, Ok)] + Succeed(n)), n);
    }
  }

  /** When the timeout of an attempt is handled, the attempt cannot become a session any more, except in
      the one race that cancelling loses: its current operation has already succeeded and only its
      handler is still to run. This holds for every attempt of a calm connect(), at any point of its
      life. */
  lemma TimeoutDecides(s: State, es: seq<Event>)
    requires Calm(s) && CalmFrom(Step(s, Connect), es)
    requires TimeIsUp(Run(Step(s, Connect), es), |s.attempts|)
    ensures var n, r := |s.attempts|, Run(Step(s, Connect), es);
            r.attempts[n].op != Queued(Ok) <==> NeverSession(HandleTimeout(r), n)
  {
    var n, r := |s.attempts|, Run(Step(s, Connect), es);
    CalmCallKeepsPromise(s, es);
    TimeoutShape(r);
    NeverSessionIffDoomed(HandleTimeout(r), n);
    if r.attempts[n].op.Queued? {
      assert HandleTimeout(r).attempts[n] == r.attempts[n];
    }
  }

  /** The race cannot be excluded: after every connect() the resolve can succeed just before the time is
      over. */
  lemma RaceIsAlwaysPossible(s: State)
    requires Calm(s)
    ensures var n := |s.attempts|;
            var r := Run(Step(s, Connect), [Complete(n, Ok), Expire]);
            TimeIsUp(r, n) && r.attempts[n].op == Queued(Ok) && !NeverSession(HandleTimeout(r), n)
  {
    var n, c := |s.attempts|, Step(s, Connect);
    assert [Complete(n, Ok), Expire] == [Complete(n, Ok)] + ([Expire] + []);
    RunCons(c, Complete(n, Ok), [Expire] + []);
    RunCons(Step(c, Complete(n, Ok)), Expire, []);
    var r := Run(c, [Complete(n, Ok), Expire]);
    NeverSessionIffDoomed(HandleTimeout(r), n);
  }

  /** How a timed-out attempt ends: when its timeout finds the current operation outstanding, then
      whatever happens later, further calls included, the attempt waits for the operation's handler and
      has not reported, or it is over and has reported once, a resolve failure if it was resolving and a
      connect failure otherwise, also for an aborted handshake. The handler, when it runs, ends it. */
  lemma TimedOutAttemptReports(s: State, es: seq<Event>, later: seq<Event>, endpointKnown: bool)
    requires Inv(s) && Calm(s) && CalmFrom(Step(s, Connect), es)
    requires TimeIsUp(Run(Step(s, Connect), es), |s.attempts|)
    requires Run(Step(s, Connect), es).attempts[|s.attempts|].op.Outstanding?
    ensures var n, r := |s.attempts|, Run(Step(s, Connect), es);
            var end := if r.attempts[n].Resolving? then ResolveFailed else ConnectFailed;
            var t := Run(HandleTimeout(r), later);
            && n < |t.attempts|
            && (t.attempts[n] == Over(end) || t.attempts[n] == r.attempts[n].(op := Queued(Aborted)))
            && ReportsOf(t.reports, n) == (if t.attempts[n].Over? then [end] else [])
            && ReportsOf(Step(t, RunHandler(n, endpointKnown)).reports, n) == [end]
  {
    var n, r := |s.attempts|, Run(Step(s, Connect), es);
    CalmCallKeepsPromise(s, es);
    TimeoutShape(r);
    StepKeepsInv(s, Connect);
    RunKeepsInv(Step(s, Connect), es);
    StepKeepsInv(r, TimeoutHandler(false));
    FailedOperationReports(HandleTimeout(r), n, later, endpointKnown);
    FailingRun(HandleTimeout(r), n, HandleTimeout(r).attempts[n], later);
  }
}
