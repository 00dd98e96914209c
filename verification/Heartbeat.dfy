/** The heartbeat of a session (src/session.cpp:111-166): an unsolicited pong (section 5.5.3 of
    RFC 6455), and a timer that is armed again when the pong has been written. */
module Heartbeat {
  import opened Common

  datatype State = State(
    now: int,
    open: bool,                // the stream is open
    heartbeatPeriod: int,
    pongsInFlight: nat,
    timer: Option<int>,        // expiry of the armed heartbeat timer
    ready: nat,                // expired timer callbacks that have not run yet
    starts: nat,               // calls of startConnectionActivityMonitoring
    pongs: seq<int>)           // when the pongs were issued

  datatype Event =
    | Start(period: int)
    | PongDone(ok: bool)
    | Expire
    | TimerCallback(aborted: bool)
    | Close
    | Advance(to: int)

  function Init(now: int, period: int): State {
    State(now, true, period, 0, None, 0, 0, [])
  }

  function SchedulePong(s: State): State {
    if !s.open then s else s.(pongsInFlight := s.pongsInFlight + 1, pongs := s.pongs + [s.now])
  }

  function StartMonitoring(s: State, period: int): State {
    SchedulePong(s.(heartbeatPeriod := period, starts := s.starts + 1))
  }

  /** Setting the expiry cancels a wait that is still armed; its callback will do nothing. */
  function RestartTimer(s: State): State {
    s.(timer := Some(s.now + s.heartbeatPeriod))
  }

  function Step(s: State, e: Event): State {
    match e
    case Start(period) => StartMonitoring(s, period)
    case PongDone(ok) =>
      if s.pongsInFlight == 0 then s
      else if !ok then s.(pongsInFlight := s.pongsInFlight - 1)
      else RestartTimer(s.(pongsInFlight := s.pongsInFlight - 1))
    case Expire => if s.timer.Some? && s.timer.value <= s.now then s.(timer := None, ready := s.ready + 1) else s
    case TimerCallback(aborted) => if aborted || s.ready == 0 then s else SchedulePong(s.(ready := s.ready - 1))
    case Close => s.(open := false)
    case Advance(to) => if to > s.now then s.(now := to) else s
  }

  function Run(s: State, es: seq<Event>): State {
    if es == [] then s else Step(Run(s, es[..|es| - 1]), es[|es| - 1])
  }

  /** Pongs in flight, an armed timer and timer callbacks about to run. */
  function Tokens(s: State): nat {
    s.pongsInFlight + s.ready + if s.timer.Some? then 1 else 0
  }

  /** However often monitoring is started, no more heartbeats are alive than starts. */
  lemma {:induction false} TokensBoundedByStarts(now: int, period: int, es: seq<Event>)
    ensures Tokens(Run(Init(now, period), es)) <= Run(Init(now, period), es).starts
    ensures Tokens(Run(Init(now, period), es)) <= StartCount(es)
  {
    StartsAreCounted(now, period, es);
    if es != [] {
      TokensBoundedByStarts(now, period, es[..|es| - 1]);
    }
  }

  function StartCount(es: seq<Event>): nat {
    if es == [] then 0 else StartCount(es[..|es| - 1]) + if es[|es| - 1].Start? then 1 else 0
  }

  lemma {:induction false} StartsAreCounted(now: int, period: int, es: seq<Event>)
    ensures Run(Init(now, period), es).starts == StartCount(es)
  {
    if es != [] {
      StartsAreCounted(now, period, es[..|es| - 1]);
    }
  }

  ghost predicate NoStart(es: seq<Event>) {
    forall k :: 0 <= k < |es| ==> !es[k].Start?
  }

  /** One heartbeat: consecutive pongs are at least a period apart, and so is the next one. */
  predicate Spaced(s: State, t0: int, period: int) {
    && s.heartbeatPeriod == period && s.now >= t0
    && Tokens(s) <= 1
    && (s.pongs != [] ==> s.pongs[0] == t0)
    && (forall k :: 0 <= k < |s.pongs| ==> t0 <= s.pongs[k] <= s.now)
    && (forall k :: 0 < k < |s.pongs| ==> s.pongs[k] - s.pongs[k - 1] >= period)
    && (s.pongs == [] ==> Tokens(s) == 0)
    && (s.pongs != [] && s.timer.Some? ==> s.timer.value >= s.pongs[|s.pongs| - 1] + period)
    && (s.pongs != [] && s.ready > 0 ==> s.now >= s.pongs[|s.pongs| - 1] + period)
  }

  lemma {:induction false} RunKeepsSpaced(s: State, es: seq<Event>, t0: int, period: int)
    requires Spaced(s, t0, period) && NoStart(es)
    ensures Spaced(Run(s, es), t0, period)
  {
    if es != [] {
      RunKeepsSpaced(s, es[..|es| - 1], t0, period);
      SpacedStep(Run(s, es[..|es| - 1]), es[|es| - 1], t0, period);
    }
  }

  lemma SpacedStep(s: State, e: Event, t0: int, period: int)
    requires Spaced(s, t0, period) && !e.Start?
    ensures Spaced(Step(s, e), t0, period)
  {
  }

  lemma {:induction false} SpacedSum(pongs: seq<int>, period: int, k: nat)
    requires forall i :: 0 < i < |pongs| ==> pongs[i] - pongs[i - 1] >= period
    requires k < |pongs|
    ensures pongs[k] - pongs[0] >= k * period
  {
    if k > 0 {
      SpacedSum(pongs, period, k - 1);
      assert k * period == (k - 1) * period + period;
    }
  }

  lemma {:induction false} ProductExceeds(n: int, q: int, period: int)
    requires period > 0 && n > q
    ensures n * period >= q * period + period
    decreases n - q
  {
    assert n * period == (n - 1) * period + period;
    if n - 1 > q {
      ProductExceeds(n - 1, q, period);
    }
  }

  lemma QuotientBound(n: nat, period: int, elapsed: int)
    requires period > 0 && n * period <= elapsed
    ensures n <= elapsed / period
  {
    if n > elapsed / period {
      ProductExceeds(n, elapsed / period, period);
    }
  }

  /** Rate of the heartbeat: with one start at t0 and a positive period, at most one of pong, armed
      timer and pending callback is alive, pongs are at least a period apart, and by the time `now`
      there have been at most floor((now - t0) / period) + 1 of them, however slow the writes and the
      timer callbacks are. */
  lemma RateBound(t0: int, before: int, period: int, es: seq<Event>)
    requires period > 0 && NoStart(es)
    ensures var s := Run(StartMonitoring(Init(t0, before), period), es);
            && Tokens(s) <= 1
            && |s.pongs| <= (s.now - t0) / period + 1
            && forall k :: 0 < k < |s.pongs| ==> s.pongs[k] - s.pongs[k - 1] >= period
  {
    var start := StartMonitoring(Init(t0, before), period);
    RunKeepsSpaced(start, es, t0, period);
    var s := Run(start, es);
    if s.pongs != [] {
      var last := |s.pongs| - 1;
      SpacedSum(s.pongs, period, last);
      QuotientBound(last, period, s.now - t0);
    } else {
      QuotientBound(0, period, s.now - t0);
    }
  }

  // ---------------------------------------------------------------- the heartbeat goes on

  /** No further start, and neither a close nor a failed pong. */
  ghost predicate Undisturbed(es: seq<Event>) {
    forall k :: 0 <= k < |es| ==> !es[k].Start? && !es[k].Close? && es[k] != PongDone(false)
  }

  predicate OneToken(s: State, period: int) {
    s.open && Tokens(s) == 1 && s.heartbeatPeriod == period
  }

  lemma OneTokenStep(s: State, e: Event, period: int)
    requires OneToken(s, period) && !e.Start? && !e.Close? && e != PongDone(false)
    ensures OneToken(Step(s, e), period)
  {
  }

  lemma {:induction false} OneTokenRun(s: State, es: seq<Event>, period: int)
    requires OneToken(s, period) && Undisturbed(es)
    ensures OneToken(Run(s, es), period)
  {
    if es != [] {
      OneTokenRun(s, es[..|es| - 1], period);
      OneTokenStep(Run(s, es[..|es| - 1]), es[|es| - 1], period);
    }
  }

  /** After one start on an open stream, as long as no pong fails, exactly one heartbeat is alive: a pong in
      flight, an armed timer or a callback about to run. */
  lemma ExactlyOneAlive(t0: int, before: int, period: int, es: seq<Event>)
    requires Undisturbed(es)
    ensures var s := Run(StartMonitoring(Init(t0, before), period), es);
            s.open && Tokens(s) == 1 && s.heartbeatPeriod == period
  {
    OneTokenRun(StartMonitoring(Init(t0, before), period), es, period);
  }

  /** The pong is written, time passes, the timer expires if it is due, and its callback runs. */
  function Beat(to: int): seq<Event> {
    [PongDone(true), Advance(to), Expire, TimerCallback(false)]
  }

  lemma RunBeat(s: State, to: int)
    ensures Run(s, Beat(to)) == Step(Step(Step(Step(s, PongDone(true)), Advance(to)), Expire), TimerCallback(false))
  {
    var e1 := [PongDone(true)];
    var e2 := e1 + [Advance(to)];
    var e3 := e2 + [Expire];
    assert [] + [PongDone(true)] == e1 && Beat(to) == e3 + [TimerCallback(false)];
    RunSnoc(s, [], PongDone(true));
    RunSnoc(s, e1, Advance(to));
    RunSnoc(s, e2, Expire);
    RunSnoc(s, e3, TimerCallback(false));
  }

  lemma RunSnoc(s: State, es: seq<Event>, e: Event)
    ensures Run(s, es + [e]) == Step(Run(s, es), e)
  {
    assert (es + [e])[..|es|] == es;
  }

  lemma TimerDue(s: State, due: int)
    requires s.open && s.timer == Some(due) && s.ready == 0
    ensures Step(Step(s, Expire), TimerCallback(false)).pongs == s.pongs + if due <= s.now then [s.now] else []
  {
    assert s.pongs + [] == s.pongs;
  }

  /** The period is that of the session, counted from the moment at which the pong has been written: the
      next pong is issued if and only if at least that much time has passed. */
  lemma NextPongAfterPeriod(s: State, to: int)
    requires s.open && s.pongsInFlight == 1 && Tokens(s) == 1 && to >= s.now
    ensures Run(s, Beat(to)).pongs == s.pongs + if to >= s.now + s.heartbeatPeriod then [to] else []
  {
    RunBeat(s, to);
    TimerDue(Step(Step(s, PongDone(true)), Advance(to)), s.now + s.heartbeatPeriod);
  }

  /** Exactly what issues a pong, and when: a start or an expired timer's callback on an open stream. */
  lemma PongIssuedIff(s: State, e: Event)
    ensures Step(s, e).pongs
         == s.pongs + if s.open && (e.Start? || (e == TimerCallback(false) && s.ready > 0)) then [s.now] else []
  {
    assert s.pongs + [] == s.pongs;
  }

  /** A pong that could not be written ends its heartbeat: no other one follows until the next start. */
  lemma {:induction false} FailedPongEnds(s: State, es: seq<Event>)
    requires s.pongsInFlight == 1 && Tokens(s) == 1 && NoStart(es)
    ensures var r := Run(Step(s, PongDone(false)), es); Tokens(r) == 0 && r.pongs == s.pongs
  {
    if es != [] {
      FailedPongEnds(s, es[..|es| - 1]);
    }
  }

  /** On a stream that has been closed no pong is issued any more, whatever else happens. */
  lemma {:induction false} ClosedIsSilent(s: State, es: seq<Event>)
    requires !s.open
    ensures !Run(s, es).open && Run(s, es).pongs == s.pongs
  {
    if es != [] {
      ClosedIsSilent(s, es[..|es| - 1]);
    }
  }

  /** Wherever the heartbeat is, it can beat again. */
  lemma NeverStops(t0: int, before: int, period: int, es: seq<Event>)
    requires Undisturbed(es)
    ensures var s := Run(StartMonitoring(Init(t0, before), period), es);
            exists to :: Undisturbed(Beat(to)) && Run(s, Beat(to)).pongs == s.pongs + [to]
  {
    var s := Run(StartMonitoring(Init(t0, before), period), es);
    ExactlyOneAlive(t0, before, period, es);
    var due := if s.timer.Some? then s.timer.value else s.now + period;
    var to := if due > s.now then due else s.now;
    RunBeat(s, to);
    assert Undisturbed(Beat(to));
  }
}
