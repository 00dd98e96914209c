/** The session object, reduced to its heartbeat (src/session.cpp). */
module Sessions {
  import opened Common
  import opened Heartbeat

  class Session {
    var heartbeatPeriod: int
    var heartbeatTimer: Option<int>

    // stream and io_context
    var now: int
    var open: bool
    var pongsInFlight: nat
    var ready: nat

    ghost var starts: nat
    ghost var pongs: seq<int>

    ghost function Abs(): State
      reads this
    {
      State(now, open, heartbeatPeriod, pongsInFlight, heartbeatTimer, ready, starts, pongs)
    }

    constructor (now: int)
      ensures Abs() == Init(now, 1000)
    {
      this.now := now;
      open := true;
      heartbeatPeriod := 1000;
      heartbeatTimer := None;
      pongsInFlight, ready := 0, 0;
      starts := 0;
      pongs := [];
    }

    method StartConnectionActivityMonitoring(period: int)
      modifies this
      ensures Abs() == Step(old(Abs()), Start(period))
    {
      heartbeatPeriod := period;
      starts := starts + 1;
      SchedulePong();
    }

    method SchedulePong()
      modifies this
      ensures Abs() == Heartbeat.SchedulePong(old(Abs()))
    {
      if !open {
        return;
      }
      pongsInFlight := pongsInFlight + 1;
      pongs := pongs + [now];
    }

    method OnPongWritten(ok: bool)
      requires pongsInFlight > 0
      modifies this
      ensures Abs() == Step(old(Abs()), PongDone(ok))
    {
      pongsInFlight := pongsInFlight - 1;
      if !ok {
        return;
      }
      RestartHeartbeatTimer();
    }

    method RestartHeartbeatTimer()
      modifies this
      ensures Abs() == RestartTimer(old(Abs()))
    {
      heartbeatTimer := Some(now + heartbeatPeriod);
    }

    method OnHeartbeatTimer(aborted: bool)
      requires aborted || ready > 0
      modifies this
      ensures Abs() == Step(old(Abs()), TimerCallback(aborted))
    {
      if aborted {
        return;
      }
      ready := ready - 1;
      SchedulePong();
    }

    /** The io_context delivers one event; one that cannot happen now is skipped. */
    method Deliver(e: Event)
      modifies this
      ensures Abs() == Step(old(Abs()), e)
      ensures old(Tokens(Abs()) <= starts) ==> Tokens(Abs()) <= starts
    {
      match e
      case Start(period) =>
        StartConnectionActivityMonitoring(period);
      case PongDone(ok) =>
        if pongsInFlight > 0 {
          OnPongWritten(ok);
        }
      case Expire =>
        if heartbeatTimer.Some? && heartbeatTimer.value <= now {
          heartbeatTimer := None;
          ready := ready + 1;
        }
      case TimerCallback(aborted) =>
        if aborted || ready > 0 {
          OnHeartbeatTimer(aborted);
        }
      case Close =>
        open := false;
      case Advance(to) =>
        if to > now {
          now := to;
        }
    }
  }
}
