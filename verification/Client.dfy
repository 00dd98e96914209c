/** The client object (include/native_streaming/client.hpp, src/client.cpp). */
module Clients {
  import opened Common
  import opened ConnectionAttempts

  class Client {
    // fields of the source
    var websocketStream: Option<nat>
    var timer: Option<nat>   // armed for the attempt of this number

    // the operations and callbacks that the io_context holds for this client
    var attempts: seq<Stage>
    var expired: seq<nat>
    var streams: nat

    ghost var handled: set<nat>
    ghost var reports: seq<Report>

    ghost function Abs(): State
      reads this
    {
      State(attempts, websocketStream, timer, expired, handled, streams, reports)
    }

    constructor ()
      ensures Abs() == Init()
    {
      websocketStream := None;
      timer := None;
      attempts := [];
      expired := [];
      streams := 0;
      handled := {};
      reports := [];
    }

    method Connect()
      modifies this
      ensures Abs() == Step(old(Abs()), Event.Connect)
    {
      CancelTimer();
      timer := Some(|attempts|);
      attempts := attempts + [Resolving(Outstanding)];
    }

    method CancelTimer()
      modifies this`timer
      ensures timer == None
    {
      timer := None;
    }

    method OnConnectionTimeout(aborted: bool)
      requires !aborted ==> expired != []
      modifies this
      ensures Abs() == Step(old(Abs()), TimeoutHandler(aborted))
    {
      if aborted {
        return;
      }
      handled := handled + {expired[0]};
      expired := expired[1..];
      CancelResolver();
      if websocketStream.Some? {
        CancelStream(websocketStream.value);
      }
      websocketStream := None;
    }

    method CancelResolver()
      modifies this`attempts
      ensures attempts == Map((a: Stage) => CancelledStage(a, None), old(attempts))
    {
      var after: seq<Stage> := [];
      for i := 0 to |attempts|
        invariant |after| == i && attempts == old(attempts)
        invariant forall k :: 0 <= k < i ==> after[k] == CancelledStage(attempts[k], None)
      {
        var a := attempts[i];
        after := after + [if a.Resolving? then Resolving(Cancelled(a.op)) else a];
      }
      attempts := after;
    }

    method CancelStream(stream: nat)
      modifies this`attempts
      ensures |attempts| == |old(attempts)|
      ensures forall k :: 0 <= k < |attempts| ==>
                attempts[k] == if old(attempts)[k].Resolving? then old(attempts)[k]
                               else CancelledStage(old(attempts)[k], Some(stream))
    {
      var after: seq<Stage> := [];
      for i := 0 to |attempts|
        invariant |after| == i && attempts == old(attempts)
        invariant forall k :: 0 <= k < i ==>
                    after[k] == if attempts[k].Resolving? then attempts[k]
                                else CancelledStage(attempts[k], Some(stream))
      {
        var a := attempts[i];
        var uses := (a.Connecting? || a.Handshaking?) && a.stream == stream;
        after := after + [if uses then a.(op := Cancelled(a.op)) else a];
      }
      attempts := after;
    }

    method OnResolve(i: nat, r: Result)
      requires i < |attempts|
      modifies this
      ensures Abs() == ConnectionAttempts.OnResolve(old(Abs()), i, r)
    {
      if r != Ok {
        CancelTimer();
        // onResolveFailCallback(ec)
        End(i, ResolveFailed);
        return;
      }
      var stream := streams;
      streams := streams + 1;
      websocketStream := Some(stream);
      attempts := attempts[i := Connecting(stream, Outstanding)];
    }

    method OnConnect(i: nat, r: Result, wsStream: nat)
      requires i < |attempts|
      modifies this
      ensures Abs() == ConnectionAttempts.OnConnect(old(Abs()), i, wsStream, r)
    {
      if r != Ok {
        CancelTimer();
        // onConnectFailCallback(ec)
        End(i, ConnectFailed);
        return;
      }
      attempts := attempts[i := Handshaking(wsStream, Outstanding)];
    }

    method OnUpgradeConnection(i: nat, r: Result, wsStream: nat, endpointKnown: bool)
      requires i < |attempts|
      modifies this
      ensures Abs() == ConnectionAttempts.OnUpgradeConnection(old(Abs()), i, wsStream, r, endpointKnown)
    {
      CancelTimer();
      if r != Ok {
        if r == Aborted {
          // onConnectFailCallback(ec)
          End(i, ConnectFailed);
        } else {
          // onHandshakeFailCallback(ec)
          End(i, HandshakeFailed);
        }
        return;
      }
      if !endpointKnown {
        End(i, EndpointLost);
        return;
      }
      CreateSession();
      // onNewSessionCallback(session)
      End(i, NewSession(wsStream));
    }

    method CreateSession()
      modifies this`websocketStream
      ensures websocketStream == None
    {
      websocketStream := None;
    }

    method End(i: nat, end: End)
      requires i < |attempts|
      modifies this`attempts, this`reports
      ensures attempts == old(attempts)[i := Over(end)] && reports == old(reports) + [Report(i, end)]
    {
      attempts := attempts[i := Over(end)];
      reports := reports + [Report(i, end)];
    }

    /** The io_context delivers one event; one that cannot happen now is skipped. */
    method Deliver(e: Event)
      requires Inv(Abs())
      modifies this
      ensures Abs() == Step(old(Abs()), e)
      ensures Inv(Abs())
    {
      StepKeepsInv(Abs(), e);
      match e
      case Connect =>
        Connect();
      case Complete(i, result) =>
        if i < |attempts| {
          attempts := attempts[i := CompleteOp(attempts[i], result)];
        }
      case RunHandler(i, endpointKnown) =>
        if i < |attempts| {
          match attempts[i]
          case Resolving(Queued(r)) => OnResolve(i, r);
          case Connecting(stream, Queued(r)) => OnConnect(i, r, stream);
          case Handshaking(stream, Queued(r)) => OnUpgradeConnection(i, r, stream, endpointKnown);
          case _ =>
        }
      case Expire =>
        if timer.Some? {
          expired := expired + [timer.value];
          timer := None;
        }
      case TimeoutHandler(aborted) =>
        if aborted || expired != [] {
          OnConnectionTimeout(aborted);
        }
    }
  }
}
