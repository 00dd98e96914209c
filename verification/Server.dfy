/** The server object and its acceptors (src/server.cpp). */
module Servers {
  import opened AcceptLoop

  class TcpAcceptor {
    var open: bool
    var pending: nat
    var finished: nat
    var aborted: nat
    var reading: nat
    ghost var starts: nat

    ghost function Abs(): Acceptor
      reads this
    {
      Acceptor(open, pending, finished, aborted, reading, starts)
    }

    constructor ()
      ensures Abs() == Closed()
    {
      open := false;
      pending, finished, aborted, reading := 0, 0, 0, 0;
      starts := 0;
    }

    /** close() aborts the accepts that are still pending. */
    method Close()
      modifies this
      ensures Abs() == AcceptLoop.Close(old(Abs()))
    {
      open := false;
      aborted := aborted + pending;
      pending := 0;
    }
  }

  class Server {
    const tcpAcceptorV4: TcpAcceptor
    const tcpAcceptorV6: TcpAcceptor

    ghost function Abs(): ServerState
      reads tcpAcceptorV4, tcpAcceptorV6
    {
      ServerState(tcpAcceptorV4.Abs(), tcpAcceptorV6.Abs())
    }

    constructor ()
      ensures fresh(tcpAcceptorV4) && fresh(tcpAcceptorV6) && tcpAcceptorV4 != tcpAcceptorV6
      ensures tcpAcceptorV4.Abs() == Closed() && tcpAcceptorV6.Abs() == Closed()
    {
      tcpAcceptorV4 := new TcpAcceptor();
      tcpAcceptorV6 := new TcpAcceptor();
    }

    /** Succeeds exactly when this call has set up at least one of the acceptors. */
    method Start(canOpenV4: bool, canListenV4: bool, canOpenV6: bool, canListenV6: bool) returns (ok: bool)
      requires tcpAcceptorV4 != tcpAcceptorV6
      modifies tcpAcceptorV4, tcpAcceptorV6
      ensures tcpAcceptorV4.Abs() == Step(old(tcpAcceptorV4.Abs()), Event.Start(canOpenV4, canListenV4))
      ensures tcpAcceptorV6.Abs() == Step(old(tcpAcceptorV6.Abs()), Event.Start(canOpenV6, canListenV6))
      ensures ok <==> || tcpAcceptorV4.starts > old(tcpAcceptorV4.starts)
                      || tcpAcceptorV6.starts > old(tcpAcceptorV6.starts)
    {
      var hasTcpAcceptor := false;
      if !tcpAcceptorV4.open && canOpenV4 {
        tcpAcceptorV4.open := true;
        if canListenV4 {
          StartTcpAccept(tcpAcceptorV4);
          tcpAcceptorV4.starts := tcpAcceptorV4.starts + 1;
          hasTcpAcceptor := true;
        } else {
          tcpAcceptorV4.Close();
        }
      }
      if !tcpAcceptorV6.open && canOpenV6 {
        tcpAcceptorV6.open := true;
        if canListenV6 {
          StartTcpAccept(tcpAcceptorV6);
          tcpAcceptorV6.starts := tcpAcceptorV6.starts + 1;
          hasTcpAcceptor := true;
        } else {
          tcpAcceptorV6.Close();
        }
      }
      ok := hasTcpAcceptor;
    }

    method StartTcpAccept(tcpAcceptor: TcpAcceptor)
      modifies tcpAcceptor
      ensures tcpAcceptor.Abs() == AcceptLoop.StartTcpAccept(old(tcpAcceptor.Abs()))
    {
      if !tcpAcceptor.open {
        return;
      }
      tcpAcceptor.pending := tcpAcceptor.pending + 1;
    }

    method StopTcpAccept(tcpAcceptor: TcpAcceptor)
      modifies tcpAcceptor
      ensures tcpAcceptor.Abs() == Step(old(tcpAcceptor.Abs()), Event.Stop)
    {
      if tcpAcceptor.open {
        tcpAcceptor.Close();
      }
    }

    method Stop()
      requires tcpAcceptorV4 != tcpAcceptorV6
      modifies tcpAcceptorV4, tcpAcceptorV6
      ensures tcpAcceptorV4.Abs() == Step(old(tcpAcceptorV4.Abs()), Event.Stop)
      ensures tcpAcceptorV6.Abs() == Step(old(tcpAcceptorV6.Abs()), Event.Stop)
    {
      StopTcpAccept(tcpAcceptorV4);
      StopTcpAccept(tcpAcceptorV6);
    }

    /** The handler of an accept, aborted by close() or not. */
    method OnAcceptTcpConnection(tcpAcceptor: TcpAcceptor, wasAborted: bool, ok: bool)
      requires if wasAborted then tcpAcceptor.aborted > 0 && !ok else tcpAcceptor.finished > 0
      modifies tcpAcceptor
      ensures tcpAcceptor.Abs() == Step(old(tcpAcceptor.Abs()), if wasAborted then HandleAborted else HandleAccept(ok))
    {
      if wasAborted {
        tcpAcceptor.aborted := tcpAcceptor.aborted - 1;
      } else {
        tcpAcceptor.finished := tcpAcceptor.finished - 1;
      }
      if !ok {
        if !wasAborted {
          StartTcpAccept(tcpAcceptor);
        }
        return;
      }
      // async_read of the connect request
      tcpAcceptor.reading := tcpAcceptor.reading + 1;
    }

    /** The handler of a request read: the request is dealt with, then the loop goes on. */
    method OnRequestRead(tcpAcceptor: TcpAcceptor)
      requires tcpAcceptor.reading > 0
      modifies tcpAcceptor
      ensures tcpAcceptor.Abs() == Step(old(tcpAcceptor.Abs()), HandleRequest)
    {
      tcpAcceptor.reading := tcpAcceptor.reading - 1;
      StartTcpAccept(tcpAcceptor);
    }

    /** The io_context delivers one event to an acceptor; one that cannot happen now is skipped. */
    method DeliverAt(tcpAcceptor: TcpAcceptor, e: Event)
      requires !e.Start? && !e.Stop?
      modifies tcpAcceptor
      ensures tcpAcceptor.Abs() == Step(old(tcpAcceptor.Abs()), e)
    {
      match e
      case Accepted =>
        if tcpAcceptor.pending > 0 {
          tcpAcceptor.pending := tcpAcceptor.pending - 1;
          tcpAcceptor.finished := tcpAcceptor.finished + 1;
        }
      case HandleAccept(ok) =>
        if tcpAcceptor.finished > 0 {
          OnAcceptTcpConnection(tcpAcceptor, false, ok);
        }
      case HandleAborted =>
        if tcpAcceptor.aborted > 0 {
          OnAcceptTcpConnection(tcpAcceptor, true, false);
        }
      case HandleRequest =>
        if tcpAcceptor.reading > 0 {
          OnRequestRead(tcpAcceptor);
        }
    }

    /** One event of the server. */
    method Deliver(e: ServerEvent)
      requires tcpAcceptorV4 != tcpAcceptorV6
      modifies tcpAcceptorV4, tcpAcceptorV6
      ensures Abs() == ServerStep(old(Abs()), e)
    {
      match e
      case StartServer(canOpenV4, canListenV4, canOpenV6, canListenV6) =>
        var _ := Start(canOpenV4, canListenV4, canOpenV6, canListenV6);
      case StopServer =>
        Stop();
      case At(v6, a) =>
        if !a.Start? && !a.Stop? {
          DeliverAt(if v6 then tcpAcceptorV6 else tcpAcceptorV4, a);
        }
    }
  }
}
