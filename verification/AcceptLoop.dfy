/** The accept loops of the server (src/server.cpp:27-153), one per acceptor. */
module AcceptLoop {
  import opened Common

  /** One acceptor: whether it is open and what is outstanding for it. */
  datatype Acceptor = Acceptor(
    open: bool,
    pending: nat,     // accepts that wait for a connection
    finished: nat,    // accepts that have completed, with their handlers still to run
    aborted: nat,     // accepts aborted by close(), with their handlers still to run
    reading: nat,     // request reads, until their handlers have run
    starts: nat)      // starts that have succeeded for this acceptor

  datatype Event =
    | Start(canOpen: bool, canListen: bool)   // what open() and bind()/listen() would say
    | Stop
    | Accepted                                // a pending accept completes, well or with an error
    | HandleAccept(ok: bool)                  // onAcceptTcpConnection without operation_aborted
    | HandleAborted                           // onAcceptTcpConnection with operation_aborted
    | HandleRequest                           // the request has been read, well or with an error

  function Closed(): Acceptor { Acceptor(false, 0, 0, 0, 0, 0) }

  function StartTcpAccept(a: Acceptor): Acceptor {
    if !a.open then a else a.(pending := a.pending + 1)
  }

  function Close(a: Acceptor): Acceptor {
    a.(open := false, pending := 0, aborted := a.aborted + a.pending)
  }

  /** start() for one acceptor; opening an acceptor that is open is an error and changes nothing. */
  function Open(a: Acceptor, canOpen: bool, canListen: bool): Acceptor {
    if a.open || !canOpen then a
    else if !canListen then Close(a.(open := true))
    else StartTcpAccept(a.(open := true, starts := a.starts + 1))
  }

  function Step(a: Acceptor, e: Event): Acceptor {
    match e
    case Start(canOpen, canListen) => Open(a, canOpen, canListen)
    case Stop => if a.open then Close(a) else a
    case Accepted => if a.pending > 0 then a.(pending := a.pending - 1, finished := a.finished + 1) else a
    case HandleAccept(ok) =>
      if a.finished == 0 then a
      else if ok then a.(finished := a.finished - 1, reading := a.reading + 1)
      else StartTcpAccept(a.(finished := a.finished - 1))
    case HandleAborted => if a.aborted > 0 then a.(aborted := a.aborted - 1) else a
    case HandleRequest => if a.reading > 0 then StartTcpAccept(a.(reading := a.reading - 1)) else a
  }

  function Run(a: Acceptor, es: seq<Event>): Acceptor {
    if es == [] then a else Step(Run(a, es[..|es| - 1]), es[|es| - 1])
  }

  /** Accept loops that are still going. */
  function Loops(a: Acceptor): nat { a.pending + a.finished + a.reading }

  predicate Inv(a: Acceptor) {
    && Loops(a) + a.aborted <= a.starts
    && (a.open ==> Loops(a) >= 1)
    && (!a.open ==> a.pending == 0)
  }

  lemma StepKeepsInv(a: Acceptor, e: Event)
    requires Inv(a)
    ensures Inv(Step(a, e))
  {
  }

  lemma {:induction false} RunKeepsInv(a: Acceptor, es: seq<Event>)
    requires Inv(a)
    ensures Inv(Run(a, es))
  {
    if es != [] {
      RunKeepsInv(a, es[..|es| - 1]);
    }
  }

  /** Over any run of starts and stops: outstanding accepts and request reads, including completions
      that have not been handled, never exceed the successful starts, an open acceptor never stops
      accepting, and after a single start there is exactly one loop while the acceptor is open. */
  lemma {:induction false} LoopsBounded(es: seq<Event>)
    ensures var a := Run(Closed(), es);
            && Loops(a) + a.aborted <= a.starts
            && (a.open ==> Loops(a) >= 1)
            && (a.open && a.starts == 1 ==> Loops(a) == 1 && a.aborted == 0)
  {
    RunKeepsInv(Closed(), es);
  }

  /** A start succeeds exactly on a closed acceptor that can be opened and set up, and then it adds one
      loop. A start on an open acceptor changes nothing, and one that fails leaves the acceptor closed
      with the loops that it had. */
  lemma StartAddsLoop(a: Acceptor, canOpen: bool, canListen: bool)
    requires Inv(a)
    ensures var r := Step(a, Start(canOpen, canListen));
            && (a.open ==> r == a)
            && (!a.open && canOpen && canListen ==> r.open && Loops(r) == Loops(a) + 1 && r.starts == a.starts + 1)
            && (!a.open && !(canOpen && canListen) ==> !r.open && Loops(r) == Loops(a) && r.starts == a.starts)
  {
  }

  /** Handlers that are still to run, those of aborted accepts included. */
  function Handlers(a: Acceptor): nat { Loops(a) + a.aborted }

  /** Stopping loses no handler: every accept that is pending ends with an aborted one, which takes its loop
      with it, and accepted connections and requests being read stay. */
  lemma StopAbortsAccepts(a: Acceptor)
    requires Inv(a)
    ensures var r := Step(a, Stop);
            && !r.open && Handlers(r) == Handlers(a) && Loops(r) == a.finished + a.reading
            && r.finished == a.finished && r.reading == a.reading && r.starts == a.starts
  {
  }

  /** A closed acceptor winds down: until the next start no accept begins and no loop is added. */
  lemma {:induction false} WindsDown(a: Acceptor, es: seq<Event>)
    requires Inv(a) && !a.open && forall k :: 0 <= k < |es| ==> !es[k].Start?
    ensures var r := Run(a, es);
            !r.open && r.pending == 0 && Loops(r) <= Loops(a) && Handlers(r) <= Handlers(a)
  {
    if es != [] {
      WindsDown(a, es[..|es| - 1]);
    }
  }

  ghost predicate NoRestart(es: seq<Event>) {
    forall k :: 0 <= k < |es| ==> !es[k].Start? && !es[k].Stop?
  }

  /** While the acceptor stays open, loops are neither lost nor gained. */
  lemma {:induction false} LoopsConstant(a: Acceptor, es: seq<Event>)
    requires a.open && NoRestart(es)
    ensures Run(a, es).open && Loops(Run(a, es)) == Loops(a)
  {
    if es != [] {
      LoopsConstant(a, es[..|es| - 1]);
    }
  }

  /** A restarted acceptor has a single accept outstanding from then on exactly when nothing of an
      earlier start is left over: a request still being read, or an accepted connection not yet
      handled, will find the acceptor open again and continue its own loop. */
  lemma SingleLoopIffNothingLeft(es: seq<Event>)
    requires !Run(Closed(), es).open
    ensures var a := Run(Closed(), es);
            (a.finished + a.reading == 0
             <==> forall later :: NoRestart(later) ==> Loops(Run(Step(a, Start(true, true)), later)) == 1)
  {
    RunKeepsInv(Closed(), es);
    var a := Run(Closed(), es);
    var s := Step(a, Start(true, true));
    forall later | NoRestart(later) ensures Loops(Run(s, later)) == 1 + a.finished + a.reading {
      LoopsConstant(s, later);
    }
    assert NoRestart([]) && Run(s, []) == s;
  }

  lemma RunSnoc(a: Acceptor, es: seq<Event>, e: Event)
    ensures Run(a, es + [e]) == Step(Run(a, es), e)
  {
    assert (es + [e])[..|es|] == es;
  }

  /** The server is started, accepts a connection, and is stopped while it reads the request, k times. */
  function Interrupted(k: nat): seq<Event> {
    if k == 0 then []
    else Interrupted(k - 1) + [Start(true, true)] + [Accepted] + [HandleAccept(true)] + [Stop]
  }

  /** One such round leaves one more request read behind. */
  lemma RunRound(a: Acceptor, es: seq<Event>, k: nat)
    requires Run(a, es) == Acceptor(false, 0, 0, 0, k, k)
    ensures Run(a, es + [Start(true, true)] + [Accepted] + [HandleAccept(true)] + [Stop])
         == Acceptor(false, 0, 0, 0, k + 1, k + 1)
  {
    RunSnoc(a, es, Start(true, true));
    RunSnoc(a, es + [Start(true, true)], Accepted);
    RunSnoc(a, es + [Start(true, true)] + [Accepted], HandleAccept(true));
    RunSnoc(a, es + [Start(true, true)] + [Accepted] + [HandleAccept(true)], Stop);
  }

  lemma {:induction false} InterruptedLeavesReads(k: nat)
    ensures Run(Closed(), Interrupted(k)) == Acceptor(false, 0, 0, 0, k, k)
  {
    if k > 0 {
      InterruptedLeavesReads(k - 1);
      RunRound(Closed(), Interrupted(k - 1), k - 1);
    }
  }

  /** The bound is reached: every number of restarts can leave as many loops as there were starts. With
      k = 1, a server that is stopped while it reads one request and started again has two. */
  lemma RestartsAddLoops(k: nat)
    ensures var a := Run(Closed(), Interrupted(k) + [Start(true, true)]);
            && a.open && Loops(a) == a.starts == k + 1
            && (k > 0 ==> Step(a, HandleRequest).pending == 2)
  {
    InterruptedLeavesReads(k);
    RunSnoc(Closed(), Interrupted(k), Start(true, true));
  }

  // ---------------------------------------------------------------- the server's two acceptors

  /** What happens to a server: start() and stop() reach both acceptors, any other event one of them. */
  datatype ServerEvent =
    | StartServer(canOpenV4: bool, canListenV4: bool, canOpenV6: bool, canListenV6: bool)
    | StopServer
    | At(v6: bool, e: Event)

  /** What an event of the server is for one of the acceptors. */
  function Seen(e: ServerEvent, v6: bool): Option<Event> {
    match e
    case StartServer(open4, listen4, open6, listen6) =>
      Some(if v6 then Start(open6, listen6) else Start(open4, listen4))
    case StopServer => Some(Stop)
    case At(of6, a) => if of6 != v6 || a.Start? || a.Stop? then None else Some(a)
  }

  function StepSeen(a: Acceptor, e: ServerEvent, v6: bool): Acceptor {
    if Seen(e, v6).Some? then Step(a, Seen(e, v6).value) else a
  }

  datatype ServerState = ServerState(v4: Acceptor, v6: Acceptor)

  function ServerStep(s: ServerState, e: ServerEvent): ServerState {
    ServerState(StepSeen(s.v4, e, false), StepSeen(s.v6, e, true))
  }

  function ServerRun(s: ServerState, es: seq<ServerEvent>): ServerState {
    if es == [] then s else ServerStep(ServerRun(s, es[..|es| - 1]), es[|es| - 1])
  }

  function AllSeen(es: seq<ServerEvent>, v6: bool): seq<Event> {
    if es == [] then []
    else
      var last := Seen(es[|es| - 1], v6);
      AllSeen(es[..|es| - 1], v6) + if last.Some? then [last.value] else []
  }

  lemma StepSeenIsRun(a: Acceptor, es: seq<Event>, e: ServerEvent, v6: bool)
    ensures StepSeen(Run(a, es), e, v6) == Run(a, es + if Seen(e, v6).Some? then [Seen(e, v6).value] else [])
  {
    if Seen(e, v6).Some? {
      RunSnoc(a, es, Seen(e, v6).value);
    } else {
      assert es + [] == es;
    }
  }

  /** The two acceptors do not disturb each other: in every run of the server each is in a run of its own,
      so that what holds of every run of an acceptor holds of both. */
  lemma {:induction false} AcceptorsAreIndependent(s: ServerState, es: seq<ServerEvent>)
    ensures ServerRun(s, es) == ServerState(Run(s.v4, AllSeen(es, false)), Run(s.v6, AllSeen(es, true)))
  {
    if es != [] {
      var before, e := es[..|es| - 1], es[|es| - 1];
      AcceptorsAreIndependent(s, before);
      StepSeenIsRun(s.v4, AllSeen(before, false), e, false);
      StepSeenIsRun(s.v6, AllSeen(before, true), e, true);
    }
  }

  /** A server that has been started once has one loop on each acceptor that is open. */
  lemma ServerLoops(es: seq<ServerEvent>)
    ensures var s := ServerRun(ServerState(Closed(), Closed()), es);
            && Inv(s.v4) && Inv(s.v6)
            && (s.v4.open && s.v4.starts == 1 ==> Loops(s.v4) == 1)
            && (s.v6.open && s.v6.starts == 1 ==> Loops(s.v6) == 1)
  {
    AcceptorsAreIndependent(ServerState(Closed(), Closed()), es);
    RunKeepsInv(Closed(), AllSeen(es, false));
    RunKeepsInv(Closed(), AllSeen(es, true));
  }
}
