/**
 What each end makes of the packets of any peer at all, legal or not: what it holds of every message, what it
 answers, and when the server's connection ends.
 */
module AnyPeer {
  import opened Wrappers
  import opened Text
  import opened Packets
  import opened Messages
  import AckRecord
  import Client
  import ClientInvariant
  import ClientTheorems
  import SendRequest
  import Server
  import System
  import SystemInvariant

  // ---------------------------------------------------------------- what is held of a message

  /** How many HEADERs came in their turn: those numbered with how many came in their turn before. */
  function HeadersTaken(ps: seq<Packet>): nat {
    if ps == [] then 0
    else
      var n := HeadersTaken(ps[..|ps| - 1]);
      if ps[|ps| - 1].packetType.Header? && ps[|ps| - 1].msgNo == n then n + 1 else n
  }

  /** A TXERR says something: not nothing, and not "0". */
  predicate Meant(body: seq<Byte>) {
    DecodeLossy(body) != "" && DecodeLossy(body) != "0"
  }

  /** An empty EOF or a TXERR that says something ends a message. */
  predicate Ends(p: Packet) {
    (p.packetType.Eof? && p.body == []) || (p.packetType.Txerr? && Meant(p.body))
  }

  /** What is held of message `m` after these packets: the header that came in its turn and the DATA since, until the
      message ends. */
  function Held(ps: seq<Packet>, m: nat): Option<Incoming> {
    if ps == [] then None
    else
      var front, p := ps[..|ps| - 1], ps[|ps| - 1];
      if p.msgNo != m then Held(front, m)
      else if p.packetType.Header? && m == HeadersTaken(front) && p.header.Some? then
        Some(Incoming(p.header.value, [], 0))
      else if p.packetType.Data? && Held(front, m).Some? then
        var x := Held(front, m).value;
        Some(Incoming(x.header, x.body + p.body, x.received + |p.body|))
      else if Ends(p) then None
      else Held(front, m)
  }

  ghost predicate Holds(incoming: map<nat, Incoming>, ps: seq<Packet>) {
    forall m: nat :: if m in incoming then Held(ps, m) == Some(incoming[m]) else Held(ps, m) == None
  }

  lemma HeldSnoc(ps: seq<Packet>, p: Packet, m: nat)
    ensures HeadersTaken(ps + [p])
            == HeadersTaken(ps) + (if p.packetType.Header? && p.msgNo == HeadersTaken(ps) then 1 else 0)
    ensures Held(ps + [p], m) ==
            if p.msgNo != m then Held(ps, m)
            else if p.packetType.Header? && m == HeadersTaken(ps) && p.header.Some? then
              Some(Incoming(p.header.value, [], 0))
            else if p.packetType.Data? && Held(ps, m).Some? then
              Some(Incoming(Held(ps, m).value.header, Held(ps, m).value.body + p.body,
                            Held(ps, m).value.received + |p.body|))
            else if Ends(p) then None
            else Held(ps, m)
  {
    assert (ps + [p])[..|ps|] == ps;
  }

  // ---------------------------------------------------------------- what the server answers

  /** The requests that have ended, in order. */
  function Ended(ps: seq<Packet>): seq<Server.Dispatch> {
    if ps == [] then []
    else
      var front, p := ps[..|ps| - 1], ps[|ps| - 1];
      if p.packetType.Eof? && p.body == [] && Held(front, p.msgNo).Some? then
        var x := Held(front, p.msgNo).value;
        Ended(front) + [Server.Dispatch(p.msgNo, Message(x.header, x.body))]
      else Ended(front)
  }

  /** What one more packet is answered with: DATA of a request being received with an ACK of all its bytes so far, PING
      with a PONG, the end of a request with its whole reply under the next number, all else with nothing. */
  function Answer(service: Server.Service, ps: seq<Packet>, p: Packet): seq<Packet> {
    if p.packetType.Data? && Held(ps, p.msgNo).Some? then
      [AckPacket(p.msgNo, Held(ps, p.msgNo).value.received + |p.body|)]
    else if p.packetType.Ping? then [PongPacket(p.msgNo)]
    else if p.packetType.Eof? && p.body == [] && Held(ps, p.msgNo).Some? then
      var x := Held(ps, p.msgNo).value;
      Full(|Ended(ps)|, Server.ReplyMessage(service, |Ended(ps)|, Message(x.header, x.body)))
    else []
  }

  function Answers(service: Server.Service, ps: seq<Packet>): seq<Packet> {
    if ps == [] then []
    else Answers(service, ps[..|ps| - 1]) + Answer(service, ps[..|ps| - 1], ps[|ps| - 1])
  }

  /** The packet does not close the connection: a HEADER comes in its turn, an ACK or PONG can be written. */
  predicate Fine(service: Server.Service, budget: nat, ps: seq<Packet>, p: Packet) {
    && (p.packetType.Header? ==> p.msgNo == HeadersTaken(ps))
    && (!p.packetType.Eof? && Answer(service, ps, p) != [] ==> |Answers(service, ps)| < budget)
  }

  predicate AllFine(service: Server.Service, budget: nat, ps: seq<Packet>) {
    ps == [] || (AllFine(service, budget, ps[..|ps| - 1])
                 && Fine(service, budget, ps[..|ps| - 1], ps[|ps| - 1]))
  }

  /** The first so many. */
  function Upto(ps: seq<Packet>, n: nat): seq<Packet> {
    if n < |ps| then ps[..n] else ps
  }

  /** The server's state after some packets. */
  ghost predicate Reflects(service: Server.Service, budget: nat, s: Server.ServerState, ps: seq<Packet>) {
    var answers := Answers(service, ps);
    && Holds(s.incoming, ps) && s.nextIn == HeadersTaken(ps)
    && s.dispatched == Ended(ps) && s.nextOut == |Ended(ps)| && s.outgoing == map[]
    && s.wire == Upto(answers, budget) && s.budget == budget - |s.wire|
  }

  lemma UptoMore(a: seq<Packet>, b: seq<Packet>, budget: nat)
    ensures
      var left := budget - |Upto(a, budget)|;
      Upto(a + b, budget) == Upto(a, budget) + Upto(b, left)
  {
    if |a| > budget {
      assert (a + b)[..budget] == a[..budget];
    }
  }

  lemma WrittenUpto(s: Server.ServerState, ps: seq<Packet>)
    ensures Server.Written(s, ps) == s.(wire := s.wire + Upto(ps, s.budget), budget := s.budget - |Upto(ps, s.budget)|)
  {
    assert ps[..|ps|] == ps;
  }

  lemma AnswersSnoc(service: Server.Service, ps: seq<Packet>, p: Packet)
    ensures Answers(service, ps + [p]) == Answers(service, ps) + Answer(service, ps, p)
    ensures Ended(ps + [p]) ==
            if p.packetType.Eof? && p.body == [] && Held(ps, p.msgNo).Some?
            then Ended(ps) + [Server.Dispatch(p.msgNo, Message(Held(ps, p.msgNo).value.header,
                                                               Held(ps, p.msgNo).value.body))]
            else Ended(ps)
  {
    hide Answer, Held;
    assert (ps + [p])[..|ps|] == ps;
  }

  lemma RouteHolds(service: Server.Service, s: Server.ServerState, ps: seq<Packet>, p: Packet)
    requires Holds(s.incoming, ps) && s.nextIn == HeadersTaken(ps)
    requires p.packetType.Header? ==> p.msgNo == HeadersTaken(ps)
    ensures
      var s' := Server.Route(service, s, p).0;
      Holds(s'.incoming, ps + [p]) && s'.nextIn == HeadersTaken(ps + [p])
  {
    hide Server.Respond, Server.Acknowledge, Full, Held, HeadersTaken, DecodeLossy, AckPacket;
    var s' := Server.Route(service, s, p).0;
    HeldSnoc(ps, p, p.msgNo);
    forall m: nat
      ensures if m in s'.incoming then Held(ps + [p], m) == Some(s'.incoming[m]) else Held(ps + [p], m) == None
    {
      HeldSnoc(ps, p, m);
      assert if m in s.incoming then Held(ps, m) == Some(s.incoming[m]) else Held(ps, m) == None;
    }
  }

  /** What one packet does to the writing side. */
  lemma RouteAnswers(service: Server.Service, budget: nat, s: Server.ServerState, ps: seq<Packet>, p: Packet)
    requires Reflects(service, budget, s, ps)
    ensures
      var (s', ok) := Server.Route(service, s, p);
      && (ok <==> Fine(service, budget, ps, p))
      && (ok ==>
            && s'.wire == s.wire + Upto(Answer(service, ps, p), s.budget)
            && s'.budget == s.budget - |Upto(Answer(service, ps, p), s.budget)|
            && s'.outgoing == map[] && s'.dispatched == Ended(ps + [p]) && s'.nextOut == |Ended(ps + [p])|)
  {
    hide Server.Respond, Full, Held, HeadersTaken, DecodeLossy, AckPacket, Server.Written, Ended, Answers;
    var (s', ok) := Server.Route(service, s, p);
    AnswersSnoc(service, ps, p);
    assert if p.msgNo in s.incoming then Held(ps, p.msgNo) == Some(s.incoming[p.msgNo]) else Held(ps, p.msgNo) == None;
    match p.packetType {
      case Header =>
      case Data =>
        if p.msgNo in s.incoming {
          var msg := s.incoming[p.msgNo];
          var s1 := s.(incoming := s.incoming[p.msgNo :=
                         Incoming(msg.header, msg.body + p.body, msg.received + |p.body|)]);
          WrittenUpto(s1, [AckPacket(p.msgNo, msg.received + |p.body|)]);
        }
      case Eof =>
        if p.body == [] && p.msgNo in s.incoming {
          var msg := s.incoming[p.msgNo];
          var s1 := s.(incoming := s.incoming - {p.msgNo});
          WrittenUpto(s1, Full(s.nextOut, Server.ReplyMessage(service, s.nextOut, Message(msg.header, msg.body))));
        }
      case Txerr =>
      case Ack =>
        assert Server.Acknowledge(s.outgoing, p.msgNo, p.body) == s.outgoing;
      case Ping => WrittenUpto(s, [PongPacket(p.msgNo)]);
      case Pong =>
    }
  }

  lemma RouteReflects(service: Server.Service, budget: nat, s: Server.ServerState, ps: seq<Packet>, p: Packet)
    requires Reflects(service, budget, s, ps) && Fine(service, budget, ps, p)
    ensures Reflects(service, budget, Server.Route(service, s, p).0, ps + [p])
  {
    hide Server.Route, Fine, Holds, HeadersTaken, Answer, Ended;
    assert p.packetType.Header? ==> p.msgNo == HeadersTaken(ps) by { FineHeader(service, budget, ps, p); }
    RouteHolds(service, s, ps, p);
    RouteAnswers(service, budget, s, ps, p);
    AnswersSnoc(service, ps, p);
    UptoMore(Answers(service, ps), Answer(service, ps, p), budget);
  }

  lemma FineHeader(service: Server.Service, budget: nat, ps: seq<Packet>, p: Packet)
    requires Fine(service, budget, ps, p)
    ensures p.packetType.Header? ==> p.msgNo == HeadersTaken(ps)
  {
  }

  lemma {:induction false} RouteAllConcat(service: Server.Service, s: Server.ServerState, a: seq<Packet>,
                                          b: seq<Packet>)
    ensures
      var (s', ok) := Server.RouteAll(service, s, a);
      Server.RouteAll(service, s, a + b) == if ok then Server.RouteAll(service, s', b) else (s', false)
    decreases |a|
  {
    hide Server.Route;
    if a == [] {
      assert a + b == b;
    } else {
      assert (a + b)[1..] == a[1..] + b;
      var (s', ok) := Server.Route(service, s, a[0]);
      if ok {
        RouteAllConcat(service, s', a[1..], b);
      }
    }
  }

  lemma RouteAllOne(service: Server.Service, s: Server.ServerState, p: Packet)
    ensures Server.RouteAll(service, s, [p]) == Server.Route(service, s, p)
  {
    hide Server.Route;
    assert [p][1..] == [];
  }

  /** Whatever packets come: the connection stays open exactly while HEADERs come in their turn and the ACKs and PONGs
      can be written. Until then the server holds of each request exactly what has come of it, has dispatched exactly
      those that have ended, and has written exactly the answers, as many as the writer takes. */
  lemma {:induction false} ServerReflects(service: Server.Service, budget: nat, ps: seq<Packet>)
    ensures
      var (s, ok) := Server.RouteAll(service, Server.Fresh(budget), ps);
      (ok <==> AllFine(service, budget, ps)) && (ok ==> Reflects(service, budget, s, ps))
  {
    hide Server.Route, Fine, Reflects;
    if ps == [] {
      NothingReflected(service, budget);
    } else {
      var front, p := ps[..|ps| - 1], ps[|ps| - 1];
      assert ps == front + [p];
      ServerReflects(service, budget, front);
      RouteAllConcat(service, Server.Fresh(budget), front, [p]);
      var s := Server.RouteAll(service, Server.Fresh(budget), front).0;
      RouteAllOne(service, s, p);
      if AllFine(service, budget, front) {
        RouteAnswers(service, budget, s, front, p);
        if Fine(service, budget, front, p) {
          RouteReflects(service, budget, s, front, p);
        }
      }
    }
  }

  lemma NothingReflected(service: Server.Service, budget: nat)
    ensures Reflects(service, budget, Server.Fresh(budget), [])
  {
  }

  // ---------------------------------------------------------------- the client

  /** The packets that the reader of a run has routed. */
  function RoutedIn(events: seq<Client.Event>): seq<Packet> {
    if events == [] then []
    else
      var front, e := events[..|events| - 1], events[|events| - 1];
      RoutedIn(front) + (if e.Packet? && Client.Run(Client.START, front).reading then [e.p] else [])
  }

  /** Nothing but the reader touches what it holds. */
  lemma OthersHoldStill(c: Client.ClientState, e: Client.Event)
    requires ClientInvariant.Inv(c) && !(e.Packet? && c.reading)
    ensures Client.Apply(c, e).incoming == c.incoming && Client.Apply(c, e).nextIn == c.nextIn
  {
    hide Client.Apply, ClientInvariant.Inv;
    if e.Packet? {
      AckRecord.AppliedPacket(c, e);
    } else {
      SystemInvariant.NotYetOutgoing(c);
      System.LocalFrameHolds(c, e);
    }
  }

  /** What the reader keeps of a message after a packet of it. */
  function Kept(c: Client.ClientState, p: Packet): Option<Incoming> {
    var had := if p.msgNo in c.incoming then Some(c.incoming[p.msgNo]) else None;
    if p.packetType.Header? && p.msgNo == c.nextIn && p.header.Some? then Some(Incoming(p.header.value, [], 0))
    else if p.packetType.Data? && had.Some? then
      Some(Incoming(had.value.header, had.value.body + p.body, had.value.received + |p.body|))
    else if Ends(p) then None
    else had
  }

  /** Message `m` is kept so, and every other as it was. */
  ghost predicate KeepsOnly(incoming: map<nat, Incoming>, incoming': map<nat, Incoming>, m: nat,
                            kept: Option<Incoming>) {
    && (if kept.Some? then m in incoming' && incoming'[m] == kept.value else m !in incoming')
    && forall k :: k != m ==> (k in incoming' <==> k in incoming) && (k in incoming ==> incoming'[k] == incoming[k])
  }

  lemma HeaderKept(c: Client.ClientState, p: Packet)
    requires p.packetType.Header?
    ensures KeepsOnly(c.incoming, Client.OnHeader(c, p).incoming, p.msgNo, Kept(c, p))
    ensures Client.OnHeader(c, p).nextIn == c.nextIn + (if p.msgNo == c.nextIn then 1 else 0)
  {
    hide Ends;
    assert !Ends(p) by { NoEnd(p); }
    if p.msgNo != c.nextIn {
    } else if p.header.None? {
    } else {
    }
  }

  lemma NoEnd(p: Packet)
    ensures Ends(p) ==> p.packetType.Eof? || p.packetType.Txerr?
  {
    hide Meant;
  }

  lemma DataKept(c: Client.ClientState, p: Packet, sendOk: bool)
    requires p.packetType.Data?
    ensures KeepsOnly(c.incoming, Client.OnData(c, p, sendOk).incoming, p.msgNo, Kept(c, p))
    ensures Client.OnData(c, p, sendOk).nextIn == c.nextIn
  {
    hide AckPacket, Ends;
    if p.msgNo in c.incoming && p.body == [] {
      assert c.incoming[p.msgNo].body + p.body == c.incoming[p.msgNo].body;
    }
  }

  lemma EndKept(c: Client.ClientState, m: nat, error: Option<Client.ErrorText>, e: Client.Exit)
    ensures KeepsOnly(c.incoming, Client.OnEnd(c, m, error, e).incoming, m, None)
    ensures Client.OnEnd(c, m, error, e).nextIn == c.nextIn
  {
    hide Client.WithExits;
  }

  lemma ReceiveKept(c: Client.ClientState, p: Packet, sendOk: bool)
    ensures
      var c' := Client.Receive(c, p, sendOk);
      && KeepsOnly(c.incoming, c'.incoming, p.msgNo, Kept(c, p))
      && c'.nextIn == c.nextIn + (if p.packetType.Header? && p.msgNo == c.nextIn then 1 else 0)
  {
    hide Server.Acknowledge, DecodeLossy, Client.OnHeader, Client.OnData, Client.OnEnd, AckPacket;
    match p.packetType {
      case Header => HeaderKept(c, p);
      case Data => DataKept(c, p, sendOk);
      case Eof => EndKept(c, p.msgNo, None, Client.ByReply);
      case Txerr => EndKept(c, p.msgNo, Some(Client.PeerError(DecodeLossy(p.body))), Client.ByTxerr);
      case Ack =>
      case Ping =>
      case Pong =>
    }
  }

  lemma ReceiveHolds(c: Client.ClientState, ps: seq<Packet>, p: Packet, sendOk: bool)
    requires Holds(c.incoming, ps) && c.nextIn == HeadersTaken(ps)
    ensures
      var c' := Client.Receive(c, p, sendOk);
      Holds(c'.incoming, ps + [p]) && c'.nextIn == HeadersTaken(ps + [p])
  {
    hide Held, HeadersTaken, Ends, Client.Receive;
    var c' := Client.Receive(c, p, sendOk);
    ReceiveKept(c, p, sendOk);
    HeldSnoc(ps, p, p.msgNo);
    assert if p.msgNo in c.incoming then Held(ps, p.msgNo) == Some(c.incoming[p.msgNo]) else Held(ps, p.msgNo) == None;
    forall m: nat
      ensures if m in c'.incoming then Held(ps + [p], m) == Some(c'.incoming[m]) else Held(ps + [p], m) == None
    {
      HeldSnoc(ps, p, m);
      assert if m in c.incoming then Held(ps, m) == Some(c.incoming[m]) else Held(ps, m) == None;
    }
  }

  /** At any point of any run the client's reader holds of each message exactly what has come of it. */
  lemma {:induction false} ClientHolds(events: seq<Client.Event>)
    ensures
      var c := Client.Run(Client.START, events);
      Holds(c.incoming, RoutedIn(events)) && c.nextIn == HeadersTaken(RoutedIn(events))
  {
    hide Client.Apply, Client.Receive, Holds, HeadersTaken, ClientInvariant.Inv;
    if events == [] {
      NothingHeld();
    } else {
      var front, e := events[..|events| - 1], events[|events| - 1];
      ClientHolds(front);
      var c := Client.Run(Client.START, front);
      if e.Packet? && c.reading {
        ReceiveHolds(c, RoutedIn(front), e.p, e.sendOk);
        AckRecord.AppliedPacket(c, e);
      } else {
        ClientTheorems.Reachable(front);
        OthersHoldStill(c, e);
        assert RoutedIn(front) + [] == RoutedIn(front);
      }
    }
  }

  lemma NothingHeld()
    ensures Holds(map[], []) && HeadersTaken([]) == 0
  {
  }

  /** What the reader answers: DATA of a message it holds with an ACK of all its bytes so far, PING with a PONG. */
  function ReaderAnswer(ps: seq<Packet>, p: Packet): seq<Packet> {
    if p.packetType.Data? && Held(ps, p.msgNo).Some? && p.body != [] then
      [AckPacket(p.msgNo, Held(ps, p.msgNo).value.received + |p.body|)]
    else if p.packetType.Ping? then [PongPacket(p.msgNo)]
    else []
  }

  /** The call of this id, if it is pending, gets this response; nobody else gets anything. */
  ghost predicate Completes(c: Client.ClientState, c': Client.ClientState, id: int, response: Client.Response) {
    && c'.pending == c.pending - {id}
    && c'.delivered == if id in c.pending then c.delivered[id := response] else c.delivered
  }

  lemma EndCompletes(c: Client.ClientState, m: nat, error: Option<Client.ErrorText>, e: Client.Exit)
    requires m in c.incoming
    ensures
      var c', msg := Client.OnEnd(c, m, error, e), c.incoming[m];
      && c'.queue == c.queue
      && Completes(c, c', msg.header.requestId, Client.Response(msg.header, msg.body, error))
  {
    hide Client.WithExits;
  }

  /** Nobody is completed, and these packets are enqueued. */
  predicate Enqueues(c: Client.ClientState, c': Client.ClientState, ps: seq<Packet>) {
    c'.pending == c.pending && c'.delivered == c.delivered && c'.queue == c.queue + ps
  }

  lemma HeaderEnqueues(c: Client.ClientState, p: Packet)
    ensures Enqueues(c, Client.OnHeader(c, p), [])
  {
    assert c.queue + [] == c.queue;
    if p.msgNo != c.nextIn {
    } else if p.header.None? {
    } else {
    }
  }

  lemma DataEnqueues(c: Client.ClientState, p: Packet, sendOk: bool)
    ensures Enqueues(c, Client.OnData(c, p, sendOk),
                     if sendOk && p.msgNo in c.incoming && p.body != []
                     then [AckPacket(p.msgNo, c.incoming[p.msgNo].received + |p.body|)] else [])
  {
    hide AckPacket;
    assert c.queue + [] == c.queue;
    if p.msgNo in c.incoming {
    } else {
    }
  }

  lemma EndIgnored(c: Client.ClientState, m: nat, error: Option<Client.ErrorText>, e: Client.Exit)
    requires m !in c.incoming
    ensures Client.OnEnd(c, m, error, e) == c
  {
    hide Client.Deliver;
  }

  lemma OthersEnqueue(c: Client.ClientState, p: Packet, sendOk: bool)
    requires Ends(p) ==> p.msgNo !in c.incoming
    ensures Enqueues(c, Client.Receive(c, p, sendOk),
                     if !sendOk then []
                     else if p.packetType.Ping? then [PongPacket(p.msgNo)]
                     else if p.packetType.Data? && p.msgNo in c.incoming && p.body != []
                     then [AckPacket(p.msgNo, c.incoming[p.msgNo].received + |p.body|)] else [])
  {
    hide Server.Acknowledge, DecodeLossy, AckPacket, Client.OnHeader, Client.OnData, Client.OnEnd;
    assert c.queue + [] == c.queue;
    match p.packetType {
      case Header => HeaderEnqueues(c, p);
      case Data => DataEnqueues(c, p, sendOk);
      case Eof =>
        if p.body == [] {
          EndIgnored(c, p.msgNo, None, Client.ByReply);
        }
      case Txerr =>
        if Meant(p.body) {
          EndIgnored(c, p.msgNo, Some(Client.PeerError(DecodeLossy(p.body))), Client.ByTxerr);
        }
      case Ack =>
      case Ping =>
      case Pong =>
    }
  }

  /** One more packet of any peer, at any point of any run. The reader enqueues its answer if the writer task takes
      it. A packet that ends a message completes the call the message's header names, if it is pending, with the
      header and body that have come, and the text of a TXERR as the error; no other packet completes anybody. */
  lemma ReaderDoes(events: seq<Client.Event>, p: Packet, sendOk: bool)
    requires Client.Run(Client.START, events).reading
    ensures
      var ps := RoutedIn(events);
      var c, c' := Client.Run(Client.START, events), Client.Run(Client.START, events + [Client.Packet(p, sendOk)]);
      && c'.queue == c.queue + (if sendOk then ReaderAnswer(ps, p) else [])
      && if Ends(p) && Held(ps, p.msgNo).Some? then
           var x := Held(ps, p.msgNo).value;
           var error := if p.packetType.Eof? then None else Some(Client.PeerError(DecodeLossy(p.body)));
           Completes(c, c', x.header.requestId, Client.Response(x.header, x.body, error))
         else c'.pending == c.pending && c'.delivered == c.delivered
  {
    hide Client.Run, Held, DecodeLossy, AckPacket, HeadersTaken, Client.OnEnd, Completes, Client.OnHeader,
         Client.OnData, Server.Acknowledge;
    ClientHolds(events);
    var ps, c := RoutedIn(events), Client.Run(Client.START, events);
    SendRequest.RunSnoc(Client.START, events, Client.Packet(p, sendOk));
    assert if p.msgNo in c.incoming then Held(ps, p.msgNo) == Some(c.incoming[p.msgNo]) else Held(ps, p.msgNo) == None;
    if Ends(p) && p.msgNo in c.incoming {
      if p.packetType.Eof? {
        EndCompletes(c, p.msgNo, None, Client.ByReply);
      } else {
        EndCompletes(c, p.msgNo, Some(Client.PeerError(DecodeLossy(p.body))), Client.ByTxerr);
      }
    } else {
      OthersEnqueue(c, p, sendOk);
    }
  }
}
