/** What travels: both ends send legal packets only, short enough for the other's buffer, if the headers are. */
module Traffic {
  import opened Wrappers
  import opened Text
  import opened Packets
  import opened Framing
  import opened Messages
  import opened Client
  import opened ReplyStream
  import opened System
  import SystemInvariant
  import ClientInvariant
  import Server

  /** With 34 bytes of header line, two line ends and the trailer, the longest frame that cannot trip the cap. */
  const LONGEST_HEADER: nat := SAFE_FRAME - 41

  /** Packets that travel safely: legal, and not so long that they can trip the buffer cap. */
  ghost predicate Deliverable(codec: HeaderCodec, ps: seq<Packets.Packet>) {
    AllSendable(codec, ps) && forall i :: 0 <= i < |ps| ==> |Framed(codec, ps[i])| <= SAFE_FRAME
  }

  /** A header that is read back as it was and is short enough, and a body of fewer than 2^64 bytes. */
  ghost predicate GoodMessage(codec: HeaderCodec, msg: Message) {
    && codec.dec(codec.enc(msg.header)) == Some(msg.header)
    && |codec.enc(msg.header)| <= LONGEST_HEADER
    && |msg.body| < U64_BOUND
  }

  ghost predicate GoodMessages(codec: HeaderCodec, msgs: seq<Message>) {
    |msgs| <= U64_BOUND && forall m :: 0 <= m < |msgs| ==> GoodMessage(codec, msgs[m])
  }

  // ---------------------------------------------------------------- single packets

  ghost predicate Travels(codec: HeaderCodec, p: Packets.Packet) {
    Sendable(codec, p) && |Framed(codec, p)| <= SAFE_FRAME
  }

  lemma ShortTravels(codec: HeaderCodec, p: Packets.Packet)
    requires Sendable(codec, p) && |PayloadOf(codec, p)| <= LONGEST_HEADER
    ensures Travels(codec, p)
  {
    hide LineText;
    LineFits(p, |PayloadOf(codec, p)|);
  }

  lemma MessageTravels(codec: HeaderCodec, m: nat, msg: Message, k: nat)
    requires m < U64_BOUND && GoodMessage(codec, msg) && k < |Full(m, msg)|
    ensures Travels(codec, Full(m, msg)[k])
  {
    hide Framed, Travels;
    FullAt(m, msg, k);
    ShortTravels(codec, Full(m, msg)[k]);
  }

  lemma AckTravels(codec: HeaderCodec, m: nat, n: nat)
    requires m < U64_BOUND && n < U64_BOUND
    ensures Travels(codec, AckPacket(m, n))
  {
    hide Framed, Travels;
    assert Pow10(10) == 1_0000000000;
    assert Pow10(15) == 1_000000000000000;
    assert Pow10(20) == 1_00000000000000000000;
    DecimalLength(n, 20, Pow10(20));
    ShortTravels(codec, AckPacket(m, n));
  }

  lemma {:induction false} InLog(log: seq<Packets.Packet>, i: nat) returns (k: nat)
    requires i < |log| && InMessage(log[i], log[i].msgNo)
    ensures k < |Of(log, log[i].msgNo)| && Of(log, log[i].msgNo)[k] == log[i]
  {
    var front := log[..|log| - 1];
    if i == |log| - 1 {
      k := |Of(front, log[i].msgNo)|;
    } else {
      k := InLog(front, i);
    }
  }

  lemma ConformingTravels(codec: HeaderCodec, log: seq<Packets.Packet>, msgs: seq<Message>, i: nat)
    requires Conforms(log, msgs) && GoodMessages(codec, msgs) && i < |log| && InMessage(log[i], log[i].msgNo)
    ensures Travels(codec, log[i])
  {
    hide Full, Travels, Of, GoodMessage;
    var m := log[i].msgNo;
    var k := InLog(log, i);
    assert Of(log, m) <= Expected(msgs, m);
    assert Expected(msgs, m)[k] == log[i];
    MessageTravels(codec, m, msgs[m], k);
  }

  // ---------------------------------------------------------------- what is on the wire besides messages

  /** An ACK of one of these messages that tells no more than its length. */
  ghost predicate Tells(p: Packets.Packet, msgs: seq<Message>) {
    p.msgNo < |msgs| && exists n: nat :: n <= |msgs[p.msgNo].body| && p == AckPacket(p.msgNo, n)
  }

  /** The server writes replies and ACKs only. */
  predicate ServerWrites(wire: seq<Packets.Packet>) {
    forall i :: 0 <= i < |wire| ==> InMessage(wire[i], wire[i].msgNo) || wire[i].packetType.Ack?
  }

  /** The client enqueues requests and ACKs of replies only. */
  ghost predicate ClientWrites(queue: seq<Packets.Packet>, replies: seq<Message>) {
    forall i :: 0 <= i < |queue| ==> InMessage(queue[i], queue[i].msgNo) || Tells(queue[i], replies)
  }

  ghost predicate TrafficInv(service: Server.Service, s: State) {
    ServerWrites(s.server.wire) && ClientWrites(s.client.queue, Replies(service, s.server.dispatched))
  }

  /** At most one packet of a message is added. */
  predicate Appends(queue: seq<Packets.Packet>, queue': seq<Packets.Packet>) {
    queue' == queue
    || (|queue'| == |queue| + 1 && queue'[..|queue|] == queue && InMessage(queue'[|queue|], queue'[|queue|].msgNo))
  }

  predicate AppendsOnly(c: ClientState, c': ClientState) {
    Appends(c.queue, c'.queue) && c.requests <= c'.requests
  }

  lemma SendersAppend(c: ClientState, id: int, sendOk: bool)
    ensures AppendsOnly(c, BeginMessage(c, id, sendOk)) && AppendsOnly(c, EnqueueEof(c, id, sendOk))
    ensures AppendsOnly(c, CheckWindow(c, id))
  {
    hide OverWatermark;
  }

  lemma ChunksAppend(c: ClientState, id: int, sendOk: bool)
    ensures AppendsOnly(c, EnqueueChunk(c, id, sendOk)) && AppendsOnly(c, CountChunk(c, id))
  {
    hide ChunkEnd;
  }

  lemma LeaversAppendNothing(c: ClientState, id: int)
    ensures AppendsOnly(c, RemovePending(c, id)) && AppendsOnly(c, RemoveOutgoing(c, id))
  {
    hide WithExits;
    if id !in c.calls {
    } else if c.calls[id].phase.Failing? {
    } else if c.calls[id].phase.Closing? {
    } else {
    }
  }

  lemma AwaitAppendsNothing(c: ClientState, id: int)
    ensures AppendsOnly(c, TakeReply(c, id)) && AppendsOnly(c, TimeOut(c, id))
  {
    if !In(c, id, Awaiting) {
    } else if id in c.delivered {
    } else if id !in c.pending {
    } else {
    }
  }

  lemma StopAppendsNothing(c: ClientState, error: ErrorText)
    ensures AppendsOnly(c, StopReading(c, error))
  {
    hide WithExits;
  }

  lemma LocalAppends(c: ClientState, e: Event)
    requires !e.Packet?
    ensures AppendsOnly(c, Apply(c, e))
  {
    hide BeginMessage, CheckWindow, EnqueueChunk, CountChunk, EnqueueEof, TakeReply, TimeOut, RemovePending,
         RemoveOutgoing, StopReading, RequestHeader;
    match e {
      case Start(_) =>
      case Begin(id, sendOk) => SendersAppend(c, id, sendOk);
      case Check(id) => SendersAppend(c, id, true);
      case Chunk(id, sendOk) => ChunksAppend(c, id, sendOk);
      case Count(id) => ChunksAppend(c, id, true);
      case End(id, sendOk) => SendersAppend(c, id, sendOk);
      case Take(id) => AwaitAppendsNothing(c, id);
      case Expire(id) => AwaitAppendsNothing(c, id);
      case Unregister(id) => LeaversAppendNothing(c, id);
      case Untrack(id) => LeaversAppendNothing(c, id);
      case Stop(error) => StopAppendsNothing(c, error);
      case Close =>
    }
  }

  lemma MoreReplies(p: Packets.Packet, msgs: seq<Message>, more: seq<Message>)
    requires Tells(p, msgs) && msgs <= more
    ensures Tells(p, more)
  {
  }

  lemma RouteWrites(service: Server.Service, s: Server.ServerState, p: Packets.Packet)
    requires ServerWrites(s.wire) && (InMessage(p, p.msgNo) || p.packetType.Ack?)
    ensures ServerWrites(Server.Route(service, s, p).0.wire)
  {
    hide Full, Server.Respond, Server.Acknowledge, InvalidTxerr, AckPacket;
    match p.packetType {
      case Data =>
        if p.msgNo in s.incoming {
          SystemInvariant.IsAck(p.msgNo, s.incoming[p.msgNo].received + |p.body|);
        }
      case Eof =>
        if p.msgNo in s.incoming {
          var had := s.incoming[p.msgNo];
          var reply := Server.Respond(service, s.nextOut, Message(had.header, had.body));
          var msg := Message(Server.ReplyHeader(reply, had.header.requestId), reply.body);
          forall k | 0 <= k < |Full(s.nextOut, msg)|
            ensures InMessage(Full(s.nextOut, msg)[k], Full(s.nextOut, msg)[k].msgNo)
          {
            FullAt(s.nextOut, msg, k);
          }
        }
      case _ =>
    }
  }

  /** Of a message being received no more than its length has been counted. */
  lemma ReceivedWithin(log: seq<Packets.Packet>, msgs: seq<Message>, incoming: map<nat, Incoming>, next: nat, m: nat)
    requires Assembled(log, msgs, incoming, next) && m in incoming
    ensures m < |msgs| && incoming[m].received <= |msgs[m].body|
  {
    hide Full;
    var ps := Of(log, m);
    assert AssembledAt(ps, msgs, incoming, next, m);
    var full := Full(m, msgs[m]);
    var n := Chunks(|msgs[m].body|);
    PayloadSentUpTo(m, msgs[m], n);
    assert ps <= full[..1 + n];
    PayloadPrefix(ps, full[..1 + n]);
  }

  lemma ReceiveWrites(service: Server.Service, s: State, sendOk: bool)
    requires SystemInv(service, s) && TrafficInv(service, s) && s.client.reading && s.clientGot < |s.server.wire|
    ensures ClientWrites(Receive(s.client, s.server.wire[s.clientGot], sendOk).queue,
                         Replies(service, s.server.dispatched))
  {
    hide Conforms, ServerSide, AllAcknowledged, Answered, Assembled, Replies, AllSent, HeadersNumbered,
         ClientInvariant.Inv, OnHeader, OnEnd, InvalidTxerr, Server.Acknowledge, AckPacket;
    var p := s.server.wire[s.clientGot];
    var replies := Replies(service, s.server.dispatched);
    if p.packetType.Data? && p.msgNo in s.client.incoming && p.body != [] {
      var s' := Step(service, s, ClientReceives(sendOk));
      SystemInvariant.ReaderSideStep(service, s, sendOk);
      ReceivedWithin(ReaderLog(s'), replies, s'.client.incoming, s'.client.nextIn, p.msgNo);
      var n := s.client.incoming[p.msgNo].received + |p.body|;
      assert AckPacket(p.msgNo, n).msgNo == p.msgNo by { SystemInvariant.IsAck(p.msgNo, n); }
      assert Tells(AckPacket(p.msgNo, n), replies);
    } else {
      SameQueue(s.client, p, sendOk);
    }
  }

  lemma SameQueue(c: ClientState, p: Packets.Packet, sendOk: bool)
    requires InMessage(p, p.msgNo) || p.packetType.Ack?
    requires !(p.packetType.Data? && p.msgNo in c.incoming && p.body != [])
    ensures Receive(c, p, sendOk).queue == c.queue
  {
    hide WithExits, InvalidTxerr, Server.Acknowledge;
    match p.packetType {
      case Header =>
      case Data =>
      case Eof =>
      case Txerr =>
      case Ack =>
      case _ =>
    }
  }

  lemma StepTraffic(service: Server.Service, s: State, move: Move)
    requires SystemInv(service, s) && TrafficInv(service, s)
    ensures TrafficInv(service, Step(service, s, move))
  {
    hide SystemInv, Apply, Receive, Server.Route, Replies, Tells;
    match move {
      case Local(e) =>
        if !e.Packet? {
          LocalAppends(s.client, e);
        }
      case ServerReceives =>
        if s.open && s.serverGot < |s.client.queue| {
          var p := s.client.queue[s.serverGot];
          var replies := Replies(service, s.server.dispatched);
          assert Tells(p, replies) ==> p.packetType.Ack? by { TellsIsAck(p, replies); }
          RouteWrites(service, s.server, p);
          SystemInvariant.RouteExtends(service, s.server, p);
          var dispatched' := Server.Route(service, s.server, p).0.dispatched;
          SystemInvariant.RepliesGrow(service, s.server.dispatched, dispatched');
          forall i | 0 <= i < |s.client.queue| && Tells(s.client.queue[i], replies)
            ensures Tells(s.client.queue[i], Replies(service, dispatched'))
          {
            MoreReplies(s.client.queue[i], replies, Replies(service, dispatched'));
          }
        }
      case ClientReceives(sendOk) =>
        if s.client.reading && s.clientGot < |s.server.wire| {
          ReceiveWrites(service, s, sendOk);
        }
    }
  }

  lemma TellsIsAck(p: Packets.Packet, msgs: seq<Message>)
    ensures Tells(p, msgs) ==> p.packetType.Ack?
  {
    hide Encode, Decimal;
  }

  lemma {:induction false} ExecuteTraffic(service: Server.Service, budget: nat, moves: seq<Move>)
    ensures TrafficInv(service, Execute(service, budget, moves))
  {
    hide SystemInv, Step, Tells;
    if moves != [] {
      var front := moves[..|moves| - 1];
      ExecuteTraffic(service, budget, front);
      SystemInvariant.ExecuteKeeps(service, budget, front);
      StepTraffic(service, Execute(service, budget, front), moves[|moves| - 1]);
    }
  }

  // ---------------------------------------------------------------- everything sent can be delivered

  ghost predicate GoodTraffic(codec: HeaderCodec, service: Server.Service, requests: seq<Message>,
                              dispatched: seq<Server.Dispatch>) {
    GoodMessages(codec, requests) && GoodMessages(codec, Replies(service, dispatched))
  }

  /** If the headers of all requests and replies so far can travel, so can every packet sent so far. */
  lemma AllDeliverable(codec: HeaderCodec, service: Server.Service, budget: nat, moves: seq<Move>)
    requires
      var s := Execute(service, budget, moves);
      GoodTraffic(codec, service, s.client.requests, s.server.dispatched)
    ensures
      var s := Execute(service, budget, moves);
      Deliverable(codec, s.client.queue) && Deliverable(codec, s.server.wire)
  {
    hide Execute, Conforms, GoodMessage, Replies, AckPacket, Framed, Sendable, ServerSide, ReaderSide,
         AllAcknowledged, AllAnswered, HeadersNumbered, AllSent;
    var s := Execute(service, budget, moves);
    ExecuteTraffic(service, budget, moves);
    SystemInvariant.ExecuteKeeps(service, budget, moves);
    ClientInvariant.InvConforms(s.client);
    var replies := Replies(service, s.server.dispatched);
    forall i | 0 <= i < |s.client.queue| ensures Travels(codec, s.client.queue[i]) {
      if InMessage(s.client.queue[i], s.client.queue[i].msgNo) {
        ConformingTravels(codec, s.client.queue, s.client.requests, i);
      } else {
        TellsTravels(codec, s.client.queue[i], replies);
      }
    }
    forall i | 0 <= i < |s.server.wire| ensures Travels(codec, s.server.wire[i]) {
      if InMessage(s.server.wire[i], s.server.wire[i].msgNo) {
        ConformingTravels(codec, s.server.wire, replies, i);
      } else {
        SystemInvariant.AckIsEarned(s, i);
        TellsTravels(codec, s.server.wire[i], s.client.requests);
      }
    }
  }

  lemma TellsTravels(codec: HeaderCodec, p: Packets.Packet, msgs: seq<Message>)
    requires Tells(p, msgs) && GoodMessages(codec, msgs)
    ensures Travels(codec, p)
  {
    hide Travels, AckPacket;
    var n: nat :| n <= |msgs[p.msgNo].body| && p == AckPacket(p.msgNo, n);
    assert GoodMessage(codec, msgs[p.msgNo]);
    AckTravels(codec, p.msgNo, n);
  }

  // ---------------------------------------------------------------- and, whatever its size, is honest

  ghost predicate ReadableHeaders(codec: HeaderCodec, msgs: seq<Message>) {
    forall m :: 0 <= m < |msgs| ==> codec.dec(codec.enc(msgs[m].header)) == Some(msgs[m].header)
  }

  /** The codec reads back the headers of all requests and replies. */
  ghost predicate Readable(codec: HeaderCodec, service: Server.Service, requests: seq<Message>,
                           dispatched: seq<Server.Dispatch>) {
    ReadableHeaders(codec, requests) && ReadableHeaders(codec, Replies(service, dispatched))
  }

  lemma ReadableBefore(codec: HeaderCodec, service: Server.Service, requests: seq<Message>,
                       dispatched: seq<Server.Dispatch>,
                       requests': seq<Message>, dispatched': seq<Server.Dispatch>)
    requires Readable(codec, service, requests', dispatched') && requests <= requests' && dispatched <= dispatched'
    ensures Readable(codec, service, requests, dispatched)
  {
    hide Replies;
    SystemInvariant.RepliesGrow(service, dispatched, dispatched');
    var replies, replies' := Replies(service, dispatched), Replies(service, dispatched');
    assert forall k :: 0 <= k < |replies| ==> replies[k] == replies'[k];
    assert forall k :: 0 <= k < |requests| ==> requests[k] == requests'[k];
  }

  lemma ConformingHonest(codec: HeaderCodec, log: seq<Packets.Packet>, msgs: seq<Message>, i: nat)
    requires Conforms(log, msgs) && ReadableHeaders(codec, msgs) && i < |log| && InMessage(log[i], log[i].msgNo)
    ensures Honest(codec, log[i])
  {
    hide Full, Of;
    var m := log[i].msgNo;
    var k := InLog(log, i);
    assert Of(log, m) <= Expected(msgs, m);
    assert Expected(msgs, m)[k] == log[i];
    FullAt(m, msgs[m], k);
  }

  lemma AckHonest(codec: HeaderCodec, p: Packets.Packet, msgs: seq<Message>)
    requires Tells(p, msgs)
    ensures Honest(codec, p)
  {
    hide Encode, Decimal;
  }

  /** Nothing that either end sends can be mistaken for anything else. */
  lemma AllHonestSent(codec: HeaderCodec, service: Server.Service, budget: nat, moves: seq<Move>)
    requires
      var s := Execute(service, budget, moves);
      Readable(codec, service, s.client.requests, s.server.dispatched)
    ensures
      var s := Execute(service, budget, moves);
      AllHonest(codec, s.client.queue) && AllHonest(codec, s.server.wire)
  {
    hide Execute, Conforms, Replies, AckPacket, Honest, ServerSide, ReaderSide, AllAcknowledged, AllAnswered,
         HeadersNumbered, AllSent, ReadableHeaders;
    var s := Execute(service, budget, moves);
    ExecuteTraffic(service, budget, moves);
    SystemInvariant.ExecuteKeeps(service, budget, moves);
    ClientInvariant.InvConforms(s.client);
    var replies := Replies(service, s.server.dispatched);
    forall i | 0 <= i < |s.client.queue| ensures Honest(codec, s.client.queue[i]) {
      if InMessage(s.client.queue[i], s.client.queue[i].msgNo) {
        ConformingHonest(codec, s.client.queue, s.client.requests, i);
      } else {
        AckHonest(codec, s.client.queue[i], replies);
      }
    }
    forall i | 0 <= i < |s.server.wire| ensures Honest(codec, s.server.wire[i]) {
      if InMessage(s.server.wire[i], s.server.wire[i].msgNo) {
        ConformingHonest(codec, s.server.wire, replies, i);
      } else {
        SystemInvariant.AckIsEarned(s, i);
        AckHonest(codec, s.server.wire[i], s.client.requests);
      }
    }
  }
}
