/** Every move of the whole system keeps its invariant. */
module SystemInvariant {
  import opened Wrappers
  import opened Packets
  import opened Messages
  import opened Client
  import opened ClientInvariant
  import opened ReplyStream
  import opened System
  import Server

  // ---------------------------------------------------------------- a call moves

  /** The bytes of message `m` on a queue with one more packet. */
  lemma PayloadOfSnoc(queue: seq<Packets.Packet>, p: Packets.Packet, m: nat)
    ensures Payload(Of(queue + [p], m)) ==
            Payload(Of(queue, m)) + (if p.msgNo == m && p.packetType.Data? then p.body else [])
  {
    OfSnoc(queue, p, m);
    if InMessage(p, m) {
      PayloadSnoc(Of(queue, m), p);
    } else {
      assert Of(queue + [p], m) == Of(queue, m);
    }
  }

  /** Between two chunk boundaries less than a window apart there is room for another chunk. */
  lemma AlignedGap(length: nat, offset: nat, acknowledged: nat)
    requires Aligned(length, offset) && Aligned(length, acknowledged) && acknowledged <= offset < length
    requires offset < acknowledged + FLOW_CONTROL_WATERMARK
    ensures ChunkEnd(length, offset) <= acknowledged + FLOW_CONTROL_WATERMARK
  {
    assert FLOW_CONTROL_WATERMARK % DATA_CHUNK_SIZE == 0;
  }

  /** A chunk passes the window check only if it fits behind the acknowledged bytes, both of them
      chunk-aligned. */
  lemma ChunkInWindow(c: ClientState, id: int, sendOk: bool, m: nat)
    requires Inv(c) && m in c.outgoing && m < |c.requests|
    requires Aligned(|c.requests[m].body|, c.outgoing[m].acknowledged)
    requires |Payload(Of(c.queue, m))| <= c.outgoing[m].acknowledged + FLOW_CONTROL_WATERMARK
    ensures |Payload(Of(EnqueueChunk(c, id, sendOk).queue, m))| <= c.outgoing[m].acknowledged + FLOW_CONTROL_WATERMARK
  {
    hide Inv, Full, SentUpTo, Accounted, Aligned, Of, Payload;
    if In(c, id, Cleared) && c.calls[id].offset <= |c.calls[id].body| && sendOk {
      Fits(c, id);
      var x := c.calls[id];
      var end := ChunkEnd(|x.body|, x.offset);
      PayloadOfSnoc(c.queue, DataPacket(x.msgNo, x.body[x.offset..end]), m);
      if m == x.msgNo {
        AlignedGap(|x.body|, x.offset, c.outgoing[m].acknowledged);
      }
    }
  }

  lemma BeginInWindow(c: ClientState, id: int, sendOk: bool, m: nat)
    requires Inv(c) && m <= c.nextMsgNo
    ensures Payload(Of(BeginMessage(c, id, sendOk).queue, m)) == Payload(Of(c.queue, m))
    ensures m == c.nextMsgNo ==> Payload(Of(c.queue, m)) == []
  {
    hide Inv;
    NoneYet(c, Message(DefaultHeader(), []));
    if In(c, id, Created) {
      PayloadOfSnoc(c.queue, HeaderPacket(c.nextMsgNo, c.calls[id].header), m);
    }
  }

  lemma EndInWindow(c: ClientState, id: int, sendOk: bool, m: nat)
    ensures Payload(Of(EnqueueEof(c, id, sendOk).queue, m)) == Payload(Of(c.queue, m))
  {
    if In(c, id, Sending) {
      PayloadOfSnoc(c.queue, EofPacket(c.calls[id].msgNo), m);
    }
  }

  /** The steps that enqueue nothing. */
  lemma QueueUnmoved(c: ClientState, e: Event)
    requires !e.Packet? && !e.Begin? && !e.Chunk? && !e.End?
    ensures Apply(c, e).queue == c.queue
  {
    hide ChunkEnd, OverWatermark, WithExits, RequestHeader;
    match e {
      case Start(_) =>
      case Check(_) =>
      case Count(_) =>
      case Take(_) =>
      case Expire(_) =>
      case Unregister(_) =>
      case Untrack(_) =>
      case Stop(_) =>
      case Close =>
    }
  }

  /** The window of 65536 bytes is kept by every step of a call. */
  lemma LocalInWindow(log: seq<Packets.Packet>, c: ClientState, e: Event, m: nat)
    requires Inv(c) && AllAcknowledged(log, c) && !e.Packet? && LocalFrame(c, Apply(c, e))
    requires m in Apply(c, e).outgoing && m < |Apply(c, e).requests|
    requires m in c.outgoing || (m == c.nextMsgNo && e.Begin?)
    ensures Acknowledged(log, Apply(c, e), m)
  {
    hide Inv, EnqueueChunk, EnqueueEof, AllAcknowledged;
    var c' := Apply(c, e);
    if m in c.outgoing {
      OutgoingBelow(c, m);
      assert Acknowledged(log, c, m) by { UseAcknowledged(log, c, m); }
      assert c'.requests[m] == c.requests[m];
    }
    match e {
      case Begin(id, sendOk) => BeginInWindow(c, id, sendOk, m);
      case Chunk(id, sendOk) => ChunkInWindow(c, id, sendOk, m);
      case End(id, sendOk) => EndInWindow(c, id, sendOk, m);
      case _ => QueueUnmoved(c, e);
    }
  }

  lemma UseAcknowledged(log: seq<Packets.Packet>, c: ClientState, m: nat)
    requires AllAcknowledged(log, c) && m in c.outgoing && m < |c.requests|
    ensures Acknowledged(log, c, m)
  {
  }

  lemma OutgoingBelow(c: ClientState, m: nat)
    requires Inv(c) && m in c.outgoing
    ensures m < |c.requests| && c.nextMsgNo == |c.requests|
  {
    hide AllFit, Conforms;
  }

  /** A message number enters `outgoing` only when its message begins. */
  lemma NewOutgoing(c: ClientState, e: Event, m: nat)
    requires !e.Packet? && m in Apply(c, e).outgoing && m !in c.outgoing
    ensures e.Begin? && m == c.nextMsgNo
  {
    hide ChunkEnd, OverWatermark, WithExits, RequestHeader;
    match e {
      case Start(_) =>
      case Begin(_, _) =>
      case Check(_) =>
      case Chunk(_, _) =>
      case Count(_) =>
      case End(_, _) =>
      case _ =>
    }
  }

  /** More messages in the table change nothing for the server. */
  lemma RequestsGrow(s: State, c': ClientState)
    requires s.serverGot <= |s.client.queue| && ServerSide(s)
    requires s.client.queue <= c'.queue && s.client.requests <= c'.requests
    ensures ServerSide(s.(client := c'))
  {
    hide Full, Assembled, AcksFit;
    var s' := s.(client := c');
    var log := ServerLog(s);
    assert ServerLog(s') == log;
    if s.open {
      AssembledGrows(log, s.client.requests, c'.requests, s.server.incoming, s.server.nextIn);
    }
    forall m: nat ensures AcksFit(log, c'.requests, s.server.wire, s.open, m) {
      assert AcksFit(log, s.client.requests, s.server.wire, s.open, m);
      AcksGrow(log, s.client.requests, c'.requests, s.server.wire, s.open, m);
    }
  }

  lemma AcksGrow(log: seq<Packets.Packet>, requests: seq<Message>, more: seq<Message>, wire: seq<Packets.Packet>,
                 open: bool, m: nat)
    requires AcksFit(log, requests, wire, open, m) && requests <= more
    ensures AcksFit(log, more, wire, open, m)
  {
  }

  lemma LocalKeeps(service: Server.Service, s: State, e: Event)
    requires SystemInv(service, s) && !e.Packet?
    ensures SystemInv(service, s.(client := Apply(s.client, e)))
  {
    hide Inv, Apply, Replying, ServerSide, Assembled, AllAcknowledged;
    var c, c' := s.client, Apply(s.client, e);
    var s' := s.(client := c');
    ApplyKeeps(c, e);
    NotYetOutgoing(c);
    LocalFrameHolds(c, e);
    RequestsGrow(s, c');
    assert ServerLog(s') == ServerLog(s);
    forall m | m in c'.outgoing && m < |c'.requests| ensures Acknowledged(ServerLog(s), c', m) {
      if m !in c.outgoing {
        NewOutgoing(c, e, m);
      }
      LocalInWindow(ServerLog(s), c, e, m);
    }
    MakeAcknowledged(ServerLog(s), c');
  }

  lemma MakeAcknowledged(log: seq<Packets.Packet>, c: ClientState)
    requires forall m | m in c.outgoing && m < |c.requests| :: Acknowledged(log, c, m)
    ensures AllAcknowledged(log, c)
  {
    hide Acknowledged;
  }

  lemma NotYetOutgoing(c: ClientState)
    requires Inv(c)
    ensures c.nextMsgNo !in c.outgoing
  {
    hide AllFit, Conforms;
  }

  // ---------------------------------------------------------------- the server receives

  lemma RouteAssembles(service: Server.Service, s: Server.ServerState, log: seq<Packets.Packet>, requests: seq<Message>,
                       p: Packets.Packet)
    requires Assembled(log, requests, s.incoming, s.nextIn) && Conforms(log + [p], requests)
    ensures
      var (s', ok) := Server.Route(service, s, p);
      ok ==> Assembled(log + [p], requests, s'.incoming, s'.nextIn)
  {
    hide Conforms, Assembled, Server.Respond, Full, InvalidTxerr;
    var (s', ok) := Server.Route(service, s, p);
    if InMessage(p, p.msgNo) {
      HeaderIsNew(log, requests, s.incoming, s.nextIn, p);
    }
    if p.packetType.Eof? {
      CompleteAtEof(log, requests, s.incoming, s.nextIn, p);
    }
    if ok {
      AssembleStep(log, requests, s.incoming, s.nextIn, p);
      assert (s'.incoming, s'.nextIn) == Assemble(s.incoming, s.nextIn, p);
    }
  }

  /** A request whose last packet is in stays complete. */
  lemma DispatchStays(log: seq<Packets.Packet>, p: Packets.Packet, requests: seq<Message>, d: Server.Dispatch)
    requires DispatchFits(log, requests, d) && Conforms(log + [p], requests)
    ensures DispatchFits(log + [p], requests, d)
  {
    hide Full;
    OfSnoc(log, p, d.msgNo);
    assert Of(log + [p], d.msgNo) <= Expected(requests, d.msgNo);
  }

  lemma RouteDispatches(service: Server.Service, s: Server.ServerState, log: seq<Packets.Packet>,
                        requests: seq<Message>,
                        p: Packets.Packet)
    requires Assembled(log, requests, s.incoming, s.nextIn) && Conforms(log + [p], requests)
    requires DispatchesFit(log, requests, s.dispatched)
    ensures DispatchesFit(log + [p], requests, Server.Route(service, s, p).0.dispatched)
  {
    hide Conforms, Assembled, Server.Respond, Full, DispatchFits, Of, InvalidTxerr;
    var s' := Server.Route(service, s, p).0;
    forall k | 0 <= k < |s.dispatched| ensures DispatchFits(log + [p], requests, s.dispatched[k]) {
      DispatchStays(log, p, requests, s.dispatched[k]);
    }
    if p.packetType.Eof? {
      CompleteAtEof(log, requests, s.incoming, s.nextIn, p);
      var d := Server.Dispatch(p.msgNo, requests[p.msgNo]);
      assert s'.dispatched == s.dispatched + [d];
      NewDispatch(log, p, requests, d);
      forall k | 0 <= k < |s.dispatched| ensures s.dispatched[k].msgNo != p.msgNo {
        assert DispatchFits(log, requests, s.dispatched[k]);
        DispatchIsFull(log, requests, s.dispatched[k]);
      }
    }
  }

  lemma DispatchIsFull(log: seq<Packets.Packet>, requests: seq<Message>, d: Server.Dispatch)
    requires DispatchFits(log, requests, d)
    ensures d.msgNo < |requests| && |Of(log, d.msgNo)| == |Full(d.msgNo, requests[d.msgNo])|
  {
  }

  lemma NewDispatch(log: seq<Packets.Packet>, p: Packets.Packet, requests: seq<Message>, d: Server.Dispatch)
    requires p.packetType.Eof? && d.msgNo == p.msgNo < |requests| && d.request == requests[p.msgNo]
    requires |Of(log, p.msgNo)| + 1 == |Full(p.msgNo, requests[p.msgNo])|
    ensures DispatchFits(log + [p], requests, d)
  {
    hide Full;
    OfSnoc(log, p, p.msgNo);
  }

  /** The ACK of a chunk is the next one its message earns. */
  lemma ChunkEarns(log: seq<Packets.Packet>, requests: seq<Message>, incoming: map<nat, Incoming>, next: nat,
                   p: Packets.Packet)
    requires Assembled(log, requests, incoming, next) && Conforms(log + [p], requests) && p.packetType.Data?
    ensures p.msgNo in incoming && p.msgNo < |requests|
    ensures
      var n := DataCount(Of(log, p.msgNo));
      && n < |EarnedAcks(requests, p.msgNo)|
      && EarnedAcks(requests, p.msgNo)[n] == AckPacket(p.msgNo, incoming[p.msgNo].received + |p.body|)
  {
    hide Conforms, Full, AckPacket;
    var m := p.msgNo;
    NextExpected(log, p, requests);
    DataIsExpected(log, requests, incoming, next, p);
    var ps := Of(log, m);
    assert AssembledAt(ps, requests, incoming, next, m);
    assert ps == Full(m, requests[m])[..|ps|];
    ChunksReceived(m, requests[m], |ps| - 1);
  }

  lemma DataCountOfSnoc(log: seq<Packets.Packet>, p: Packets.Packet, m: nat)
    ensures DataCount(Of(log + [p], m)) == DataCount(Of(log, m)) + (if p.msgNo == m && p.packetType.Data? then 1 else 0)
  {
    OfSnoc(log, p, m);
    if InMessage(p, m) {
      DataCountSnoc(Of(log, m), p);
    } else {
      assert Of(log + [p], m) == Of(log, m);
    }
  }

  /** Whatever is written besides ACKs leaves the ACKs as they are. */
  lemma RouteWritesNoAck(service: Server.Service, s: Server.ServerState, p: Packets.Packet, m: nat)
    requires !p.packetType.Data?
    ensures AcksOf(Server.Route(service, s, p).0.wire, m) == AcksOf(s.wire, m)
  {
    hide Full, Server.Respond, InvalidTxerr, Server.Acknowledge;
    match p.packetType {
      case Eof =>
        if p.body == [] && p.msgNo in s.incoming {
          var msg := s.incoming[p.msgNo];
          var reply := Server.ReplyMessage(service, s.nextOut, Message(msg.header, msg.body));
          var n := Server.Min(|Full(s.nextOut, reply)|, s.budget);
          AcksOfMessage(s.wire, s.nextOut, reply, n, m);
        }
      case Ping => WrittenOne(s, PongPacket(p.msgNo), m);
      case _ =>
    }
  }

  lemma WrittenOne(s: Server.ServerState, p: Packets.Packet, m: nat)
    ensures Server.Written(s, [p]).wire == if s.budget > 0 then s.wire + [p] else s.wire
    ensures AcksOf(Server.Written(s, [p]).wire, m)
            == AcksOf(s.wire, m) + (if s.budget > 0 && p.msgNo == m && p.packetType.Ack? then [p] else [])
  {
    AcksOfSnoc(s.wire, p, m);
    assert [p][..1] == [p] && [p][..0] == [];
  }

  lemma RouteAcks(service: Server.Service, s: Server.ServerState, log: seq<Packets.Packet>, requests: seq<Message>,
                  p: Packets.Packet, m: nat)
    requires Assembled(log, requests, s.incoming, s.nextIn) && Conforms(log + [p], requests)
    requires AcksFit(log, requests, s.wire, true, m)
    ensures
      var (s', ok) := Server.Route(service, s, p);
      AcksFit(log + [p], requests, s'.wire, ok, m)
  {
    hide Conforms, Assembled, Full, EarnedAcks, AckPacket, DataCount, AcksOf, Of, Server.Written;
    DataCountOfSnoc(log, p, m);
    if p.packetType.Data? {
      ChunkEarns(log, requests, s.incoming, s.nextIn, p);
      var msg := s.incoming[p.msgNo];
      var s' := s.(incoming := s.incoming[p.msgNo :=
                     Incoming(msg.header, msg.body + p.body, msg.received + |p.body|)]);
      WrittenOne(s', AckPacket(p.msgNo, msg.received + |p.body|), m);
      IsAck(p.msgNo, msg.received + |p.body|);
    } else {
      RouteWritesNoAck(service, s, p, m);
    }
  }

  lemma IsAck(m: nat, received: nat)
    ensures AckPacket(m, received).packetType.Ack? && AckPacket(m, received).msgNo == m
  {
  }

  lemma RouteExtends(service: Server.Service, s: Server.ServerState, p: Packets.Packet)
    ensures s.wire <= Server.Route(service, s, p).0.wire
    ensures s.dispatched <= Server.Route(service, s, p).0.dispatched
  {
    hide Full, Server.Respond, Server.Acknowledge, InvalidTxerr;
  }

  lemma RepliesGrow(service: Server.Service, dispatched: seq<Server.Dispatch>, more: seq<Server.Dispatch>)
    requires dispatched <= more
    ensures Replies(service, dispatched) <= Replies(service, more)
  {
  }

  lemma ReaderUnmoved(service: Server.Service, s: State, server: Server.ServerState)
    requires s.clientGot <= |s.server.wire| && ReaderSide(service, s)
    requires s.server.wire <= server.wire && s.server.dispatched <= server.dispatched
    ensures ReaderSide(service, s.(server := server))
  {
    hide Assembled, Replies;
    RepliesGrow(service, s.server.dispatched, server.dispatched);
    assert ReaderLog(s.(server := server)) == ReaderLog(s);
    AssembledGrows(ReaderLog(s), Replies(service, s.server.dispatched), Replies(service, server.dispatched),
                   s.client.incoming, s.client.nextIn);
  }

  lemma AnsweredGrows(service: Server.Service, dispatched: seq<Server.Dispatch>, more: seq<Server.Dispatch>, id: int,
                      r: Response)
    requires Answered(service, dispatched, id, r) && dispatched <= more
    ensures Answered(service, more, id, r)
  {
    var k :| 0 <= k < |dispatched| && Answers(service, dispatched[k], k, id, r);
    assert Answers(service, more[k], k, id, r);
  }

  lemma AcknowledgedGrows(log: seq<Packets.Packet>, p: Packets.Packet, c: ClientState)
    requires AllAcknowledged(log, c)
    ensures AllAcknowledged(log + [p], c)
  {
    hide Payload, Of;
    forall m | m in c.outgoing && m < |c.requests| ensures Acknowledged(log + [p], c, m) {
      assert Acknowledged(log, c, m);
      PayloadOfSnoc(log, p, m);
    }
  }

  lemma ServerSideStep(service: Server.Service, s: State)
    requires s.serverGot < |s.client.queue| && s.open && ServerSide(s) && Conforms(s.client.queue, s.client.requests)
    ensures ServerSide(Step(service, s, ServerReceives))
  {
    hide Conforms, Assembled, DispatchesFit, AcksFit, Server.Route;
    var p, log, requests := s.client.queue[s.serverGot], ServerLog(s), s.client.requests;
    var s' := Step(service, s, ServerReceives);
    assert ServerLog(s') == log + [p];
    ConformsPrefix(s.client.queue, s.serverGot + 1, requests);
    RouteAssembles(service, s.server, log, requests, p);
    RouteDispatches(service, s.server, log, requests, p);
    forall m: nat ensures AcksFit(log + [p], requests, s'.server.wire, s'.open, m) {
      assert AcksFit(log, requests, s.server.wire, true, m);
      RouteAcks(service, s.server, log, requests, p, m);
    }
  }

  lemma ServerKeeps(service: Server.Service, s: State)
    requires SystemInv(service, s)
    ensures SystemInv(service, Step(service, s, ServerReceives))
  {
    hide Conforms, Replying, ServerSide, ReaderSide, AllAcknowledged, Answered, Server.Route, AllFit, Owned;
    if s.open && s.serverGot < |s.client.queue| {
      var p := s.client.queue[s.serverGot];
      var s' := Step(service, s, ServerReceives);
      RouteKeeps(service, s.server, p);
      RouteExtends(service, s.server, p);
      ServerSideStep(service, s);
      ReaderUnmoved(service, s, s'.server);
      assert ReaderSide(service, s') by { ReaderSame(service, s.(server := s'.server), s'); }
      assert ServerLog(s') == ServerLog(s) + [p];
      AcknowledgedGrows(ServerLog(s), p, s.client);
      forall id | id in s.client.delivered && s.client.delivered[id].error.None?
        ensures Answered(service, s'.server.dispatched, id, s.client.delivered[id])
      {
        AnsweredGrows(service, s.server.dispatched, s'.server.dispatched, id, s.client.delivered[id]);
      }
    }
  }

  lemma ReaderSame(service: Server.Service, s: State, s': State)
    requires s.clientGot <= |s.server.wire| && ReaderSide(service, s)
    requires s'.server == s.server && s'.client == s.client && s'.clientGot == s.clientGot
    ensures ReaderSide(service, s')
  {
  }

  // ---------------------------------------------------------------- the client's reader receives

  lemma ReceiveAssembles(c: ClientState, p: Packets.Packet, sendOk: bool, log: seq<Packets.Packet>,
                         replies: seq<Message>)
    requires Assembled(log, replies, c.incoming, c.nextIn) && Conforms(log + [p], replies)
    requires c.nextIn == HeaderCount(log) && (p.packetType.Header? ==> p.msgNo == c.nextIn)
    ensures
      var c' := Receive(c, p, sendOk);
      Assembled(log + [p], replies, c'.incoming, c'.nextIn) && c'.nextIn == HeaderCount(log + [p])
  {
    hide Conforms, Assembled, Receive, HeaderCount, Assemble;
    HeaderCountSnoc(log, p);
    if InMessage(p, p.msgNo) {
      HeaderIsNew(log, replies, c.incoming, c.nextIn, p);
    }
    if p.packetType.Data? {
      DataIsExpected(log, replies, c.incoming, c.nextIn, p);
    }
    if p.packetType.Eof? {
      CompleteAtEof(log, replies, c.incoming, c.nextIn, p);
    }
    AssembleStep(log, replies, c.incoming, c.nextIn, p);
    ReceiveIsAssemble(c, p, sendOk);
  }

  /** On legal traffic the reader assembles messages. */
  lemma ReceiveIsAssemble(c: ClientState, p: Packets.Packet, sendOk: bool)
    requires !p.packetType.Txerr? && (p.packetType.Header? ==> p.msgNo == c.nextIn && p.header.Some?)
    requires p.packetType.Data? || p.packetType.Eof? ==> p.msgNo in c.incoming
    requires (p.packetType.Data? ==> p.body != []) && (p.packetType.Eof? ==> p.body == [])
    ensures
      var c' := Receive(c, p, sendOk);
      && (c'.incoming, c'.nextIn) == Assemble(c.incoming, c.nextIn, p)
      && c'.nextIn == c.nextIn + (if p.packetType.Header? then 1 else 0)
  {
    hide WithExits, AckPacket, Server.Acknowledge, InvalidTxerr;
    match p.packetType {
      case Header =>
      case Data =>
      case Eof =>
      case Ack =>
      case Ping =>
      case Pong =>
    }
  }

  /** A reply that is complete is delivered as the server sent it. */
  lemma ReceiveAnswers(service: Server.Service, c: ClientState, p: Packets.Packet, sendOk: bool,
                       log: seq<Packets.Packet>,
                       dispatched: seq<Server.Dispatch>, id: int)
    requires Assembled(log, Replies(service, dispatched), c.incoming, c.nextIn)
    requires Conforms(log + [p], Replies(service, dispatched))
    ensures
      var c' := Receive(c, p, sendOk);
      id in c'.delivered && c'.delivered[id].error.None? ==>
        (id in c.delivered && c.delivered[id] == c'.delivered[id]) ||
          Answered(service, dispatched, id, c'.delivered[id])
  {
    hide Conforms, Assembled, Server.Acknowledge, Server.Respond, InvalidTxerr, WithExits, AckPacket;
    if p.packetType.Eof? {
      var k := p.msgNo;
      CompleteAtEof(log, Replies(service, dispatched), c.incoming, c.nextIn, p);
      var msg := c.incoming[k];
      assert msg.header.requestId == dispatched[k].request.header.requestId;
      assert Answers(service, dispatched[k], k, msg.header.requestId, Response(msg.header, msg.body, None));
    }
    if p.packetType.Txerr? {
      HeaderIsNew(log, Replies(service, dispatched), c.incoming, c.nextIn, p);
    }
  }

  /** Every ACK the server has written tells a chunk boundary that it has reached. */
  lemma AckIsEarned(s: State, i: nat)
    requires s.serverGot <= |s.client.queue| && ServerSide(s) && Conforms(s.client.queue, s.client.requests)
    requires i < |s.server.wire| && s.server.wire[i].packetType.Ack?
    ensures
      var p := s.server.wire[i];
      && p.msgNo < |s.client.requests|
      && exists n: nat :: p == AckPacket(p.msgNo, n) && Aligned(|s.client.requests[p.msgNo].body|, n)
                          && n <= |Payload(Of(ServerLog(s), p.msgNo))|
  {
    hide Conforms, Assembled, DispatchesFit, Full, AckPacket;
    var p, log, requests := s.server.wire[i], ServerLog(s), s.client.requests;
    var m := p.msgNo;
    var k := AckInLog(s.server.wire, i);
    assert AcksFit(log, requests, s.server.wire, s.open, m);
    assert p == EarnedAcks(requests, m)[k];
    var n := ChunkEnd(|requests[m].body|, k * DATA_CHUNK_SIZE);
    assert p == AckPacket(m, n);
    ConformsPrefix(s.client.queue, s.serverGot, requests);
    ReceivedAtLeast(log, requests, m, k);
  }

  /** More than `k` chunks received are at least the bytes of the first `k + 1`. */
  lemma ReceivedAtLeast(log: seq<Packets.Packet>, requests: seq<Message>, m: nat, k: nat)
    requires Conforms(log, requests) && m < |requests| && k < Chunks(|requests[m].body|)
    requires k < DataCount(Of(log, m))
    ensures |Payload(Of(log, m))| >= ChunkEnd(|requests[m].body|, k * DATA_CHUNK_SIZE)
  {
    hide Full, Of;
    var msg := requests[m];
    var ps := Of(log, m);
    assert ps <= Expected(requests, m);
    assert ps == Full(m, msg)[..|ps|];
    assert |ps| > 0;
    if |ps| == |Full(m, msg)| {
      ChunksReceived(m, msg, Chunks(|msg.body|));
      PayloadPrefix(Full(m, msg)[..1 + Chunks(|msg.body|)], ps);
    } else {
      ChunksReceived(m, msg, |ps| - 1);
    }
  }

  lemma ReceiveAcknowledged(s: State, i: nat, sendOk: bool)
    requires s.serverGot <= |s.client.queue| && ServerSide(s) && Conforms(s.client.queue, s.client.requests)
    requires AllAcknowledged(ServerLog(s), s.client) && i < |s.server.wire|
    ensures AllAcknowledged(ServerLog(s), Receive(s.client, s.server.wire[i], sendOk))
  {
    hide Conforms, ServerSide, AckPacket, WithExits, InvalidTxerr, AckValue, Payload, Of;
    var c, p := s.client, s.server.wire[i];
    var c' := Receive(c, p, sendOk);
    ReceiveFrame(c, p, sendOk);
    forall m | m in c'.outgoing && m < |c'.requests| ensures Acknowledged(ServerLog(s), c', m) {
      assert Acknowledged(ServerLog(s), c, m);
      ReceivePayload(c, p, sendOk, m);
      if c'.outgoing[m] != c.outgoing[m] {
        AckIsEarned(s, i);
        var n: nat :| p == AckPacket(p.msgNo, n) && Aligned(|c.requests[p.msgNo].body|, n)
                      && n <= |Payload(Of(ServerLog(s), p.msgNo))|;
        AckValueOfPacket(p.msgNo, n);
      }
    }
  }

  /** Only ACKs change counters, and only upwards for their own message. */
  lemma ReceiveFrame(c: ClientState, p: Packets.Packet, sendOk: bool)
    ensures
      var c' := Receive(c, p, sendOk);
      && c'.requests == c.requests && c.queue <= c'.queue
      && forall m :: m in c'.outgoing ==> CounterMoved(c, c', p, m)
  {
    hide AckValue, Receive, Server.Acknowledge;
    AcknowledgeMoves(c.outgoing, p.msgNo, p.body);
    ReceiveScope(c, p, sendOk);
  }

  predicate CounterMoved(c: ClientState, c': ClientState, p: Packets.Packet, m: nat)
    requires m in c'.outgoing
  {
    m in c.outgoing
    && (c'.outgoing[m] == c.outgoing[m]
        || (p.packetType.Ack? && p.msgNo == m && AckValue(p.body) == Some(c'.outgoing[m].acknowledged)
            && c'.outgoing[m].acknowledged > c.outgoing[m].acknowledged))
  }

  lemma ReceivePayload(c: ClientState, p: Packets.Packet, sendOk: bool, m: nat)
    ensures Payload(Of(Receive(c, p, sendOk).queue, m)) == Payload(Of(c.queue, m))
  {
    hide Receive, Payload, Of;
    ReceiveScope(c, p, sendOk);
    var c' := Receive(c, p, sendOk);
    if c'.queue != c.queue {
      assert c'.queue == c.queue + [c'.queue[|c.queue|]];
      PayloadOfSnoc(c.queue, c'.queue[|c.queue|], m);
    }
  }

  lemma ReaderSideStep(service: Server.Service, s: State, sendOk: bool)
    requires s.clientGot < |s.server.wire| && s.client.reading && ReaderSide(service, s) && Replying(service, s.server)
    ensures ReaderSide(service, Step(service, s, ClientReceives(sendOk)))
  {
    hide Conforms, Assembled, Receive, HeaderCount, AllSent;
    var p, log := s.server.wire[s.clientGot], ReaderLog(s);
    var replies := Replies(service, s.server.dispatched);
    var s' := Step(service, s, ClientReceives(sendOk));
    assert ReaderLog(s') == log + [p];
    ConformsPrefix(s.server.wire, s.clientGot + 1, replies);
    ReceiveAssembles(s.client, p, sendOk, log, replies);
  }

  lemma ReaderKeeps(service: Server.Service, s: State, sendOk: bool)
    requires SystemInv(service, s)
    ensures SystemInv(service, Step(service, s, ClientReceives(sendOk)))
  {
    hide Conforms, ServerSide, AllAcknowledged, Answered, Receive, AllFit, Owned, Assembled, Replies, AllSent,
         HeadersNumbered;
    if s.client.reading && s.clientGot < |s.server.wire| {
      var p, log := s.server.wire[s.clientGot], ReaderLog(s);
      var c, c' := s.client, Receive(s.client, p, sendOk);
      var s' := Step(service, s, ClientReceives(sendOk));
      ReceiveKeeps(c, p, sendOk);
      ReceiveFrame(c, p, sendOk);
      RequestsGrow(s, c');
      ServerSame(s.(client := c'), s');
      ReaderSideStep(service, s, sendOk);
      ReceiveAcknowledged(s, s.clientGot, sendOk);
      assert ServerLog(s') == ServerLog(s);
      ConformsPrefix(s.server.wire, s.clientGot + 1, Replies(service, s.server.dispatched));
      assert s.server.wire[..s.clientGot + 1] == log + [p];
      forall id | id in c'.delivered && c'.delivered[id].error.None?
        ensures Answered(service, s.server.dispatched, id, c'.delivered[id])
      {
        ReceiveAnswers(service, c, p, sendOk, log, s.server.dispatched, id);
      }
    }
  }

  lemma ServerSame(s: State, s': State)
    requires s.serverGot <= |s.client.queue| && ServerSide(s)
    requires s'.server == s.server && s'.client == s.client && s'.serverGot == s.serverGot && s'.open == s.open
    ensures ServerSide(s')
  {
  }

  // ---------------------------------------------------------------- runs

  lemma InitialInv(service: Server.Service, budget: nat)
    ensures SystemInv(service, Initial(budget))
  {
    hide Full;
    StartInv();
    FreshReplying(service, budget);
    assert Replies(service, []) == [];
  }

  lemma StepKeepsAll(service: Server.Service, s: State, move: Move)
    requires SystemInv(service, s)
    ensures SystemInv(service, Step(service, s, move))
  {
    hide SystemInv, Apply, Receive, Server.Route;
    match move {
      case Local(e) =>
        if !e.Packet? {
          LocalKeeps(service, s, e);
        }
      case ServerReceives => ServerKeeps(service, s);
      case ClientReceives(sendOk) => ReaderKeeps(service, s, sendOk);
    }
  }

  lemma {:induction false} ExecuteKeeps(service: Server.Service, budget: nat, moves: seq<Move>)
    ensures SystemInv(service, Execute(service, budget, moves))
  {
    hide SystemInv, Step;
    if moves == [] {
      InitialInv(service, budget);
    } else {
      ExecuteKeeps(service, budget, moves[..|moves| - 1]);
      StepKeepsAll(service, Execute(service, budget, moves[..|moves| - 1]), moves[|moves| - 1]);
    }
  }
}
