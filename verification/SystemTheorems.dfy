/** What users of a connection rely on, in every state the whole system can reach. */
module SystemTheorems {
  import opened Wrappers
  import opened Packets
  import opened Messages
  import opened Client
  import opened ClientInvariant
  import opened ReplyStream
  import opened System
  import opened SystemInvariant
  import Server

  // ---------------------------------------------------------------- requests and replies

  /** `r` carries the id of the call and exactly what the service answered to exactly its request: the
      request was dispatched, as number `k`, with the header and the whole body of the call, and
      under no other number. */
  ghost predicate ExactReply(service: Server.Service, c: ClientState, dispatched: seq<Server.Dispatch>,
                             id: int, r: Response, k: nat) {
    && id in c.calls && k < |dispatched|
    && var call := c.calls[id];
       var request := Message(call.header, call.body);
       var reply := Server.Respond(service, k, request);
       && call.header.requestId == id
       && dispatched[k] == Server.Dispatch(call.msgNo, request)
       && (forall j :: 0 <= j < |dispatched| && j != k ==> dispatched[j].msgNo != call.msgNo)
       && r == Response(Server.ReplyHeader(reply, id), reply.body, None)
  }

  /** End to end: whatever the interleaving of concurrent calls, ACKs and losses, a call that completes
      without a transport error completes with the reply of the service to that very call, and
      its request was dispatched once. */
  lemma EndToEnd(service: Server.Service, budget: nat, moves: seq<Move>, id: int)
    ensures
      var s := Execute(service, budget, moves);
      && (id in s.client.delivered && s.client.delivered[id].error.None? ==>
            exists k :: ExactReply(service, s.client, s.server.dispatched, id, s.client.delivered[id], k))
      && (id in s.client.calls ==>
            match s.client.calls[id].phase
            case Done(Replied(r)) =>
              r.error.None? ==> exists k :: ExactReply(service, s.client, s.server.dispatched, id, r, k)
            case _ => true)
  {
    hide Execute, Conforms, SentFits, Tracked, AllFit;
    var s := Execute(service, budget, moves);
    ExecuteKeeps(service, budget, moves);
    if id in s.client.calls {
      Fits(s.client, id);
    }
    if id in s.client.delivered && s.client.delivered[id].error.None? {
      var k := DeliveredExact(service, s, id);
    }
  }

  lemma DeliveredExact(service: Server.Service, s: State, id: int) returns (k: nat)
    requires SystemInv(service, s) && id in s.client.delivered && s.client.delivered[id].error.None?
    ensures ExactReply(service, s.client, s.server.dispatched, id, s.client.delivered[id], k)
  {
    hide Conforms, SentFits, Tracked, AllFit, Accounted, Server.Respond, Assembled, AcksFit;
    var c, dispatched := s.client, s.server.dispatched;
    k :| 0 <= k < |dispatched| && Answers(service, dispatched[k], k, id, c.delivered[id]);
    var d := dispatched[k];
    assert DispatchFits(ServerLog(s), c.requests, d);
    assert Owned(c, d.msgNo);
    Fits(c, id);
    assert c.requests[d.msgNo] == MessageOf(c.calls[id]);
  }

  /** No request is dispatched twice, and only requests of calls, complete, are dispatched. */
  lemma DispatchedOnce(service: Server.Service, budget: nat, moves: seq<Move>, j: nat, k: nat)
    requires j < k < |Execute(service, budget, moves).server.dispatched|
    ensures
      var s := Execute(service, budget, moves);
      var a, b := s.server.dispatched[j], s.server.dispatched[k];
      && a.msgNo != b.msgNo && a.request.header.requestId != b.request.header.requestId
      && a.msgNo < |s.client.requests| && a.request == s.client.requests[a.msgNo]
  {
    hide Execute, Conforms, AllFit, Assembled, AcksFit;
    ExecuteKeeps(service, budget, moves);
    var s := Execute(service, budget, moves);
    var a, b := s.server.dispatched[j], s.server.dispatched[k];
    assert DispatchFits(ServerLog(s), s.client.requests, a);
    assert DispatchFits(ServerLog(s), s.client.requests, b);
    assert Owned(s.client, a.msgNo) && Owned(s.client, b.msgNo);
  }

  /** The reader's sequence check passes for every HEADER the server sends. */
  lemma RepliesInSequence(service: Server.Service, budget: nat, moves: seq<Move>)
    ensures
      var s := Execute(service, budget, moves);
      (s.clientGot < |s.server.wire| && s.server.wire[s.clientGot].packetType.Header?)
      ==> s.server.wire[s.clientGot].msgNo == s.client.nextIn
  {
    hide Execute, Inv, Conforms, Assembled, AllSent;
    ExecuteKeeps(service, budget, moves);
  }

  // ---------------------------------------------------------------- flow control and ACKs

  /** Against this server at most 65536 enqueued bytes of a message are unacknowledged, and what the
      client takes as acknowledged has been received by the server, which has not received more
      than was enqueued. */
  lemma AcksSound(service: Server.Service, budget: nat, moves: seq<Move>, m: nat)
    requires m in Execute(service, budget, moves).client.outgoing
    ensures
      var s := Execute(service, budget, moves);
      var acknowledged := s.client.outgoing[m].acknowledged;
      var received := |Payload(Of(ServerLog(s), m))|;
      var enqueued := |Payload(Of(s.client.queue, m))|;
      acknowledged <= received <= enqueued <= acknowledged + 65536
  {
    hide Execute, Conforms, AllFit, ServerSide, ReaderSide;
    ExecuteKeeps(service, budget, moves);
    var s := Execute(service, budget, moves);
    assert m < |s.client.requests|;
    UseAcknowledged(ServerLog(s), s.client, m);
    OfPrefix(s.client.queue, s.serverGot, m);
    PayloadPrefix(Of(ServerLog(s), m), Of(s.client.queue, m));
  }

  /** What the server holds of an unfinished request is what it has received of it. */
  lemma ServerHolds(service: Server.Service, budget: nat, moves: seq<Move>, m: nat)
    requires
      var s := Execute(service, budget, moves);
      s.open && m in s.server.incoming
    ensures
      var s := Execute(service, budget, moves);
      var received := Payload(Of(ServerLog(s), m));
      && m < |s.client.requests|
      && s.server.incoming[m] == Incoming(s.client.requests[m].header, received, |received|)
      && received <= s.client.requests[m].body
  {
    hide Execute, Inv, ReaderSide, AllAcknowledged, AllAnswered, Replying, DispatchesFit, AcksFit, AssembledAt, Of,
         Payload;
    ExecuteKeeps(service, budget, moves);
    var s := Execute(service, budget, moves);
    assert AssembledAt(Of(ServerLog(s), m), s.client.requests, s.server.incoming, s.server.nextIn, m);
    HeldIsReceived(Of(ServerLog(s), m), s.client.requests, s.server.incoming, s.server.nextIn, m);
  }

  lemma HeldIsReceived(ps: seq<Packets.Packet>, msgs: seq<Message>, incoming: map<nat, Incoming>, next: nat, m: nat)
    requires AssembledAt(ps, msgs, incoming, next, m) && m in incoming
    ensures m < |msgs| && incoming[m] == Incoming(msgs[m].header, Payload(ps), |Payload(ps)|)
    ensures Payload(ps) <= msgs[m].body
  {
    hide Full, Payload;
    assert ps == Full(m, msgs[m])[..|ps|];
    PayloadSentUpTo(m, msgs[m], |ps| - 1);
  }

  /** The number of bytes the `i`-th ACK of a message tells. */
  function AckedBytes(length: nat, i: nat): nat {
    if i * DATA_CHUNK_SIZE <= length then ChunkEnd(length, i * DATA_CHUNK_SIZE) else length
  }

  /** The ACKs the server writes for a message are, in order, those of strictly increasing byte counts,
      one after each chunk received, and the last one a whole message gets tells its whole length. */
  lemma AckSequence(service: Server.Service, budget: nat, moves: seq<Move>, m: nat, i: nat)
    requires i < |AcksOf(Execute(service, budget, moves).server.wire, m)|
    ensures
      var s := Execute(service, budget, moves);
      var acks := AcksOf(s.server.wire, m);
      && m < |s.client.requests|
      && var length := |s.client.requests[m].body|;
         && |acks| <= DataCount(Of(ServerLog(s), m)) && |acks| <= Chunks(length)
         && (s.open ==> |acks| == DataCount(Of(ServerLog(s), m)))
         && acks[i] == AckPacket(m, AckedBytes(length, i))
         && AckedBytes(length, i) <= |Payload(Of(ServerLog(s), m))|
         && (i > 0 ==> AckedBytes(length, i - 1) < AckedBytes(length, i))
         && (i + 1 == Chunks(length) ==> AckedBytes(length, i) == length)
  {
    hide Execute, Inv, ReaderSide, Full, AckPacket, Assembled, DispatchesFit;
    ExecuteKeeps(service, budget, moves);
    var s := Execute(service, budget, moves);
    var requests, log := s.client.requests, ServerLog(s);
    assert AcksFit(log, requests, s.server.wire, s.open, m);
    assert AcksOf(s.server.wire, m)[i] == EarnedAcks(requests, m)[i];
    InvConforms(s.client);
    ConformsPrefix(s.client.queue, s.serverGot, requests);
    ReceivedAtLeast(log, requests, m, i);
  }
}
