/**
 Both ends together: any number of concurrent calls, two first-in first-out packet streams, the
 server loop and the client's reader, interleaved in any way.
 */
module System {
  import opened Wrappers
  import opened Packets
  import opened Messages
  import opened Client
  import opened ClientInvariant
  import opened ReplyStream
  import Server

  /** Each direction is a log of everything sent with the number of packets received from it; a connection
      that breaks is one whose receiver never takes the rest. */
  datatype State = State(
    client: ClientState, server: Server.ServerState, open: bool, serverGot: nat, clientGot: nat)

  datatype Move =
    | Local(e: Event)
    | ServerReceives
    | ClientReceives(sendOk: bool)

  function Initial(budget: nat): State {
    State(START, Server.Fresh(budget), true, 0, 0)
  }

  function Step(service: Server.Service, s: State, move: Move): State {
    match move
    case Local(e) => if e.Packet? then s else s.(client := Apply(s.client, e))
    case ServerReceives =>
      if !s.open || s.serverGot >= |s.client.queue| then s
      else
        var (server, ok) := Server.Route(service, s.server, s.client.queue[s.serverGot]);
        s.(server := server, open := ok, serverGot := s.serverGot + 1)
    case ClientReceives(sendOk) =>
      if !s.client.reading || s.clientGot >= |s.server.wire| then s
      else s.(client := Receive(s.client, s.server.wire[s.clientGot], sendOk), clientGot := s.clientGot + 1)
  }

  function Execute(service: Server.Service, budget: nat, moves: seq<Move>): State {
    if moves == [] then Initial(budget)
    else Step(service, Execute(service, budget, moves[..|moves| - 1]), moves[|moves| - 1])
  }

  // ---------------------------------------------------------------- ACKs of a message

  function AcksOf(log: seq<Packets.Packet>, m: nat): seq<Packets.Packet> {
    if log == [] then []
    else
      var p := log[|log| - 1];
      AcksOf(log[..|log| - 1], m) + (if p.msgNo == m && p.packetType.Ack? then [p] else [])
  }

  function DataCount(ps: seq<Packets.Packet>): nat {
    if ps == [] then 0
    else DataCount(ps[..|ps| - 1]) + (if ps[|ps| - 1].packetType.Data? then 1 else 0)
  }

  /** The ACKs a message earns: after each chunk, the bytes received so far. */
  function EarnedAcks(msgs: seq<Message>, m: nat): seq<Packets.Packet> {
    if m >= |msgs| then []
    else
      var length := |msgs[m].body|;
      seq(Chunks(length), i requires 0 <= i < Chunks(length) => AckPacket(m, ChunkEnd(length, i * DATA_CHUNK_SIZE)))
  }

  lemma AcksOfSnoc(log: seq<Packets.Packet>, p: Packets.Packet, m: nat)
    ensures AcksOf(log + [p], m) == AcksOf(log, m) + (if p.msgNo == m && p.packetType.Ack? then [p] else [])
  {
    assert (log + [p])[..|log|] == log;
  }

  lemma {:induction false} AcksOfMessage(log: seq<Packets.Packet>, m: nat, msg: Message, n: nat, j: nat)
    requires n <= |Full(m, msg)|
    ensures AcksOf(log + Full(m, msg)[..n], j) == AcksOf(log, j)
  {
    hide Full;
    var full := Full(m, msg);
    if n == 0 {
      assert log + full[..0] == log;
    } else {
      AcksOfMessage(log, m, msg, n - 1, j);
      FullAt(m, msg, n - 1);
      assert log + full[..n] == (log + full[..n - 1]) + [full[n - 1]];
      AcksOfSnoc(log + full[..n - 1], full[n - 1], j);
    }
  }

  lemma {:induction false} AckInLog(log: seq<Packets.Packet>, i: nat) returns (k: nat)
    requires i < |log| && log[i].packetType.Ack?
    ensures k < |AcksOf(log, log[i].msgNo)| && AcksOf(log, log[i].msgNo)[k] == log[i]
  {
    var front := log[..|log| - 1];
    if i == |log| - 1 {
      k := |AcksOf(front, log[i].msgNo)|;
    } else {
      k := AckInLog(front, i);
    }
  }

  /** After `1 + i` packets of a message, `i` chunks are there. */
  lemma {:induction false} ChunksReceived(m: nat, msg: Message, i: nat)
    requires i <= Chunks(|msg.body|)
    ensures
      var ps := Full(m, msg)[..1 + i];
      && DataCount(ps) == i
      && |Payload(ps)| == if i * DATA_CHUNK_SIZE < |msg.body| then i * DATA_CHUNK_SIZE else |msg.body|
  {
    hide Payload;
    PayloadSentUpTo(m, msg, i);
    var full := Full(m, msg);
    assert full[..1 + i] == full[..i] + [full[i]];
    DataCountSnoc(full[..i], full[i]);
    if i == 0 {
      assert full[..0] == [];
    } else {
      ChunksReceived(m, msg, i - 1);
    }
  }

  lemma DataCountSnoc(ps: seq<Packets.Packet>, p: Packets.Packet)
    ensures DataCount(ps + [p]) == DataCount(ps) + (if p.packetType.Data? then 1 else 0)
  {
    assert (ps + [p])[..|ps|] == ps;
  }

  // ---------------------------------------------------------------- the invariant

  function Taken(log: seq<Packets.Packet>, n: nat): seq<Packets.Packet> {
    if n <= |log| then log[..n] else log
  }

  /** What the server has received. */
  function ServerLog(s: State): seq<Packets.Packet> {
    Taken(s.client.queue, s.serverGot)
  }

  /** What the client's reader has received. */
  function ReaderLog(s: State): seq<Packets.Packet> {
    Taken(s.server.wire, s.clientGot)
  }

  /** A dispatched request is a message of the client, and all of it has been received. */
  ghost predicate DispatchFits(log: seq<Packets.Packet>, requests: seq<Message>, d: Server.Dispatch) {
    && d.msgNo < |requests| && d.request == requests[d.msgNo]
    && |Of(log, d.msgNo)| == |Full(d.msgNo, requests[d.msgNo])|
  }

  ghost predicate DispatchesFit(log: seq<Packets.Packet>, requests: seq<Message>, dispatched: seq<Server.Dispatch>) {
    && (forall k :: 0 <= k < |dispatched| ==> DispatchFits(log, requests, dispatched[k]))
    && (forall j, k :: 0 <= j < k < |dispatched| ==> dispatched[j].msgNo != dispatched[k].msgNo)
  }

  /** The ACKs written for a message: one for each chunk received, none of them lost while the
      connection is open. */
  ghost predicate AcksFit(log: seq<Packets.Packet>, requests: seq<Message>, wire: seq<Packets.Packet>, open: bool,
                          m: nat) {
    && AcksOf(wire, m) <= EarnedAcks(requests, m)
    && |AcksOf(wire, m)| <= DataCount(Of(log, m))
    && (open ==> |AcksOf(wire, m)| == DataCount(Of(log, m)))
  }

  ghost predicate ServerSide(s: State)
    requires s.serverGot <= |s.client.queue|
  {
    var log, requests := ServerLog(s), s.client.requests;
    && (s.open ==> Assembled(log, requests, s.server.incoming, s.server.nextIn))
    && DispatchesFit(log, requests, s.server.dispatched)
    && forall m: nat :: AcksFit(log, requests, s.server.wire, s.open, m)
  }

  ghost predicate ReaderSide(service: Server.Service, s: State)
    requires s.clientGot <= |s.server.wire|
  {
    && Assembled(ReaderLog(s), Replies(service, s.server.dispatched), s.client.incoming, s.client.nextIn)
    && s.client.nextIn == HeaderCount(ReaderLog(s))
  }

  /** What is acknowledged has been received, up to a chunk boundary; and no more than the window is
      under way. */
  ghost predicate Acknowledged(log: seq<Packets.Packet>, c: ClientState, m: nat)
    requires m in c.outgoing && m < |c.requests|
  {
    var acknowledged := c.outgoing[m].acknowledged;
    && Aligned(|c.requests[m].body|, acknowledged)
    && acknowledged <= |Payload(Of(log, m))|
    && |Payload(Of(c.queue, m))| <= acknowledged + FLOW_CONTROL_WATERMARK
  }

  ghost predicate AllAcknowledged(log: seq<Packets.Packet>, c: ClientState) {
    forall m :: m in c.outgoing && m < |c.requests| ==> Acknowledged(log, c, m)
  }

  /** Reply `k` is the response. */
  predicate Answers(service: Server.Service, d: Server.Dispatch, k: nat, id: int, r: Response) {
    var reply := Server.ReplyMessage(service, k, d.request);
    d.request.header.requestId == id && r == Response(reply.header, reply.body, None)
  }

  ghost predicate Answered(service: Server.Service, dispatched: seq<Server.Dispatch>, id: int, r: Response) {
    exists k :: 0 <= k < |dispatched| && Answers(service, dispatched[k], k, id, r)
  }

  ghost predicate AllAnswered(service: Server.Service, s: State) {
    forall id :: id in s.client.delivered && s.client.delivered[id].error.None?
                 ==> Answered(service, s.server.dispatched, id, s.client.delivered[id])
  }

  ghost predicate SystemInv(service: Server.Service, s: State) {
    && Inv(s.client) && Replying(service, s.server)
    && s.serverGot <= |s.client.queue| && s.clientGot <= |s.server.wire|
    && ServerSide(s) && ReaderSide(service, s)
    && AllAcknowledged(ServerLog(s), s.client)
    && AllAnswered(service, s)
  }

  // ---------------------------------------------------------------- steps of the client alone

  /** What a step other than receiving can do to the parts of the client the server's view rests on. */
  ghost predicate LocalFrame(c: ClientState, c': ClientState) {
    && c.queue <= c'.queue && c.requests <= c'.requests
    && c'.incoming == c.incoming && c'.nextIn == c.nextIn
    && (forall id :: id in c'.delivered && c'.delivered[id].error.None? ==>
        id in c.delivered && c.delivered[id] == c'.delivered[id])
    && (forall m :: m in c'.outgoing ==>
          if m in c.outgoing then c'.outgoing[m].acknowledged == c.outgoing[m].acknowledged
          else c'.outgoing[m].acknowledged == 0)
  }

  lemma BeginFrame(c: ClientState, id: int, sendOk: bool)
    requires c.nextMsgNo !in c.outgoing
    ensures LocalFrame(c, BeginMessage(c, id, sendOk))
  {
  }

  lemma CheckFrame(c: ClientState, id: int)
    ensures LocalFrame(c, CheckWindow(c, id))
  {
    hide OverWatermark;
  }

  lemma ChunkFrame(c: ClientState, id: int, sendOk: bool)
    ensures LocalFrame(c, EnqueueChunk(c, id, sendOk))
  {
    hide ChunkEnd;
  }

  lemma EndFrame(c: ClientState, id: int, sendOk: bool)
    ensures LocalFrame(c, EnqueueEof(c, id, sendOk))
  {
  }

  lemma CountFrame(c: ClientState, id: int)
    ensures LocalFrame(c, CountChunk(c, id))
  {
    hide ChunkEnd;
  }

  lemma AwaitFrame(c: ClientState, id: int)
    ensures LocalFrame(c, TakeReply(c, id)) && LocalFrame(c, TimeOut(c, id))
  {
    if !In(c, id, Awaiting) {
    } else if id in c.delivered {
    } else if id !in c.pending {
    } else {
    }
  }

  lemma LeaveFrame(c: ClientState, id: int)
    ensures LocalFrame(c, RemovePending(c, id)) && LocalFrame(c, RemoveOutgoing(c, id))
  {
    hide WithExits;
    if id !in c.calls {
    } else if c.calls[id].phase.Failing? {
    } else if c.calls[id].phase.Closing? {
    } else {
    }
  }

  lemma StopFrame(c: ClientState, error: ErrorText)
    ensures LocalFrame(c, StopReading(c, error))
  {
    hide WithExits;
  }

  lemma LocalFrameHolds(c: ClientState, e: Event)
    requires !e.Packet? && c.nextMsgNo !in c.outgoing
    ensures LocalFrame(c, Apply(c, e))
  {
    hide LocalFrame, BeginMessage, CheckWindow, EnqueueChunk, EnqueueEof, CountChunk, TakeReply, TimeOut,
         RemovePending, RemoveOutgoing, StopReading, StartCall;
    match e {
      case Start(args) => StartFrame(c, args);
      case Begin(id, sendOk) => BeginFrame(c, id, sendOk);
      case Check(id) => CheckFrame(c, id);
      case Chunk(id, sendOk) => ChunkFrame(c, id, sendOk);
      case Count(id) => CountFrame(c, id);
      case End(id, sendOk) => EndFrame(c, id, sendOk);
      case Take(id) => AwaitFrame(c, id);
      case Expire(id) => AwaitFrame(c, id);
      case Unregister(id) => LeaveFrame(c, id);
      case Untrack(id) => LeaveFrame(c, id);
      case Stop(error) =>
        StopFrame(c, error);
        CloseFrame(c);
      case Close => CloseFrame(c);
    }
  }

  lemma StartFrame(c: ClientState, args: Arguments)
    ensures LocalFrame(c, StartCall(c, args))
  {
  }

  lemma CloseFrame(c: ClientState)
    ensures LocalFrame(c, c) && LocalFrame(c, c.(closed := true))
  {
  }
}
