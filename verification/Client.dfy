/**
 The client end of a connection (client/connection.rs, client/reader.rs). Any number of calls of
 `send_request` and the reader task run at the same time; between two awaits each runs alone, so
 the connection moves by atomic sections. Every section is given twice: as a step on a value, for
 reasoning about runs, and as a method of the connection object that carries it out.
 */
module Client {
  import opened Wrappers
  import opened Text
  import opened Packets
  import opened Framing
  import opened Messages
  import Server

  const FLOW_CONTROL_WATERMARK: nat := 65536

  // ---------------------------------------------------------------- calls

  /** The arguments of `send_request`. */
  datatype Arguments = Arguments(
    action: string, version: int, envelope: EnvelopeFormat, ticket: string, clientId: int, body: seq<Byte>)

  datatype ErrorText = PeerError(text: string) | ConnectionLost | ProtocolError(error: FatalError)

  datatype Response = Response(header: PacketHeader, body: seq<Byte>, error: Option<ErrorText>)

  datatype Failure = SendFailed | ClosedInFlowControl | TimedOut | ReplyLost

  datatype Outcome = Replied(response: Response) | Failed(failure: Failure)

  /** Where a call is: about to take a message number; at the head of the chunk loop; past the window
      check; chunk enqueued but not yet counted; waiting for the reply; giving up; leaving. */
  datatype Phase =
    | Created | Sending | Cleared | Counting | Awaiting
    | Failing(failure: Failure) | Closing(outcome: Outcome) | Done(outcome: Outcome)

  datatype Call = Call(header: PacketHeader, body: seq<Byte>, msgNo: nat, offset: nat, phase: Phase)

  function RequestHeader(id: int, args: Arguments): PacketHeader {
    PacketHeader(args.action, args.envelope, None, None, None, id, args.clientId, args.ticket, "", Request,
                 args.version)
  }

  function DefaultHeader(): PacketHeader {
    PacketHeader("", Json, None, None, None, 0, 0, "", "", Request, 1)
  }

  // ---------------------------------------------------------------- state

  /** How a request id left the pending map. */
  datatype Exit = ByReply | ByTxerr | ByCaller(failure: Failure) | ByLoss

  /** `pending` holds the ids whose reply channel is open; the channel of an id belongs to its call, so
      the map is its key set. `queue` is everything ever handed to the writer task. `delivered`
      (what went through each reply channel), `exits` and `requests` are histories. */
  datatype ClientState = ClientState(
    nextRequestId: int, nextMsgNo: nat, calls: map<int, Call>,
    pending: set<int>, outgoing: map<nat, Progress>, closed: bool, queue: seq<Packet>,
    incoming: map<nat, Incoming>, nextIn: nat, reading: bool,
    delivered: map<int, Response>, exits: map<int, seq<Exit>>, requests: seq<Message>)

  const START: ClientState :=
    ClientState(1, 0, map[], {}, map[], false, [], map[], 0, true, map[], map[], [])

  function ExitsOf(exits: map<int, seq<Exit>>, id: int): seq<Exit> {
    if id in exits then exits[id] else []
  }

  function WithExits(exits: map<int, seq<Exit>>, ids: set<int>, e: Exit): (r: map<int, seq<Exit>>)
    ensures forall id :: ExitsOf(r, id) == ExitsOf(exits, id) + (if id in ids then [e] else [])
  {
    exits + map id | id in ids :: ExitsOf(exits, id) + [e]
  }

  function Enqueue(c: ClientState, p: Packet, sendOk: bool): ClientState {
    if sendOk then c.(queue := c.queue + [p]) else c
  }

  /** `sent.saturating_sub(acknowledged) >= FLOW_CONTROL_WATERMARK` */
  predicate OverWatermark(outgoing: map<nat, Progress>, m: nat) {
    m in outgoing
    && (if outgoing[m].sent < outgoing[m].acknowledged then 0 else outgoing[m].sent - outgoing[m].acknowledged)
       >= FLOW_CONTROL_WATERMARK
  }

  // ---------------------------------------------------------------- the sections of send_request

  function StartCall(c: ClientState, args: Arguments): ClientState {
    if c.closed then c
    else
      var id := c.nextRequestId;
      c.(nextRequestId := id + 1, calls := c.calls[id := Call(RequestHeader(id, args), args.body, 0, 0, Created)])
  }

  predicate In(c: ClientState, id: int, phase: Phase) {
    id in c.calls && c.calls[id].phase == phase
  }

  function Move(c: ClientState, id: int, phase: Phase): ClientState
    requires id in c.calls
  {
    c.(calls := c.calls[id := c.calls[id].(phase := phase)])
  }

  /** Takes a message number, registers the id and enqueues the HEADER. */
  function BeginMessage(c: ClientState, id: int, sendOk: bool): ClientState {
    if !In(c, id, Created) then c
    else
      var call := c.calls[id].(msgNo := c.nextMsgNo, phase := if sendOk then Sending else Failing(SendFailed));
      Enqueue(c, HeaderPacket(c.nextMsgNo, call.header), sendOk).(
        nextMsgNo := c.nextMsgNo + 1, pending := c.pending + {id},
        outgoing := c.outgoing[c.nextMsgNo := Progress(0, 0)],
        calls := c.calls[id := call], requests := c.requests + [Message(call.header, call.body)])
  }

  /** One pass of the flow-control loop. */
  function CheckWindow(c: ClientState, id: int): ClientState {
    if !In(c, id, Sending) || c.calls[id].offset >= |c.calls[id].body| then c
    else if c.closed then Move(c, id, Failing(ClosedInFlowControl))
    else if OverWatermark(c.outgoing, c.calls[id].msgNo) then c
    else Move(c, id, Cleared)
  }

  function EnqueueChunk(c: ClientState, id: int, sendOk: bool): ClientState {
    if !In(c, id, Cleared) || c.calls[id].offset > |c.calls[id].body| then c
    else
      var call := c.calls[id];
      var end := ChunkEnd(|call.body|, call.offset);
      Move(Enqueue(c, DataPacket(call.msgNo, call.body[call.offset..end]), sendOk), id,
           if sendOk then Counting else Failing(SendFailed))
  }

  function CountChunk(c: ClientState, id: int): ClientState {
    if !In(c, id, Counting) || c.calls[id].offset > |c.calls[id].body| then c
    else
      var call := c.calls[id];
      var end := ChunkEnd(|call.body|, call.offset);
      var m := call.msgNo;
      c.(calls := c.calls[id := call.(offset := end, phase := Sending)],
         outgoing := if m in c.outgoing
                     then c.outgoing[m := Progress(c.outgoing[m].sent + (end - call.offset),
                                                   c.outgoing[m].acknowledged)]
                     else c.outgoing)
  }

  function EnqueueEof(c: ClientState, id: int, sendOk: bool): ClientState {
    if !In(c, id, Sending) || c.calls[id].offset < |c.calls[id].body| then c
    else Move(Enqueue(c, EofPacket(c.calls[id].msgNo), sendOk), id, if sendOk then Awaiting else Failing(SendFailed))
  }

  /** The reply channel resolves: with a response, or because it was dropped. */
  function TakeReply(c: ClientState, id: int): ClientState {
    if !In(c, id, Awaiting) then c
    else if id in c.delivered then Move(c, id, Closing(Replied(c.delivered[id])))
    else if id !in c.pending then Move(c, id, Closing(Failed(ReplyLost)))
    else c
  }

  function TimeOut(c: ClientState, id: int): ClientState {
    if In(c, id, Awaiting) then Move(c, id, Failing(TimedOut)) else c
  }

  function RemovePending(c: ClientState, id: int): ClientState {
    if id !in c.calls || !c.calls[id].phase.Failing? then c
    else
      var failure := c.calls[id].phase.failure;
      Move(c, id, Closing(Failed(failure))).(
        pending := c.pending - {id},
        exits := if id in c.pending then WithExits(c.exits, {id}, ByCaller(failure)) else c.exits)
  }

  function RemoveOutgoing(c: ClientState, id: int): ClientState {
    if id !in c.calls || !c.calls[id].phase.Closing? then c
    else Move(c, id, Done(c.calls[id].phase.outcome)).(outgoing := c.outgoing - {c.calls[id].msgNo})
  }

  // ---------------------------------------------------------------- the reader

  /** A response for an id completes that call if the id is still pending, and nothing else. */
  function Deliver(c: ClientState, id: int, response: Response, e: Exit): ClientState {
    if id !in c.pending then c
    else c.(pending := c.pending - {id}, delivered := c.delivered[id := response], exits := WithExits(c.exits, {id}, e))
  }

  function OnHeader(c: ClientState, p: Packets.Packet): ClientState {
    if p.msgNo != c.nextIn then c
    else if p.header.None? then c.(nextIn := c.nextIn + 1)
    else c.(nextIn := c.nextIn + 1, incoming := c.incoming[p.msgNo := Incoming(p.header.value, [], 0)])
  }

  function OnData(c: ClientState, p: Packets.Packet, sendOk: bool): ClientState {
    if p.msgNo !in c.incoming || p.body == [] then c
    else
      var had := c.incoming[p.msgNo];
      var msg := Incoming(had.header, had.body + p.body, had.received + |p.body|);
      Enqueue(c, AckPacket(p.msgNo, msg.received), sendOk).(incoming := c.incoming[p.msgNo := msg])
  }

  /** The end of message `m`, good or bad. */
  function OnEnd(c: ClientState, m: nat, error: Option<ErrorText>, e: Exit): ClientState {
    if m !in c.incoming then c
    else
      var msg := c.incoming[m];
      Deliver(c, msg.header.requestId, Response(msg.header, msg.body, error), e).(incoming := c.incoming - {m})
  }

  /** One packet; `sendOk` tells whether the writer task takes packets now. */
  function Receive(c: ClientState, p: Packets.Packet, sendOk: bool): ClientState {
    match p.packetType
    case Header => OnHeader(c, p)
    case Data => OnData(c, p, sendOk)
    case Eof => if p.body != [] then c else OnEnd(c, p.msgNo, None, ByReply)
    case Txerr => if InvalidTxerr(p.body) then c else OnEnd(c, p.msgNo, Some(PeerError(DecodeLossy(p.body))), ByTxerr)
    case Ack => c.(outgoing := Server.Acknowledge(c.outgoing, p.msgNo, p.body))
    case Ping => Enqueue(c, PongPacket(p.msgNo), sendOk)
    case Pong => c
  }

  /** The reader stops and completes every pending call with an error. */
  function StopReading(c: ClientState, error: ErrorText): ClientState {
    c.(reading := false, pending := {},
       delivered := c.delivered + map id | id in c.pending :: Response(DefaultHeader(), [], Some(error)),
       exits := WithExits(c.exits, c.pending, ByLoss))
  }

  // ---------------------------------------------------------------- runs

  /** What can happen next on a connection. `sendOk` of an event tells whether the channel to the writer
      task is still open; nothing is assumed about when it closes. */
  datatype Event =
    | Start(args: Arguments)
    | Begin(id: int, sendOk: bool)
    | Check(id: int)
    | Chunk(id: int, sendOk: bool)
    | Count(id: int)
    | End(id: int, sendOk: bool)
    | Take(id: int)
    | Expire(id: int)
    | Unregister(id: int)
    | Untrack(id: int)
    | Packet(p: Packets.Packet, sendOk: bool)
    | Stop(error: ErrorText)
    | Close

  function Apply(c: ClientState, e: Event): ClientState {
    match e
    case Start(args) => StartCall(c, args)
    case Begin(id, sendOk) => BeginMessage(c, id, sendOk)
    case Check(id) => CheckWindow(c, id)
    case Chunk(id, sendOk) => EnqueueChunk(c, id, sendOk)
    case Count(id) => CountChunk(c, id)
    case End(id, sendOk) => EnqueueEof(c, id, sendOk)
    case Take(id) => TakeReply(c, id)
    case Expire(id) => TimeOut(c, id)
    case Unregister(id) => RemovePending(c, id)
    case Untrack(id) => RemoveOutgoing(c, id)
    case Packet(p, sendOk) => if c.reading then Receive(c, p, sendOk) else c
    case Stop(error) => if c.reading then StopReading(c, error) else c
    case Close => if c.reading then c else c.(closed := true)
  }

  /** Any events, in any order: those that do not apply change nothing. */
  function Run(c: ClientState, events: seq<Event>): ClientState {
    if events == [] then c else Apply(Run(c, events[..|events| - 1]), events[|events| - 1])
  }

  // ---------------------------------------------------------------- the connection as it runs

  /** The shared state of a connection and the local variables of the calls suspended on it. Each method is
      the code between two awaits. */
  class ConnectionHandle {
    const codec: HeaderCodec
    var nextRequestId: int
    var nextOutgoingMsgNo: nat
    var calls: map<int, Call>
    var pending: set<int>
    var outgoing: map<nat, Progress>
    var closed: bool
    var queue: seq<Packets.Packet>
    // the reader task
    var buf: seq<Byte>
    var incoming: map<nat, Incoming>
    var nextIncoming: nat
    var reading: bool
    var delivered: map<int, Response>
    ghost var exits: map<int, seq<Exit>>
    ghost var requests: seq<Message>

    constructor (codec: HeaderCodec)
      ensures State() == START && buf == [] && this.codec == codec
    {
      this.codec := codec;
      nextRequestId, nextOutgoingMsgNo, calls, pending, outgoing, closed, queue := 1, 0, map[], {}, map[], false, [];
      buf, incoming, nextIncoming, reading, delivered, exits, requests := [], map[], 0, true, map[], map[], [];
    }

    ghost function State(): ClientState
      reads this
    {
      ClientState(nextRequestId, nextOutgoingMsgNo, calls, pending, outgoing, closed, queue,
                  incoming, nextIncoming, reading, delivered, exits, requests)
    }

    /** `writer_tx.send` */
    method Send(p: Packets.Packet, sendOk: bool)
      modifies `queue
      ensures queue == if sendOk then old(queue) + [p] else old(queue)
    {
      if sendOk {
        queue := queue + [p];
      }
    }

    method OpenCall(args: Arguments) returns (id: Option<int>)
      modifies `nextRequestId, `calls
      ensures State() == StartCall(old(State()), args)
      ensures id == if old(closed) then None else Some(old(nextRequestId))
    {
      if closed {
        return None;
      }
      id := Some(nextRequestId);
      calls := calls[nextRequestId := Call(RequestHeader(nextRequestId, args), args.body, 0, 0, Created)];
      nextRequestId := nextRequestId + 1;
    }

    method SendHeader(id: int, sendOk: bool)
      requires In(State(), id, Created)
      modifies this
      ensures State() == BeginMessage(old(State()), id, sendOk) && buf == old(buf)
    {
      var call := calls[id];
      var msgNo := nextOutgoingMsgNo;
      nextOutgoingMsgNo := nextOutgoingMsgNo + 1;
      pending := pending + {id};
      outgoing := outgoing[msgNo := Progress(0, 0)];
      requests := requests + [Message(call.header, call.body)];
      Send(HeaderPacket(msgNo, call.header), sendOk);
      calls := calls[id := call.(msgNo := msgNo, phase := if sendOk then Sending else Failing(SendFailed))];
    }

    /** One pass of the inner loop; a call that stays `Sending` goes back to wait for an ACK. */
    method FlowControl(id: int)
      requires In(State(), id, Sending) && calls[id].offset < |calls[id].body|
      modifies `calls
      ensures State() == CheckWindow(old(State()), id)
    {
      var call := calls[id];
      if closed {
        calls := calls[id := call.(phase := Failing(ClosedInFlowControl))];
        return;
      }
      var overWatermark := false;
      if call.msgNo in outgoing {
        var s := outgoing[call.msgNo];
        overWatermark := (if s.sent < s.acknowledged then 0 else s.sent - s.acknowledged) >= FLOW_CONTROL_WATERMARK;
      }
      if !overWatermark {
        calls := calls[id := call.(phase := Cleared)];
      }
    }

    method SendChunk(id: int, sendOk: bool)
      requires In(State(), id, Cleared) && calls[id].offset <= |calls[id].body|
      modifies `calls, `queue
      ensures State() == EnqueueChunk(old(State()), id, sendOk)
    {
      var call := calls[id];
      var end := ChunkEnd(|call.body|, call.offset);
      Send(DataPacket(call.msgNo, call.body[call.offset..end]), sendOk);
      calls := calls[id := call.(phase := if sendOk then Counting else Failing(SendFailed))];
    }

    method CountSent(id: int)
      requires In(State(), id, Counting) && calls[id].offset <= |calls[id].body|
      modifies `calls, `outgoing
      ensures State() == CountChunk(old(State()), id)
    {
      var call := calls[id];
      var end := ChunkEnd(|call.body|, call.offset);
      if call.msgNo in outgoing {
        var s := outgoing[call.msgNo];
        outgoing := outgoing[call.msgNo := s.(sent := s.sent + (end - call.offset))];
      }
      calls := calls[id := call.(offset := end, phase := Sending)];
    }

    method SendEof(id: int, sendOk: bool)
      requires In(State(), id, Sending) && calls[id].offset >= |calls[id].body|
      modifies `calls, `queue
      ensures State() == EnqueueEof(old(State()), id, sendOk)
    {
      var call := calls[id];
      Send(EofPacket(call.msgNo), sendOk);
      calls := calls[id := call.(phase := if sendOk then Awaiting else Failing(SendFailed))];
    }

    /** The timeout fires, or the reply channel resolves, or neither. */
    method AwaitReply(id: int, expired: bool)
      requires In(State(), id, Awaiting)
      modifies `calls
      ensures State() == if expired then TimeOut(old(State()), id) else TakeReply(old(State()), id)
    {
      var call := calls[id];
      if expired {
        calls := calls[id := call.(phase := Failing(TimedOut))];
      } else if id in delivered {
        calls := calls[id := call.(phase := Closing(Replied(delivered[id])))];
      } else if id !in pending {
        calls := calls[id := call.(phase := Closing(Failed(ReplyLost)))];
      }
    }

    method CleanUpPending(id: int)
      requires id in calls && calls[id].phase.Failing?
      modifies `calls, `pending, `exits
      ensures State() == RemovePending(old(State()), id)
    {
      var failure := calls[id].phase.failure;
      if id in pending {
        exits := WithExits(exits, {id}, ByCaller(failure));
      }
      pending := pending - {id};
      calls := calls[id := calls[id].(phase := Closing(Failed(failure)))];
    }

    method CleanUpOutgoing(id: int) returns (outcome: Outcome)
      requires id in calls && calls[id].phase.Closing?
      modifies `calls, `outgoing
      ensures State() == RemoveOutgoing(old(State()), id) && outcome == old(calls[id].phase.outcome)
    {
      outcome := calls[id].phase.outcome;
      outgoing := outgoing - {calls[id].msgNo};
      calls := calls[id := calls[id].(phase := Done(outcome))];
    }

    /** `pend.remove(&request_id)` and `tx.send` */
    method Complete(id: int, response: Response, ghost e: Exit)
      modifies `pending, `delivered, `exits
      ensures State() == Deliver(old(State()), id, response, e)
    {
      if id in pending {
        pending := pending - {id};
        delivered := delivered[id := response];
        exits := WithExits(exits, {id}, e);
      }
    }

    /** The end of an incoming message, good or bad. */
    method Finish(msgNo: nat, error: Option<ErrorText>, ghost e: Exit)
      modifies `incoming, `pending, `delivered, `exits
      ensures State() == OnEnd(old(State()), msgNo, error, e)
    {
      if msgNo !in incoming {
        return;
      }
      var msg := incoming[msgNo];
      incoming := incoming - {msgNo};
      Complete(msg.header.requestId, Response(msg.header, msg.body, error), e);
    }

    method AcceptAck(msgNo: nat, body: seq<Byte>)
      modifies `outgoing
      ensures outgoing == Server.Acknowledge(old(outgoing), msgNo, body)
    {
      hide AckValue;
      var value := AckValue(body);
      if value.None? {
        return;
      }
      if msgNo in outgoing {
        var s := outgoing[msgNo];
        if value.value <= s.acknowledged {
          return;
        }
        if value.value > s.sent {
          return;
        }
        outgoing := outgoing[msgNo := s.(acknowledged := value.value)];
      }
    }

    /** `route_packet` */
    method RoutePacket(p: Packets.Packet, sendOk: bool)
      modifies this
      ensures State() == Receive(old(State()), p, sendOk) && buf == old(buf)
    {
      hide AckPacket, OnEnd, Server.Acknowledge, InvalidTxerr;
      match p.packetType {
        case Header =>
          if p.msgNo != nextIncoming {
            return;
          }
          nextIncoming := nextIncoming + 1;
          if p.header.Some? {
            incoming := incoming[p.msgNo := Incoming(p.header.value, [], 0)];
          }
        case Data =>
          if p.msgNo !in incoming || p.body == [] {
            return;
          }
          var msg := incoming[p.msgNo];
          msg := msg.(body := msg.body + p.body, received := msg.received + |p.body|);
          incoming := incoming[p.msgNo := msg];
          Send(AckPacket(p.msgNo, msg.received), sendOk);
        case Eof =>
          if p.body != [] {
            return;
          }
          Finish(p.msgNo, None, ByReply);
        case Txerr =>
          if InvalidTxerr(p.body) {
            return;
          }
          Finish(p.msgNo, Some(PeerError(DecodeLossy(p.body))), ByTxerr);
        case Ack =>
          AcceptAck(p.msgNo, p.body);
        case Ping =>
          Send(PongPacket(p.msgNo), sendOk);
        case Pong =>
      }
    }

    /** `notify_all_pending`, after which the reader task returns. */
    method NotifyAllPending(error: ErrorText)
      modifies this
      ensures State() == StopReading(old(State()), error) && buf == old(buf)
    {
      delivered := delivered + map id | id in pending :: Response(DefaultHeader(), [], Some(error));
      exits := WithExits(exits, pending, ByLoss);
      pending := {};
      reading := false;
    }

    /** What `reader_task` does with the bytes of one read; the writer task takes packets while the first `lasts`
        packets of the read are routed. */
    method OnBytes(chunk: seq<Byte>, lasts: nat)
      requires reading
      modifies this
      ensures (State(), buf) == ReadBytes(codec, old(State()), old(buf), chunk, lasts)
    {
      hide Parse, Receive, StopReading;
      buf := buf + chunk;
      if |buf| > BUFFER_CAP {
        NotifyAllPending(ConnectionLost);
        return;
      }
      var consumed := 0;
      var left := lasts;
      ghost var all := Drain(codec, buf);
      while consumed < |buf|
        invariant consumed <= |buf| && buf == old(buf) + chunk
        invariant ReceiveAll(old(State()), all.packets, lasts)
               == ReceiveAll(State(), Drain(codec, buf[consumed..]).packets, left)
        invariant all.fatal == Drain(codec, buf[consumed..]).fatal && all.rest == Drain(codec, buf[consumed..]).rest
      {
        ghost var rest := buf[consumed..];
        match Parse(codec, buf[consumed..]) {
          case Success(p, used) =>
            assert rest[used..] == buf[consumed + used..];
            assert Drain(codec, rest).packets == [p] + Drain(codec, rest[used..]).packets;
            consumed := consumed + used;
            RoutePacket(p, left > 0);
            left := if left > 0 then left - 1 else 0;
          case Fatal(error) =>
            NotifyAllPending(ProtocolError(error));
            return;
          case Drop(used) =>
            assert false;
          case _ =>
            break;
        }
      }
      buf := buf[consumed..];
    }
  }

  function ReceiveAll(c: ClientState, ps: seq<Packets.Packet>, lasts: nat): ClientState
    decreases |ps|
  {
    if ps == [] then c
    else ReceiveAll(Receive(c, ps[0], lasts > 0), ps[1..], if lasts > 0 then lasts - 1 else 0)
  }

  /** The reader and its buffer after one read. */
  function ReadBytes(codec: HeaderCodec, c: ClientState, buf: seq<Byte>, chunk: seq<Byte>, lasts: nat)
    : (ClientState, seq<Byte>)
  {
    if |buf + chunk| > BUFFER_CAP then (StopReading(c, ConnectionLost), buf + chunk)
    else
      var d := Drain(codec, buf + chunk);
      var c' := ReceiveAll(c, d.packets, lasts);
      if d.fatal.Some? then (StopReading(c', ProtocolError(d.fatal.value)), buf + chunk) else (c', d.rest)
  }
}
