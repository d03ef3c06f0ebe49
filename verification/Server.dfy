/**
 The server end of a connection (server_connection.rs, server_reply.rs): requests are put together
 by message number, dispatched at their EOF, and answered in DATA chunks.
 */
module Server {
  import opened Wrappers
  import opened Text
  import opened Packets
  import opened Framing
  import opened Messages

  // ---------------------------------------------------------------- the service behind the connection

  datatype ScampRequest = ScampRequest(
    action: string, version: int, envelope: EnvelopeFormat, requestId: int, clientId: int,
    ticket: string, identifyingToken: string, body: seq<Byte>)

  datatype ScampReply = ScampReply(
    body: seq<Byte>, error: Option<string>, errorCode: Option<string>, errorData: Option<string>)

  function ErrorReply(message: string, code: string): ScampReply {
    ScampReply([], Some(message), Some(code), None)
  }

  /** A handler may answer each request differently: it is told how many were answered before. */
  datatype RegisteredAction = RegisteredAction(flags: seq<string>, handler: (nat, ScampRequest) -> ScampReply)

  /** `access` refuses an action for a ticket with an error text. */
  datatype Service = Service(
    actions: map<string, RegisteredAction>, access: Option<(nat, string, string) -> Option<string>>)

  /** `v.to_string()` for a signed integer. */
  function SignedDecimal(v: int): string {
    if v < 0 then "-" + Decimal(-v) else Decimal(v)
  }

  function ActionKey(h: PacketHeader): string {
    Lower(h.action) + ".v" + SignedDecimal(h.version)
  }

  function RequestOf(msg: Message): ScampRequest {
    var h := msg.header;
    ScampRequest(h.action, h.version, h.envelope, h.requestId, h.clientId, h.ticket, h.identifyingToken, msg.body)
  }

  /** The error a request is refused with before it reaches a handler. */
  function Refusal(service: Service, k: nat, h: PacketHeader): Option<string> {
    var key := ActionKey(h);
    var noauth := key in service.actions && "noauth" in service.actions[key].flags;
    if service.access.None? || noauth then None
    else if h.ticket == "" then Some("Authentication required")
    else service.access.value(k, h.action, h.ticket)
  }

  /** The reply to the request that is dispatched when `k` were dispatched before. */
  function Respond(service: Service, k: nat, request: Message): ScampReply {
    match Refusal(service, k, request.header)
    case Some(error) => ErrorReply(error, "unauthorized")
    case None =>
      var key := ActionKey(request.header);
      if key in service.actions then service.actions[key].handler(k, RequestOf(request))
      else ErrorReply("No such action: " + key, "not_found")
  }

  function ReplyHeader(reply: ScampReply, requestId: int): PacketHeader {
    PacketHeader("", Json, reply.error, reply.errorCode, reply.errorData, requestId, 0, "", "", Reply, 0)
  }

  function ReplyMessage(service: Service, k: nat, request: Message): Message {
    var reply := Respond(service, k, request);
    Message(ReplyHeader(reply, request.header.requestId), reply.body)
  }

  // ---------------------------------------------------------------- state

  /** A request handed to `Respond`, with the message number it came under. */
  datatype Dispatch = Dispatch(msgNo: nat, request: Message)

  /** `wire` is everything written to the peer; the writer accepts `budget` more packets and then
      fails for good. `dispatched` is the history of requests answered. */
  datatype ServerState = ServerState(
    incoming: map<nat, Incoming>, outgoing: map<nat, Progress>, nextIn: nat, nextOut: nat,
    wire: seq<Packet>, budget: nat, dispatched: seq<Dispatch>)

  function Fresh(budget: nat): ServerState {
    ServerState(map[], map[], 0, 0, [], budget, [])
  }

  function Min(a: nat, b: nat): nat {
    if a < b then a else b
  }

  /** Writing packets one after the other until the writer fails. */
  function Written(s: ServerState, ps: seq<Packet>): ServerState {
    var n := Min(|ps|, s.budget);
    s.(wire := s.wire + ps[..n], budget := s.budget - n)
  }

  /** A reply takes the next message number and leaves nothing behind in `outgoing`. */
  function Replied(s: ServerState, reply: ScampReply, requestId: int): ServerState {
    var k := s.nextOut;
    Written(s, Full(k, Message(ReplyHeader(reply, requestId), reply.body)))
      .(nextOut := k + 1, outgoing := s.outgoing - {k})
  }

  function Dispatched(service: Service, s: ServerState, d: Dispatch): ServerState {
    Replied(s, Respond(service, s.nextOut, d.request), d.request.header.requestId)
      .(dispatched := s.dispatched + [d])
  }

  /** An ACK is taken only if it moves forward and not past what was sent. */
  function Acknowledge(outgoing: map<nat, Progress>, m: nat, body: seq<Byte>): map<nat, Progress> {
    match AckValue(body)
    case None => outgoing
    case Some(v) =>
      if m in outgoing && outgoing[m].acknowledged < v <= outgoing[m].sent
      then outgoing[m := Progress(outgoing[m].sent, v)] else outgoing
  }

  /** One packet; the flag tells whether the connection stays open. */
  function Route(service: Service, s: ServerState, p: Packet): (ServerState, bool) {
    match p.packetType
    case Header =>
      if p.msgNo != s.nextIn then (s, false)
      else
        var s' := s.(nextIn := s.nextIn + 1);
        (if p.header.Some? then s'.(incoming := s.incoming[p.msgNo := Incoming(p.header.value, [], 0)]) else s', true)
    case Data =>
      if p.msgNo !in s.incoming then (s, true)
      else
        var had := s.incoming[p.msgNo];
        var msg := Incoming(had.header, had.body + p.body, had.received + |p.body|);
        var s' := s.(incoming := s.incoming[p.msgNo := msg]);
        (Written(s', [AckPacket(p.msgNo, msg.received)]), s.budget > 0)
    case Eof =>
      if p.body != [] || p.msgNo !in s.incoming then (s, true)
      else
        var msg := s.incoming[p.msgNo];
        (Dispatched(service, s.(incoming := s.incoming - {p.msgNo}),
                    Dispatch(p.msgNo, Message(msg.header, msg.body))), true)
    case Txerr =>
      (if InvalidTxerr(p.body) then s else s.(incoming := s.incoming - {p.msgNo}), true)
    case Ack => (s.(outgoing := Acknowledge(s.outgoing, p.msgNo, p.body)), true)
    case Ping => (Written(s, [PongPacket(p.msgNo)]), s.budget > 0)
    case Pong => (s, true)
  }

  /** Packets one after the other until one closes the connection. */
  function RouteAll(service: Service, s: ServerState, ps: seq<Packet>): (ServerState, bool)
    decreases |ps|
  {
    if ps == [] then (s, true)
    else
      var (s', ok) := Route(service, s, ps[0]);
      if ok then RouteAll(service, s', ps[1..]) else (s', false)
  }

  /** What a read can bring: bytes, 120 seconds without any, or the end of the stream (or an error). */
  datatype ReadEvent = Bytes(chunk: seq<Byte>) | Silence | Closed

  datatype Connection = Connection(state: ServerState, buf: seq<Byte>, open: bool)

  /** A request is half received or a reply half written. */
  predicate Busy(s: ServerState) {
    s.incoming != map[] || s.outgoing != map[]
  }

  function Serve(codec: HeaderCodec, service: Service, c: Connection, event: ReadEvent): Connection {
    if !c.open then c
    else
      match event
      case Closed => c.(open := false)
      case Silence => c.(open := Busy(c.state))
      case Bytes(chunk) =>
        var buf := c.buf + chunk;
        if |buf| > BUFFER_CAP then Connection(c.state, buf, false)
        else
          var d := Drain(codec, buf);
          var (s, ok) := RouteAll(service, c.state, d.packets);
          if ok && d.fatal.None? then Connection(s, d.rest, true) else Connection(s, buf, false)
  }

  function ServeAll(codec: HeaderCodec, service: Service, c: Connection, events: seq<ReadEvent>): Connection
    decreases |events|
  {
    if events == [] then c else ServeAll(codec, service, Serve(codec, service, c, events[0]), events[1..])
  }

  // ---------------------------------------------------------------- the connection as it runs

  class ServerConnection {
    const codec: HeaderCodec
    const service: Service
    var incoming: map<nat, Incoming>
    var outgoing: map<nat, Progress>
    var nextIncoming: nat
    var nextOutgoing: nat
    var buf: seq<Byte>
    // the writer half
    var wire: seq<Packet>
    var budget: nat
    ghost var dispatched: seq<Dispatch>

    constructor (codec: HeaderCodec, service: Service, budget: nat)
      ensures State() == Fresh(budget) && buf == [] && this.codec == codec && this.service == service
    {
      this.codec, this.service := codec, service;
      incoming, outgoing, nextIncoming, nextOutgoing := map[], map[], 0, 0;
      buf, wire, this.budget, dispatched := [], [], budget, [];
    }

    ghost function State(): ServerState
      reads this
    {
      ServerState(incoming, outgoing, nextIncoming, nextOutgoing, wire, budget, dispatched)
    }

    method Write(p: Packet) returns (ok: bool)
      modifies `wire, `budget
      ensures State() == Written(old(State()), [p])
      ensures ok <==> old(budget) > 0
      ensures wire == if ok then old(wire) + [p] else old(wire)
      ensures budget == if ok then old(budget) - 1 else 0
    {
      ok := budget > 0;
      if ok {
        wire := wire + [p];
        budget := budget - 1;
      }
    }

    /** `send_reply` */
    method SendReply(reply: ScampReply, requestId: int)
      modifies `nextOutgoing, `outgoing, `wire, `budget
      ensures State() == Replied(old(State()), reply, requestId)
    {
      hide Full, SentUpTo, Aligned, Chunks, Written, ReplyHeader;
      var k := nextOutgoing;
      nextOutgoing := nextOutgoing + 1;
      ghost var msg := Message(ReplyHeader(reply, requestId), reply.body);
      outgoing := outgoing[k := Progress(0, 0)];
      WrittenStart(old(State()), k, msg);
      var ok := Write(HeaderPacket(k, ReplyHeader(reply, requestId)));
      if !ok {
        outgoing := outgoing - {k};
        assert outgoing == old(outgoing) - {k};
        return;
      }
      var offset := 0;
      while offset < |reply.body|
        invariant Aligned(|reply.body|, offset) && offset <= |reply.body|
        invariant nextOutgoing == k + 1 && old(budget) == budget + 1 + Chunks(offset)
        invariant outgoing == old(outgoing)[k := Progress(offset, 0)]
        invariant wire == old(wire) + SentUpTo(k, msg, offset)
      {
        var end := ChunkEnd(|reply.body|, offset);
        WrittenNext(old(State()), k, msg, offset);
        ok := Write(DataPacket(k, reply.body[offset..end]));
        if !ok {
          outgoing := outgoing - {k};
          assert outgoing == old(outgoing) - {k};
          return;
        }
        if k in outgoing {
          outgoing := outgoing[k := Progress(outgoing[k].sent + (end - offset), outgoing[k].acknowledged)];
        }
        offset := end;
      }
      WrittenEnd(old(State()), k, msg);
      ok := Write(EofPacket(k));
      outgoing := outgoing - {k};
      assert outgoing == old(outgoing) - {k};
    }

    /** `dispatch_and_reply` */
    method DispatchAndReply(msgNo: nat, header: PacketHeader, body: seq<Byte>)
      modifies this
      ensures State() == Dispatched(service, old(State()), Dispatch(msgNo, Message(header, body))) && buf == old(buf)
    {
      ghost var request := Message(header, body);
      var key := ActionKey(header);
      var k := nextOutgoing;
      dispatched := dispatched + [Dispatch(msgNo, request)];
      var noauth := false;
      if key in service.actions {
        noauth := "noauth" in service.actions[key].flags;
      }
      if service.access.Some? && !noauth {
        if header.ticket == "" {
          SendReply(ErrorReply("Authentication required", "unauthorized"), header.requestId);
          return;
        }
        var denied := service.access.value(k, header.action, header.ticket);
        if denied.Some? {
          SendReply(ErrorReply(denied.value, "unauthorized"), header.requestId);
          return;
        }
      }
      var request' := ScampRequest(header.action, header.version, header.envelope, header.requestId,
                                   header.clientId, header.ticket, header.identifyingToken, body);
      var reply;
      if key in service.actions {
        reply := service.actions[key].handler(k, request');
      } else {
        reply := ErrorReply("No such action: " + key, "not_found");
      }
      SendReply(reply, header.requestId);
    }

    /** `route_packet` */
    method RoutePacket(p: Packet) returns (ok: bool)
      modifies this
      ensures (State(), ok) == Route(service, old(State()), p) && buf == old(buf)
    {
      ok := true;
      match p.packetType {
        case Header =>
          if p.msgNo != nextIncoming {
            return false;
          }
          nextIncoming := nextIncoming + 1;
          if p.header.Some? {
            incoming := incoming[p.msgNo := Incoming(p.header.value, [], 0)];
          }
        case Data =>
          if p.msgNo in incoming {
            var msg := incoming[p.msgNo];
            msg := msg.(body := msg.body + p.body, received := msg.received + |p.body|);
            incoming := incoming[p.msgNo := msg];
            ok := Write(AckPacket(p.msgNo, msg.received));
          }
        case Eof =>
          if p.body != [] {
            return;
          }
          if p.msgNo in incoming {
            var msg := incoming[p.msgNo];
            incoming := incoming - {p.msgNo};
            DispatchAndReply(p.msgNo, msg.header, msg.body);
          }
        case Txerr =>
          if InvalidTxerr(p.body) {
            return;
          }
          incoming := incoming - {p.msgNo};
        case Ack =>
          var value := AckValue(p.body);
          if value.None? {
            return;
          }
          if p.msgNo in outgoing {
            var progress := outgoing[p.msgNo];
            if value.value <= progress.acknowledged {
              return;
            }
            if value.value > progress.sent {
              return;
            }
            outgoing := outgoing[p.msgNo := progress.(acknowledged := value.value)];
          }
        case Ping =>
          ok := Write(PongPacket(p.msgNo));
        case Pong =>
      }
    }

    /** What `handle_connection` does with the bytes of one read. */
    method OnBytes(chunk: seq<Byte>) returns (open: bool)
      modifies this
      ensures Connection(State(), buf, open)
           == Serve(codec, service, Connection(old(State()), old(buf), true), Bytes(chunk))
    {
      hide Parse, Route;
      buf := buf + chunk;
      if |buf| > BUFFER_CAP {
        return false;
      }
      var consumed := 0;
      ghost var all := Drain(codec, buf);
      while consumed < |buf|
        invariant consumed <= |buf| && buf == old(buf) + chunk
        invariant RouteAll(service, old(State()), all.packets) ==
                  RouteAll(service, State(), Drain(codec, buf[consumed..]).packets)
        invariant all.fatal == Drain(codec, buf[consumed..]).fatal && all.rest == Drain(codec, buf[consumed..]).rest
      {
        ghost var rest := buf[consumed..];
        match Parse(codec, buf[consumed..]) {
          case Success(p, used) =>
            assert rest[used..] == buf[consumed + used..];
            assert Drain(codec, rest).packets == [p] + Drain(codec, rest[used..]).packets;
            consumed := consumed + used;
            var ok := RoutePacket(p);
            if !ok {
              return false;
            }
          case Fatal(_) =>
            return false;
          case Drop(used) =>
            assert false;
          case _ =>
            break;
        }
      }
      buf := buf[consumed..];
      open := true;
    }

    /** `handle_connection`, given what its reads bring. */
    method HandleConnection(events: seq<ReadEvent>) returns (open: bool)
      modifies this
      ensures Connection(State(), buf, open)
           == ServeAll(codec, service, Connection(old(State()), old(buf), true), events)
    {
      var i := 0;
      ghost var start := Connection(State(), buf, true);
      while i < |events|
        invariant i <= |events|
        invariant ServeAll(codec, service, start, events)
               == ServeAll(codec, service, Connection(State(), buf, true), events[i..])
      {
        assert events[i..][1..] == events[i + 1..];
        var busy := incoming != map[] || outgoing != map[];
        match events[i] {
          case Closed =>
            StaysClosed(codec, service, Connection(State(), buf, false), events[i + 1..]);
            return false;
          case Silence =>
            if !busy {
              StaysClosed(codec, service, Connection(State(), buf, false), events[i + 1..]);
              return false;
            }
          case Bytes(chunk) =>
            open := OnBytes(chunk);
            if !open {
              StaysClosed(codec, service, Connection(State(), buf, false), events[i + 1..]);
              return;
            }
        }
        i := i + 1;
      }
      open := true;
    }
  }

  /** The loop of `send_reply` begins: no packet, or the HEADER, has been written. */
  lemma WrittenStart(s: ServerState, m: nat, msg: Message)
    ensures Aligned(|msg.body|, 0) && Chunks(0) == 0
    ensures SentUpTo(m, msg, 0) == [HeaderPacket(m, msg.header)]
    ensures s.budget == 0 ==> Written(s, Full(m, msg)) == s
  {
    assert s.wire + Full(m, msg)[..0] == s.wire;
  }

  /** It goes on: the writer takes the next chunk or the reply ends here. */
  lemma WrittenNext(s: ServerState, m: nat, msg: Message, offset: nat)
    requires Aligned(|msg.body|, offset) && offset < |msg.body|
    ensures
      var end := ChunkEnd(|msg.body|, offset);
      && Aligned(|msg.body|, end) && Chunks(end) == Chunks(offset) + 1
      && SentUpTo(m, msg, end) == SentUpTo(m, msg, offset) + [DataPacket(m, msg.body[offset..end])]
    ensures s.budget == 1 + Chunks(offset)
            ==> Written(s, Full(m, msg)) == s.(wire := s.wire + SentUpTo(m, msg, offset), budget := 0)
  {
    NextChunk(m, msg, offset);
    assert offset == Chunks(offset) * DATA_CHUNK_SIZE;
  }

  /** It ends: with or without the EOF. */
  lemma WrittenEnd(s: ServerState, m: nat, msg: Message)
    ensures Aligned(|msg.body|, |msg.body|)
    ensures
      var n, body := 1 + Chunks(|msg.body|), SentUpTo(m, msg, |msg.body|);
      && (s.budget == n ==> Written(s, Full(m, msg)) == s.(wire := s.wire + body, budget := 0))
      && (s.budget > n ==> Written(s, Full(m, msg)) ==
                           s.(wire := s.wire + body + [EofPacket(m)], budget := s.budget - n - 1))
  {
    assert Full(m, msg) == SentUpTo(m, msg, |msg.body|) + [EofPacket(m)];
    assert s.budget > 1 + Chunks(|msg.body|) ==>
        s.wire + Full(m, msg) == s.wire + SentUpTo(m, msg, |msg.body|) + [EofPacket(m)];
  }

  lemma {:induction false} StaysClosed(codec: HeaderCodec, service: Service, c: Connection, events: seq<ReadEvent>)
    requires !c.open
    ensures ServeAll(codec, service, c, events) == c
  {
    if events != [] {
      StaysClosed(codec, service, c, events[1..]);
    }
  }
}
