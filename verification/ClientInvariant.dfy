/**
 What holds of a client connection in every state of every run, whatever its peer sends and however
 the calls, the reader and the loss of the connection interleave.
 */
module ClientInvariant {
  import opened Wrappers
  import opened Text
  import opened Packets
  import opened Messages
  import opened Client
  import Server

  /** The most bytes of one message that can be enqueued and not acknowledged. */
  const WINDOW_LIMIT: nat := FLOW_CONTROL_WATERMARK - 1 + DATA_CHUNK_SIZE

  function MessageOf(x: Call): Message {
    Message(x.header, x.body)
  }

  /** What of the call's message has been enqueued. A call that gave up has sent some first part of it. */
  ghost predicate SentFits(x: Call, ps: seq<Packets.Packet>) {
    match x.phase
    case Sending => Aligned(|x.body|, x.offset) && ps == SentUpTo(x.msgNo, MessageOf(x), x.offset)
    case Cleared => Aligned(|x.body|, x.offset) && x.offset < |x.body| &&
      ps == SentUpTo(x.msgNo, MessageOf(x), x.offset)
    case Counting =>
      && Aligned(|x.body|, x.offset) && x.offset < |x.body|
      && Aligned(|x.body|, ChunkEnd(|x.body|, x.offset))
      && ps == SentUpTo(x.msgNo, MessageOf(x), ChunkEnd(|x.body|, x.offset))
    case Awaiting => x.offset == |x.body| && ps == Full(x.msgNo, MessageOf(x))
    case _ => true
  }

  predicate InLoop(phase: Phase) {
    phase.Sending? || phase.Cleared? || phase.Counting?
  }

  /** The call's flow-control counters, against the bytes it has enqueued. */
  ghost predicate Tracked(x: Call, enqueued: nat, outgoing: map<nat, Progress>) {
    if x.phase.Done? then x.msgNo !in outgoing
    else
      && x.msgNo in outgoing
      && var p := outgoing[x.msgNo];
         && p.acknowledged <= p.sent <= enqueued <= p.acknowledged + WINDOW_LIMIT
         && (InLoop(x.phase) || x.phase.Awaiting? ==> p.sent == x.offset)
         && (x.phase.Sending? || x.phase.Cleared? ==> enqueued == x.offset)
         && (x.phase.Cleared? ==> p.sent < p.acknowledged + FLOW_CONTROL_WATERMARK)
  }

  /** Where the call's id stands: not registered yet, pending, or gone in exactly one way. */
  ghost predicate Accounted(x: Call, id: int, pending: set<int>, delivered: map<int, Response>, exits: seq<Exit>) {
    && (x.phase.Created? || id in pending ==> exits == [] && id !in delivered)
    && (x.phase.Created? ==> id !in pending)
    && (!x.phase.Created? && id !in pending ==> |exits| == 1 && (exits[0].ByCaller? <==> id !in delivered))
    && (id in delivered && |exits| == 1 ==> (exits[0].ByReply? <==> delivered[id].error.None?))
    && ((InLoop(x.phase) || x.phase.Awaiting?) && id !in pending ==> id in delivered)
    && (x.phase.Failing? ==> x.phase.failure != ReplyLost)
    && (x.phase.Closing? || x.phase.Done? ==>
          match x.phase.outcome
          case Replied(r) => id in delivered && delivered[id] == r
          case Failed(f) => id !in pending && f != ReplyLost)
  }

  ghost predicate CallFits(c: ClientState, id: int)
    requires id in c.calls
  {
    var x := c.calls[id];
    && 1 <= id < c.nextRequestId && x.header.requestId == id
    && Accounted(x, id, c.pending, c.delivered, ExitsOf(c.exits, id))
    && (x.phase.Created? ==> x.offset == 0)
    && (!x.phase.Created? ==>
          && x.msgNo < |c.requests| && c.requests[x.msgNo] == MessageOf(x)
          && SentFits(x, Of(c.queue, x.msgNo))
          && Tracked(x, |Payload(Of(c.queue, x.msgNo))|, c.outgoing))
  }

  ghost predicate AllFit(c: ClientState) {
    forall id :: id in c.calls ==> CallFits(c, id)
  }

  /** Message number `m` belongs to a call. */
  ghost predicate Owned(c: ClientState, m: nat)
    requires m < |c.requests|
  {
    var id := c.requests[m].header.requestId;
    id in c.calls && !c.calls[id].phase.Created? && c.calls[id].msgNo == m
  }

  ghost predicate Inv(c: ClientState) {
    && 1 <= c.nextRequestId && |c.requests| == c.nextMsgNo
    && Conforms(c.queue, c.requests)
    && AllFit(c)
    && (forall id :: id !in c.calls ==> id !in c.pending && id !in c.delivered && ExitsOf(c.exits, id) == [])
    && (forall m :: 0 <= m < |c.requests| ==> Owned(c, m))
    && (forall m :: m in c.outgoing ==> m < |c.requests|)
    && (c.closed ==> !c.reading)
  }

  // ---------------------------------------------------------------- tools

  lemma PayloadLengths(m: nat, msg: Message, offset: nat)
    requires Aligned(|msg.body|, offset)
    ensures |Payload(SentUpTo(m, msg, offset))| == offset
    ensures |Payload(Full(m, msg))| == |msg.body|
  {
    hide Full;
    PayloadSentUpTo(m, msg, Chunks(offset));
    PayloadSentUpTo(m, msg, Chunks(|msg.body|));
    Server.WrittenEnd(Server.Fresh(0), m, msg);
    PayloadSnoc(SentUpTo(m, msg, |msg.body|), EofPacket(m));
    SplitFull(m, msg);
  }

  lemma SplitFull(m: nat, msg: Message)
    ensures Full(m, msg) == SentUpTo(m, msg, |msg.body|) + [EofPacket(m)]
    ensures SentUpTo(m, msg, 0) == [HeaderPacket(m, msg.header)]
  {
  }

  /** A step of call `id` whose message has number `m` leaves everything of the other calls alone. */
  ghost predicate Touches(c: ClientState, c': ClientState, id: int, m: nat) {
    && c'.calls.Keys == c.calls.Keys + {id}
    && (forall j :: j in c.calls && j != id ==> c'.calls[j] == c.calls[j])
    && (if id in c.calls && !c.calls[id].phase.Created?
        then m == c.calls[id].msgNo == c'.calls[id].msgNo && !c'.calls[id].phase.Created?
        else m >= |c.requests|)
    && c.requests <= c'.requests && c.nextRequestId <= c'.nextRequestId
    && (forall k: nat :: k != m ==> Of(c'.queue, k) == Of(c.queue, k))
    && (forall k: nat :: k != m ==> (k in c'.outgoing <==> k in c.outgoing))
    && (forall k: nat :: k != m && k in c.outgoing ==> c'.outgoing[k] == c.outgoing[k])
    && (forall j :: j != id ==> (j in c'.pending <==> j in c.pending))
    && c'.delivered == c.delivered
    && (forall j :: j != id ==> ExitsOf(c'.exits, j) == ExitsOf(c.exits, j))
    && c'.closed == c.closed && c'.reading == c.reading
  }

  lemma OthersFit(c: ClientState, c': ClientState, id: int, m: nat)
    requires Inv(c) && Touches(c, c', id, m)
    ensures forall j :: j in c.calls && j != id ==> CallFits(c', j)
  {
    hide SentFits, Conforms;
    forall j | j in c.calls && j != id ensures CallFits(c', j) {
      assert CallFits(c, j);
      if id in c.calls {
        assert CallFits(c, id);
      }
      var x := c.calls[j];
      if !x.phase.Created? {
        assert x.msgNo != m;
        assert SentFits(x, Of(c'.queue, x.msgNo));
        assert Tracked(x, |Payload(Of(c'.queue, x.msgNo))|, c'.outgoing);
      }
    }
  }

  /** What remains to be shown of a step of call `id`: that this call still fits. */
  lemma StepKeeps(c: ClientState, c': ClientState, id: int, m: nat)
    requires Inv(c) && Touches(c, c', id, m)
    requires |c'.requests| == c'.nextMsgNo && Conforms(c'.queue, c'.requests) && CallFits(c', id)
    requires c'.requests == c.requests || (c'.requests[..|c'.requests| - 1] == c.requests && m == |c.requests|
                                           && Owned(c', m))
    requires m in c'.outgoing ==> m < |c'.requests|
    ensures Inv(c')
  {
    hide CallFits, Conforms;
    OthersFit(c, c', id, m);
    forall k | 0 <= k < |c'.requests| ensures Owned(c', k) {
      if k < |c.requests| {
        assert Owned(c, k);
      }
    }
  }

  lemma Fits(c: ClientState, id: int)
    requires Inv(c) && id in c.calls
    ensures CallFits(c, id)
  {
    hide CallFits, Conforms;
  }

  /** A call that sends, waits or gives up says nothing new about its id. */
  lemma StaysAccounted(x: Call, y: Call, id: int, pending: set<int>, delivered: map<int, Response>, exits: seq<Exit>)
    requires Accounted(x, id, pending, delivered, exits)
    requires InLoop(x.phase) || x.phase.Awaiting?
    requires InLoop(y.phase) || y.phase.Awaiting? || (y.phase.Failing? && y.phase.failure != ReplyLost)
    ensures Accounted(y, id, pending, delivered, exits)
  {
  }

  /** The receiving half of the connection plays no part in the invariant. */
  lemma ReceivingIrrelevant(c: ClientState, c': ClientState)
    requires Inv(c) && c' == c.(incoming := c'.incoming, nextIn := c'.nextIn)
    ensures Inv(c')
  {
    hide SentFits, Tracked, Accounted, Conforms;
    forall id | id in c'.calls ensures CallFits(c', id) {
      assert CallFits(c, id);
    }
    forall m | 0 <= m < |c'.requests| ensures Owned(c', m) {
      assert Owned(c, m);
    }
  }

  /** The queue after the next packet of a call's message. */
  lemma QueueGrows(c: ClientState, msgs: seq<Message>, p: Packets.Packet)
    requires Conforms(c.queue, msgs)
    requires InMessage(p, p.msgNo) ==> Of(c.queue, p.msgNo) + [p] <= Expected(msgs, p.msgNo)
    ensures Conforms(c.queue + [p], msgs)
    ensures forall k: nat :: Of(c.queue + [p], k) == Of(c.queue, k) + (if InMessage(p, k) then [p] else [])
  {
    hide Full;
    forall k: nat
      ensures Of(c.queue + [p], k) == Of(c.queue, k) + (if InMessage(p, k) then [p] else [])
      ensures Of(c.queue + [p], k) <= Expected(msgs, k)
    {
      OfSnoc(c.queue, p, k);
      assert Of(c.queue, k) <= Expected(msgs, k);
    }
  }

  // ---------------------------------------------------------------- what the reader can change

  /** Besides its own state the reader changes the pending map and what was delivered, and may enqueue one packet
      that belongs to no message. */
  ghost predicate WithinReader(c: ClientState, c': ClientState) {
    && c'.nextRequestId == c.nextRequestId && c'.nextMsgNo == c.nextMsgNo && c'.calls == c.calls
    && c'.outgoing == c.outgoing && c'.closed == c.closed && c'.reading == c.reading && c'.requests == c.requests
    && (c'.queue == c.queue
        || (|c'.queue| == |c.queue| + 1 && c'.queue[..|c.queue|] == c.queue
            && !c'.queue[|c.queue|].packetType.Data? && !InMessage(c'.queue[|c.queue|], c'.queue[|c.queue|].msgNo)))
  }

  predicate SameOutcome(c: ClientState, c': ClientState) {
    c'.pending == c.pending && c'.delivered == c.delivered && c'.exits == c.exits
  }

  lemma HeaderScope(c: ClientState, p: Packets.Packet)
    ensures SameOutcome(c, OnHeader(c, p)) && WithinReader(c, OnHeader(c, p))
  {
    if p.msgNo != c.nextIn {
    } else if p.header.None? {
    } else {
    }
  }

  lemma EnqueueScope(c: ClientState, p: Packets.Packet, sendOk: bool)
    requires !InMessage(p, p.msgNo)
    ensures WithinReader(c, Enqueue(c, p, sendOk))
  {
  }

  lemma DataScope(c: ClientState, p: Packets.Packet, sendOk: bool)
    ensures SameOutcome(c, OnData(c, p, sendOk)) && WithinReader(c, OnData(c, p, sendOk))
  {
    if p.msgNo in c.incoming {
      EnqueueScope(c, AckPacket(p.msgNo, c.incoming[p.msgNo].received + |p.body|), sendOk);
    }
  }

  lemma DeliverScope(c: ClientState, id: int, response: Response, e: Exit)
    ensures WithinReader(c, Deliver(c, id, response, e))
  {
    hide WithExits;
    if id in c.pending {
    } else {
    }
  }

  lemma EndScope(c: ClientState, m: nat, error: Option<ErrorText>, e: Exit)
    ensures WithinReader(c, OnEnd(c, m, error, e))
  {
    hide Deliver;
    if m in c.incoming {
      var msg := c.incoming[m];
      DeliverScope(c, msg.header.requestId, Response(msg.header, msg.body, error), e);
    } else {
      NothingScope(c);
    }
  }

  lemma ReceiveScope(c: ClientState, p: Packets.Packet, sendOk: bool)
    ensures
      if p.packetType.Ack?
      then Receive(c, p, sendOk) == c.(outgoing := Server.Acknowledge(c.outgoing, p.msgNo, p.body))
      else WithinReader(c, Receive(c, p, sendOk))
  {
    hide WithinReader, OnHeader, OnData, OnEnd, InvalidTxerr, Server.Acknowledge;
    NothingScope(c);
    match p.packetType {
      case Header => HeaderScope(c, p);
      case Data => DataScope(c, p, sendOk);
      case Eof => EndScope(c, p.msgNo, None, ByReply);
      case Txerr => EndScope(c, p.msgNo, Some(PeerError(DecodeLossy(p.body))), ByTxerr);
      case Ack =>
      case Ping => EnqueueScope(c, PongPacket(p.msgNo), sendOk);
      case Pong =>
    }
  }

  lemma NothingScope(c: ClientState)
    ensures WithinReader(c, c)
  {
  }

  lemma AcknowledgeMoves(outgoing: map<nat, Progress>, m: nat, body: seq<Byte>)
    ensures
      var outgoing' := Server.Acknowledge(outgoing, m, body);
      && outgoing'.Keys == outgoing.Keys
      && forall j :: j in outgoing' && outgoing'[j] != outgoing[j] ==>
           j == m && AckValue(body) == Some(outgoing'[m].acknowledged)
           && outgoing'[m].acknowledged > outgoing[m].acknowledged
  {
    hide AckValue;
  }

  // ---------------------------------------------------------------- every step keeps the invariant

  lemma StartKeeps(c: ClientState, args: Arguments)
    requires Inv(c)
    ensures Inv(StartCall(c, args))
  {
    hide Conforms, SentFits;
    var c' := StartCall(c, args);
    if !c.closed {
      var id := c.nextRequestId;
      assert AllFit(c);
      assert id !in c.calls;
      StepKeeps(c, c', id, |c.requests|);
    }
  }

  lemma BeginTouches(c: ClientState, id: int, sendOk: bool)
    requires In(c, id, Created) && c.nextMsgNo == |c.requests|
    ensures Touches(c, BeginMessage(c, id, sendOk), id, c.nextMsgNo)
  {
    hide Of, ExitsOf;
    var p := HeaderPacket(c.nextMsgNo, c.calls[id].header);
    forall k: nat | k != c.nextMsgNo ensures Of(c.queue + [p], k) == Of(c.queue, k) {
      OfSnoc(c.queue, p, k);
    }
  }

  /** A HEADER alone is a message of which nothing more is sent. */
  lemma HeaderSent(x: Call)
    requires x.phase.Sending? && x.offset == 0
    ensures
      var ps := [HeaderPacket(x.msgNo, x.header)];
      SentFits(x, ps) && ps <= Full(x.msgNo, MessageOf(x)) && |Payload(ps)| == 0
  {
    hide Full, SentUpTo, Payload;
    SplitFull(x.msgNo, MessageOf(x));
    PayloadLengths(x.msgNo, MessageOf(x), 0);
    SentIsPrefix(x.msgNo, MessageOf(x), 0);
  }

  /** A message that has begun has sent its HEADER, or nothing. */
  lemma BegunFits(c: ClientState, id: int, sendOk: bool)
    requires Inv(c) && In(c, id, Created)
    ensures CallFits(BeginMessage(c, id, sendOk), id)
    ensures Conforms(BeginMessage(c, id, sendOk).queue, BeginMessage(c, id, sendOk).requests)
  {
    hide Full, Conforms, AllFit, Payload, Of, Expected, SentUpTo, Aligned;
    var c' := BeginMessage(c, id, sendOk);
    var m := c.nextMsgNo;
    var msg := MessageOf(c.calls[id]);
    Fits(c, id);
    NoneYet(c, msg);
    NoPayload();
    if sendOk {
      var p := HeaderPacket(m, c.calls[id].header);
      HeaderSent(c'.calls[id]);
      assert Expected(c'.requests, m) == Full(m, msg) by { LastExpected(c.requests, msg); }
      assert [] + [p] == [p];
      QueueGrows(c, c'.requests, p);
    }
  }

  lemma LastExpected(msgs: seq<Message>, msg: Message)
    ensures Expected(msgs + [msg], |msgs|) == Full(|msgs|, msg)
  {
  }

  lemma NoPayload()
    ensures Payload([]) == []
  {
  }

  lemma BeginKeeps(c: ClientState, id: int, sendOk: bool)
    requires Inv(c)
    ensures Inv(BeginMessage(c, id, sendOk))
  {
    hide Conforms, AllFit, Touches, CallFits;
    if In(c, id, Created) {
      BegunFits(c, id, sendOk);
      BeginTouches(c, id, sendOk);
      FitsId(c, id);
      StepKeeps(c, BeginMessage(c, id, sendOk), id, c.nextMsgNo);
    }
  }

  lemma FitsId(c: ClientState, id: int)
    requires Inv(c) && id in c.calls
    ensures c.calls[id].header.requestId == id
  {
    hide Conforms, Accounted, SentFits, Tracked, AllFit;
    Fits(c, id);
  }

  /** The next message number has not been used. */
  lemma NoneYet(c: ClientState, msg: Message)
    requires Inv(c)
    ensures Of(c.queue, c.nextMsgNo) == []
    ensures Conforms(c.queue, c.requests + [msg])
  {
    hide Full, AllFit;
    forall m: nat ensures Of(c.queue, m) <= Expected(c.requests + [msg], m) {
      assert Of(c.queue, m) <= Expected(c.requests, m);
    }
    assert Of(c.queue, c.nextMsgNo) <= Expected(c.requests, c.nextMsgNo);
  }

  lemma CheckKeeps(c: ClientState, id: int)
    requires Inv(c)
    ensures Inv(CheckWindow(c, id))
  {
    hide Conforms, Full, SentUpTo, Accounted, Owned, AllFit;
    var c' := CheckWindow(c, id);
    if c' != c {
      Fits(c, id);
      StaysAccounted(c.calls[id], c'.calls[id], id, c.pending, c.delivered, ExitsOf(c.exits, id));
      StepKeeps(c, c', id, c.calls[id].msgNo);
    }
  }

  /** A call enqueues the next packet of its message. */
  lemma NextPacketKeeps(c: ClientState, c': ClientState, id: int, p: Packets.Packet)
    requires Inv(c) && id in c.calls && InLoop(c.calls[id].phase)
    requires InMessage(p, c.calls[id].msgNo) && c'.calls.Keys == c.calls.Keys
    requires c' == Move(Enqueue(c, p, true), id, c'.calls[id].phase) && !c'.calls[id].phase.Created?
    requires Of(c.queue, p.msgNo) + [p] <= Full(p.msgNo, MessageOf(c.calls[id]))
    requires SentFits(c'.calls[id], Of(c.queue, p.msgNo) + [p])
    requires Tracked(c'.calls[id], |Payload(Of(c.queue, p.msgNo) + [p])|, c.outgoing)
    requires Accounted(c'.calls[id], id, c.pending, c.delivered, ExitsOf(c.exits, id))
    ensures Inv(c')
  {
    hide Conforms, Full, SentFits, Tracked, Accounted, Owned, AllFit;
    Fits(c, id);
    QueueGrows(c, c.requests, p);
    StepKeeps(c, c', id, p.msgNo);
  }

  /** A call that may send has room for its next chunk. */
  lemma ChunkTracked(x: Call, ps: seq<Packets.Packet>, qs: seq<Packets.Packet>, outgoing: map<nat, Progress>)
    requires x.phase.Cleared? && SentFits(x, ps) && Tracked(x, |Payload(ps)|, outgoing)
    requires |Payload(qs)| == ChunkEnd(|x.body|, x.offset)
    ensures Tracked(x.(phase := Counting), |Payload(qs)|, outgoing)
  {
    hide Aligned, SentUpTo, Payload;
  }

  /** The next chunk of a call that may send is the next packet of its message. */
  lemma ChunkIsNext(x: Call, ps: seq<Packets.Packet>)
    requires x.phase.Cleared? && SentFits(x, ps)
    ensures x.offset < |x.body|
    ensures
      var end := ChunkEnd(|x.body|, x.offset);
      var qs := ps + [DataPacket(x.msgNo, x.body[x.offset..end])];
      && qs <= Full(x.msgNo, MessageOf(x)) && |Payload(qs)| == end
      && SentFits(x.(phase := Counting), qs)
  {
    hide Full, SentUpTo, Aligned, Payload;
    var msg, end := MessageOf(x), ChunkEnd(|x.body|, x.offset);
    NextChunk(x.msgNo, msg, x.offset);
    SentIsPrefix(x.msgNo, msg, end);
    PayloadLengths(x.msgNo, msg, end);
  }

  lemma ChunkSent(c: ClientState, id: int)
    requires Inv(c) && In(c, id, Cleared)
    ensures Inv(EnqueueChunk(c, id, true))
  {
    hide Conforms, Full, SentFits, Tracked, Payload, Accounted, Owned, AllFit, ChunkEnd, Of, Aligned;
    Fits(c, id);
    var x := c.calls[id];
    var ps := Of(c.queue, x.msgNo);
    ChunkIsNext(x, ps);
    var p := DataPacket(x.msgNo, x.body[x.offset..ChunkEnd(|x.body|, x.offset)]);
    ChunkTracked(x, ps, ps + [p], c.outgoing);
    StaysAccounted(x, x.(phase := Counting), id, c.pending, c.delivered, ExitsOf(c.exits, id));
    NextPacketKeeps(c, EnqueueChunk(c, id, true), id, p);
  }

  lemma ChunkLost(c: ClientState, id: int)
    requires Inv(c) && In(c, id, Cleared)
    ensures Inv(EnqueueChunk(c, id, false))
  {
    hide Conforms, Full, SentFits, Tracked, Payload, Accounted, Owned, AllFit, ChunkEnd, Of, Aligned;
    Fits(c, id);
    var x := c.calls[id];
    ChunkIsNext(x, Of(c.queue, x.msgNo));
    StaysAccounted(x, x.(phase := Failing(SendFailed)), id, c.pending, c.delivered, ExitsOf(c.exits, id));
    LeaveKeeps(c, EnqueueChunk(c, id, false), id);
  }

  lemma ChunkKeeps(c: ClientState, id: int, sendOk: bool)
    requires Inv(c)
    ensures Inv(EnqueueChunk(c, id, sendOk))
  {
    hide Inv;
    if In(c, id, Cleared) {
      if sendOk {
        ChunkSent(c, id);
      } else {
        ChunkLost(c, id);
      }
    }
  }

  lemma SentIsPrefix(m: nat, msg: Message, offset: nat)
    requires Aligned(|msg.body|, offset)
    ensures SentUpTo(m, msg, offset) <= Full(m, msg)
  {
  }

  /** What is enqueued of a call does not change when it is counted. */
  lemma CountedFits(x: Call, ps: seq<Packets.Packet>)
    requires x.phase.Counting? && SentFits(x, ps)
    ensures SentFits(x.(offset := ChunkEnd(|x.body|, x.offset), phase := Sending), ps)
  {
    hide Aligned, SentUpTo;
  }

  lemma CountedTracked(x: Call, ps: seq<Packets.Packet>, outgoing: map<nat, Progress>)
    requires x.phase.Counting? && SentFits(x, ps) && Tracked(x, |Payload(ps)|, outgoing)
    ensures
      var end := ChunkEnd(|x.body|, x.offset);
      var p := outgoing[x.msgNo];
      Tracked(x.(offset := end, phase := Sending), |Payload(ps)|,
              outgoing[x.msgNo := Progress(p.sent + (end - x.offset), p.acknowledged)])
  {
    hide Aligned, SentUpTo, Payload;
    PayloadLengths(x.msgNo, MessageOf(x), ChunkEnd(|x.body|, x.offset));
  }

  lemma CountTouches(c: ClientState, id: int)
    requires In(c, id, Counting) && c.calls[id].offset <= |c.calls[id].body| && c.calls[id].msgNo in c.outgoing
    ensures Touches(c, CountChunk(c, id), id, c.calls[id].msgNo)
  {
    hide ChunkEnd, Of, ExitsOf;
  }

  lemma CountKeeps(c: ClientState, id: int)
    requires Inv(c)
    ensures Inv(CountChunk(c, id))
  {
    hide Conforms, Payload, SentFits, Tracked, Accounted, Owned, AllFit, ChunkEnd, Touches;
    if In(c, id, Counting) {
      Fits(c, id);
      var x := c.calls[id];
      var c' := CountChunk(c, id);
      StaysAccounted(x, c'.calls[id], id, c.pending, c.delivered, ExitsOf(c.exits, id));
      CountingFits(x, Of(c.queue, x.msgNo), |Payload(Of(c.queue, x.msgNo))|, c.outgoing);
      CountedFits(x, Of(c.queue, x.msgNo));
      CountedTracked(x, Of(c.queue, x.msgNo), c.outgoing);
      CountTouches(c, id);
      StepKeeps(c, c', id, x.msgNo);
    }
  }

  lemma CountingFits(x: Call, ps: seq<Packets.Packet>, enqueued: nat, outgoing: map<nat, Progress>)
    requires x.phase.Counting? && SentFits(x, ps) && Tracked(x, enqueued, outgoing)
    ensures x.offset < |x.body| && x.msgNo in outgoing
  {
  }

  lemma EofIsNext(m: nat, msg: Message, offset: nat)
    requires Aligned(|msg.body|, offset) && offset >= |msg.body|
    ensures offset == |msg.body| && SentUpTo(m, msg, offset) + [EofPacket(m)] == Full(m, msg)
  {
    SplitFull(m, msg);
  }

  lemma EndKeeps(c: ClientState, id: int, sendOk: bool)
    requires Inv(c)
    ensures Inv(EnqueueEof(c, id, sendOk))
  {
    hide Conforms, Full, SentUpTo, Aligned, Accounted, Owned, AllFit;
    if In(c, id, Sending) && c.calls[id].offset >= |c.calls[id].body| {
      Fits(c, id);
      var x := c.calls[id];
      var c' := EnqueueEof(c, id, sendOk);
      StaysAccounted(x, c'.calls[id], id, c.pending, c.delivered, ExitsOf(c.exits, id));
      if sendOk {
        EofIsNext(x.msgNo, MessageOf(x), x.offset);
        PayloadLengths(x.msgNo, MessageOf(x), x.offset);
        NextPacketKeeps(c, c', id, EofPacket(x.msgNo));
      } else {
        LeaveKeeps(c, c', id);
      }
    }
  }

  /** The steps that end a call touch neither queue nor counters. */
  lemma LeaveKeeps(c: ClientState, c': ClientState, id: int)
    requires Inv(c) && id in c.calls && id in c'.calls
    requires !c.calls[id].phase.Created? && !c.calls[id].phase.Done?
    requires c'.calls[id].phase.Failing? || c'.calls[id].phase.Closing?
    requires c' == Move(c, id, c'.calls[id].phase).(pending := c'.pending, exits := c'.exits)
    requires forall j :: j != id ==> (j in c'.pending <==> j in c.pending)
    requires forall j :: j != id ==> ExitsOf(c'.exits, j) == ExitsOf(c.exits, j)
    requires Accounted(c'.calls[id], id, c'.pending, c'.delivered, ExitsOf(c'.exits, id))
    ensures Inv(c')
  {
    hide Conforms, Full, Owned, AllFit, Accounted, ExitsOf;
    Fits(c, id);
    StepKeeps(c, c', id, c.calls[id].msgNo);
  }

  lemma TakeKeeps(c: ClientState, id: int)
    requires Inv(c)
    ensures Inv(TakeReply(c, id))
  {
    hide Conforms, SentFits, Tracked, Owned, AllFit, ExitsOf;
    if TakeReply(c, id) != c {
      Fits(c, id);
      LeaveKeeps(c, TakeReply(c, id), id);
    }
  }

  lemma ExpireKeeps(c: ClientState, id: int)
    requires Inv(c)
    ensures Inv(TimeOut(c, id))
  {
    hide Conforms, SentFits, Tracked, Owned, AllFit, ExitsOf;
    if In(c, id, Awaiting) {
      Fits(c, id);
      LeaveKeeps(c, TimeOut(c, id), id);
    }
  }

  lemma UnregisterKeeps(c: ClientState, id: int)
    requires Inv(c)
    ensures Inv(RemovePending(c, id))
  {
    hide Conforms, SentFits, Tracked, Owned, AllFit, ExitsOf;
    if id in c.calls && c.calls[id].phase.Failing? {
      Fits(c, id);
      LeaveKeeps(c, RemovePending(c, id), id);
    }
  }

  lemma UntrackKeeps(c: ClientState, id: int)
    requires Inv(c)
    ensures Inv(RemoveOutgoing(c, id))
  {
    hide Conforms, Full, SentUpTo, Owned, AllFit, ExitsOf;
    if id in c.calls && c.calls[id].phase.Closing? {
      Fits(c, id);
      StepKeeps(c, RemoveOutgoing(c, id), id, c.calls[id].msgNo);
    }
  }

  lemma HeaderKeeps(c: ClientState, p: Packets.Packet)
    requires Inv(c)
    ensures Inv(OnHeader(c, p))
  {
    hide Inv;
    if p.msgNo != c.nextIn {
    } else if p.header.None? {
      ReceivingIrrelevant(c, OnHeader(c, p));
    } else {
      ReceivingIrrelevant(c, OnHeader(c, p));
    }
  }

  lemma DataKeeps(c: ClientState, p: Packets.Packet, sendOk: bool)
    requires Inv(c)
    ensures Inv(OnData(c, p, sendOk))
  {
    hide Inv;
    if p.msgNo in c.incoming && p.body != [] {
      var ack := AckPacket(p.msgNo, c.incoming[p.msgNo].received + |p.body|);
      AnswerKeeps(c, ack, sendOk);
      ReceivingIrrelevant(Enqueue(c, ack, sendOk), OnData(c, p, sendOk));
    }
  }

  lemma EndingKeeps(c: ClientState, m: nat, error: Option<ErrorText>, e: Exit)
    requires Inv(c) && !e.ByCaller? && (e.ByReply? <==> error.None?)
    ensures Inv(OnEnd(c, m, error, e))
  {
    hide Inv, Deliver;
    if m in c.incoming {
      var msg := c.incoming[m];
      var response := Response(msg.header, msg.body, error);
      DeliverKeeps(c, msg.header.requestId, response, e);
      ReceivingIrrelevant(Deliver(c, msg.header.requestId, response, e), OnEnd(c, m, error, e));
    }
  }

  /** The reader's own packets belong to no message, and it completes calls one id at a time. */
  lemma ReceiveKeeps(c: ClientState, p: Packets.Packet, sendOk: bool)
    requires Inv(c)
    ensures Inv(Receive(c, p, sendOk))
  {
    hide Inv, OnHeader, OnData, OnEnd, Server.Acknowledge, InvalidTxerr;
    match p.packetType {
      case Header => HeaderKeeps(c, p);
      case Data => DataKeeps(c, p, sendOk);
      case Eof => EndingKeeps(c, p.msgNo, None, ByReply);
      case Txerr => EndingKeeps(c, p.msgNo, Some(PeerError(DecodeLossy(p.body))), ByTxerr);
      case Ack => AckKeeps(c, p.msgNo, p.body);
      case Ping => AnswerKeeps(c, PongPacket(p.msgNo), sendOk);
      case Pong =>
    }
  }

  lemma AnswerKeeps(c: ClientState, p: Packets.Packet, sendOk: bool)
    requires Inv(c) && !InMessage(p, p.msgNo)
    ensures Inv(Enqueue(c, p, sendOk))
  {
    hide Full, SentUpTo, SentFits, Accounted, Conforms;
    if sendOk {
      QueueGrows(c, c.requests, p);
      var c' := Enqueue(c, p, sendOk);
      forall id | id in c'.calls ensures CallFits(c', id) {
        assert CallFits(c, id);
        assert Of(c'.queue, c.calls[id].msgNo) == Of(c.queue, c.calls[id].msgNo);
      }
      forall m | 0 <= m < |c'.requests| ensures Owned(c', m) {
        assert Owned(c, m);
      }
    }
  }

  lemma DeliverKeeps(c: ClientState, id: int, response: Response, e: Exit)
    requires Inv(c) && !e.ByCaller? && (e.ByReply? <==> response.error.None?)
    ensures Inv(Deliver(c, id, response, e))
  {
    hide SentFits, Tracked, Accounted, Conforms, AllFit;
    var c' := Deliver(c, id, response, e);
    forall j | j in c'.calls ensures CallFits(c', j) {
      Fits(c, j);
      DeliveryAccounted(c, id, response, e, j);
    }
    forall m | 0 <= m < |c'.requests| ensures Owned(c', m) {
      assert Owned(c, m);
    }
    AllFits(c');
  }

  lemma AllFits(c: ClientState)
    requires forall id | id in c.calls :: CallFits(c, id)
    ensures AllFit(c)
  {
    hide CallFits;
  }

  lemma DeliveryAccounted(c: ClientState, id: int, response: Response, e: Exit, j: int)
    requires !e.ByCaller? && (e.ByReply? <==> response.error.None?)
    requires j in c.calls && Accounted(c.calls[j], j, c.pending, c.delivered, ExitsOf(c.exits, j))
    ensures
      var c' := Deliver(c, id, response, e);
      Accounted(c.calls[j], j, c'.pending, c'.delivered, ExitsOf(c'.exits, j))
  {
    hide ExitsOf;
  }

  lemma AckKeeps(c: ClientState, m: nat, body: seq<Byte>)
    requires Inv(c)
    ensures Inv(c.(outgoing := Server.Acknowledge(c.outgoing, m, body)))
  {
    hide Full, SentUpTo, SentFits, Accounted, Conforms;
    var c' := c.(outgoing := Server.Acknowledge(c.outgoing, m, body));
    forall id | id in c'.calls ensures CallFits(c', id) {
      assert CallFits(c, id);
    }
    forall k | 0 <= k < |c'.requests| ensures Owned(c', k) {
      assert Owned(c, k);
    }
  }

  lemma StopKeeps(c: ClientState, error: ErrorText)
    requires Inv(c)
    ensures Inv(StopReading(c, error))
  {
    hide SentFits, Tracked, Accounted, Conforms;
    var c' := StopReading(c, error);
    forall id | id in c'.calls ensures CallFits(c', id) {
      assert CallFits(c, id);
      LostStaysAccounted(c, error, id);
    }
    forall m | 0 <= m < |c'.requests| ensures Owned(c', m) {
      assert Owned(c, m);
    }
  }

  lemma LostStaysAccounted(c: ClientState, error: ErrorText, id: int)
    requires id in c.calls && Accounted(c.calls[id], id, c.pending, c.delivered, ExitsOf(c.exits, id))
    ensures
      var c' := StopReading(c, error);
      Accounted(c.calls[id], id, c'.pending, c'.delivered, ExitsOf(c'.exits, id))
  {
  }

  lemma ApplyKeeps(c: ClientState, e: Event)
    requires Inv(c)
    ensures Inv(Apply(c, e))
  {
    hide AllFit, Conforms, Owned;
    match e {
      case Start(args) => StartKeeps(c, args);
      case Begin(id, sendOk) => BeginKeeps(c, id, sendOk);
      case Check(id) => CheckKeeps(c, id);
      case Chunk(id, sendOk) => ChunkKeeps(c, id, sendOk);
      case Count(id) => CountKeeps(c, id);
      case End(id, sendOk) => EndKeeps(c, id, sendOk);
      case Take(id) => TakeKeeps(c, id);
      case Expire(id) => ExpireKeeps(c, id);
      case Unregister(id) => UnregisterKeeps(c, id);
      case Untrack(id) => UntrackKeeps(c, id);
      case Packet(p, sendOk) => ReceiveKeeps(c, p, sendOk);
      case Stop(error) => StopKeeps(c, error);
      case Close =>
        if !c.reading {
          CloseKeeps(c);
        }
    }
  }

  lemma CloseKeeps(c: ClientState)
    requires Inv(c) && !c.reading
    ensures Inv(c.(closed := true))
  {
    hide SentFits, Tracked, Accounted, Conforms;
    var c' := c.(closed := true);
    forall id | id in c'.calls ensures CallFits(c', id) {
      assert CallFits(c, id);
    }
    forall m | 0 <= m < |c'.requests| ensures Owned(c', m) {
      assert Owned(c, m);
    }
  }

  lemma {:induction false} RunKeeps(c: ClientState, events: seq<Event>)
    requires Inv(c)
    ensures Inv(Run(c, events))
  {
    hide Inv, Apply;
    if events != [] {
      RunKeeps(c, events[..|events| - 1]);
      ApplyKeeps(Run(c, events[..|events| - 1]), events[|events| - 1]);
    }
  }

  lemma StartInv()
    ensures Inv(START)
  {
  }

  lemma InvConforms(c: ClientState)
    requires Inv(c)
    ensures Conforms(c.queue, c.requests)
  {
    hide Conforms, AllFit;
  }
}
