/** What a client takes as acknowledged is exactly the best of the ACKs it was sent. */
module AckRecord {
  import opened Wrappers
  import opened Text
  import opened Packets
  import opened Messages
  import opened Client
  import opened ClientInvariant
  import opened ClientTheorems
  import opened System
  import opened SystemTheorems
  import opened Traffic
  import SendRequest
  import SystemInvariant
  import Server

  // ---------------------------------------------------------------- against any peer

  /** This packet tells `v` bytes of message `m`, and that many had been counted as sent. */
  predicate Tells(c: ClientState, p: Packets.Packet, m: nat, v: nat) {
    && p.packetType.Ack? && p.msgNo == m && v > 0 && ParseUnsigned(DecodeLossy(p.body), U64_BOUND) == Some(v)
    && c.reading && m in c.outgoing && v <= c.outgoing[m].sent
  }

  predicate ToldNow(c: ClientState, e: Event, m: nat, v: nat) {
    e.Packet? && Tells(c, e.p, m, v)
  }

  ghost predicate Told(events: seq<Event>, k: int, m: nat, v: nat) {
    0 <= k < |events| && ToldNow(Run(START, events[..k]), events[k], m, v)
  }

  /** `n` is the largest number told so far, or 0 when none was. */
  ghost predicate Record(events: seq<Event>, m: nat, n: nat) {
    && (forall k, v: nat :: Told(events, k, m, v) ==> v <= n)
    && (n == 0 || exists k :: Told(events, k, m, n))
  }

  /** One more ACK raises what is acknowledged exactly if it tells more, and not too much. */
  lemma AckTaken(c: ClientState, p: Packets.Packet, m: nat)
    requires c.reading && m in c.outgoing && p.packetType.Ack?
    ensures
      var outgoing' := Server.Acknowledge(c.outgoing, p.msgNo, p.body);
      && m in outgoing' && outgoing'[m].sent == c.outgoing[m].sent
      && c.outgoing[m].acknowledged <= outgoing'[m].acknowledged
      && (forall v: nat :: Tells(c, p, m, v) ==>
            outgoing'[m].acknowledged == if v > c.outgoing[m].acknowledged then v else c.outgoing[m].acknowledged)
      && (outgoing'[m].acknowledged == c.outgoing[m].acknowledged || Tells(c, p, m, outgoing'[m].acknowledged))
  {
    hide DecodeLossy, ParseUnsigned;
  }

  /** Besides ACKs nothing changes what is acknowledged; a message starts with nothing. */
  lemma OnlyAcks(c: ClientState, e: Event, m: nat)
    requires Inv(c) && m in Apply(c, e).outgoing
    ensures e.Packet? && c.reading && e.p.packetType.Ack?
            ==> m in c.outgoing && Apply(c, e).outgoing == Server.Acknowledge(c.outgoing, e.p.msgNo, e.p.body)
    ensures !(e.Packet? && c.reading && e.p.packetType.Ack?) ==>
              if m in c.outgoing then Apply(c, e).outgoing[m].acknowledged == c.outgoing[m].acknowledged
              else m == c.nextMsgNo && Apply(c, e).outgoing[m].acknowledged == 0
  {
    hide Apply, Inv, Receive, Server.Acknowledge;
    if e.Packet? {
      AppliedPacket(c, e);
      ReceiveScope(c, e.p, e.sendOk);
      AcknowledgeMoves(c.outgoing, e.p.msgNo, e.p.body);
    } else {
      SystemInvariant.NotYetOutgoing(c);
      LocalFrameHolds(c, e);
      if m !in c.outgoing {
        SystemInvariant.NewOutgoing(c, e, m);
      }
    }
  }

  lemma AppliedPacket(c: ClientState, e: Event)
    requires e.Packet?
    ensures Apply(c, e) == if c.reading then Receive(c, e.p, e.sendOk) else c
  {
    hide Receive;
  }

  lemma ToldStays(events: seq<Event>, e: Event, k: int, m: nat, v: nat)
    ensures k != |events| ==> (Told(events + [e], k, m, v) <==> Told(events, k, m, v))
    ensures Told(events + [e], |events|, m, v) <==> ToldNow(Run(START, events), e, m, v)
  {
    hide Run, Tells;
    if 0 <= k <= |events| {
      assert (events + [e])[..k] == events[..k];
    }
    assert (events + [e])[..|events|] == events;
  }

  lemma RecordStep(events: seq<Event>, e: Event, m: nat, n: nat, n': nat)
    requires Record(events, m, n) && n <= n'
    requires forall v: nat :: ToldNow(Run(START, events), e, m, v) ==> n' == if v > n then v else n
    requires n' == n || ToldNow(Run(START, events), e, m, n')
    ensures Record(events + [e], m, n')
  {
    hide Run, ToldNow, Told;
    forall k, v: nat | Told(events + [e], k, m, v) ensures v <= n' {
      ToldStays(events, e, k, m, v);
    }
    if n' == n {
      if n != 0 {
        var k :| Told(events, k, m, n);
        ToldStays(events, e, k, m, n);
        ToldBounds(events, k, m, n);
        assert Told(events + [e], k, m, n');
      }
    } else {
      ToldStays(events, e, |events|, m, n');
      assert Told(events + [e], |events|, m, n');
    }
  }

  lemma ToldBounds(events: seq<Event>, k: int, m: nat, v: nat)
    requires Told(events, k, m, v)
    ensures 0 <= k < |events|
  {
  }

  /** Nothing was told of a message that is not yet, or no longer, tracked. */
  lemma {:induction false} NothingTold(events: seq<Event>, m: nat)
    requires m >= Run(START, events).nextMsgNo
    ensures Record(events, m, 0)
  {
    hide Apply, Tells, Inv;
    if events != [] {
      var front, e := events[..|events| - 1], events[|events| - 1];
      assert events == front + [e];
      Reachable(front);
      var c := Run(START, front);
      StepCounts(c, e);
      NothingTold(front, m);
      forall v: nat ensures !ToldNow(c, e, m, v) {
        if ToldNow(c, e, m, v) {
          SystemInvariant.OutgoingBelow(c, m) by { UseTells(c, e, m, v); }
          UseTells(c, e, m, v);
        }
      }
      RecordStep(front, e, m, 0, 0);
    }
  }

  lemma UseTells(c: ClientState, e: Event, m: nat, v: nat)
    requires ToldNow(c, e, m, v)
    ensures m in c.outgoing && c.reading && e.Packet? && e.p.packetType.Ack?
  {
    hide DecodeLossy, ParseUnsigned;
  }

  lemma StepCounts(c: ClientState, e: Event)
    ensures c.nextMsgNo <= Apply(c, e).nextMsgNo
  {
    hide Receive, WithExits, ChunkEnd, OverWatermark, RequestHeader;
    match e {
      case Packet(p, sendOk) =>
        ReceiveScope(c, p, sendOk);
      case Start(_) =>
      case Begin(_, _) =>
      case Check(_) =>
      case Chunk(_, _) =>
      case Count(_) =>
      case End(_, _) =>
      case Take(_) =>
      case Expire(_) =>
      case Unregister(_) =>
      case Untrack(_) =>
      case Stop(_) =>
      case Close =>
    }
  }

  /** Against any peer, at any time: what a client takes as acknowledged of a message is the largest number an ACK for
      it has told that was no more than what had been counted as sent when it came. ACKs that say less, the same
      again, or too much leave no trace, and every other one counts. */
  lemma {:induction false} AcknowledgedIsLargest(events: seq<Event>, m: nat)
    requires m in Run(START, events).outgoing
    ensures Record(events, m, Run(START, events).outgoing[m].acknowledged)
  {
    hide Apply, Tells, Inv, Server.Acknowledge, Record;
    if events != [] {
      var front, e := events[..|events| - 1], events[|events| - 1];
      assert events == front + [e];
      Reachable(front);
      var c, c' := Run(START, front), Run(START, events);
      assert c' == Apply(c, e);
      OnlyAcks(c, e, m);
      if m in c.outgoing {
        AcknowledgedIsLargest(front, m);
      } else {
        NothingTold(front, m);
      }
      if e.Packet? && c.reading && e.p.packetType.Ack? {
        AckTaken(c, e.p, m);
      } else {
        forall v: nat ensures !ToldNow(c, e, m, v) {
          if ToldNow(c, e, m, v) {
            UseTells(c, e, m, v);
          }
        }
      }
      RecordStep(front, e, m, if m in c.outgoing then c.outgoing[m].acknowledged else 0, c'.outgoing[m].acknowledged);
    }
  }

  // ---------------------------------------------------------------- the window check

  /** A call at the window check with bytes left goes on exactly if its connection is not closed and fewer than 65536 of
      the bytes it has sent are unacknowledged, gives up exactly if it is closed, and waits otherwise. */
  lemma WindowExactly(events: seq<Event>, id: int)
    requires
      var c := Run(START, events);
      In(c, id, Sending) && c.calls[id].offset < |c.calls[id].body|
    ensures
      var c, c' := Run(START, events), Run(START, events + [Check(id)]);
      var call := c.calls[id];
      && call.msgNo in c.outgoing && c.outgoing[call.msgNo].acknowledged <= call.offset
      && c' == c.(calls := c.calls[id := call.(phase :=
           if c.closed then Failing(ClosedInFlowControl)
           else if call.offset - c.outgoing[call.msgNo].acknowledged < 65536 then Cleared
           else Sending)])
  {
    hide Run, Inv, SentFits, Accounted;
    Reachable(events);
    Fits(Run(START, events), id);
    SendRequest.RunSnoc(START, events, Check(id));
  }

  // ---------------------------------------------------------------- against this server

  /** No ACK for the message is received before its chunk has been counted. */
  ghost predicate InTime(service: Server.Service, budget: nat, moves: seq<Move>, m: nat) {
    forall i :: 0 <= i < |moves| && moves[i].ClientReceives? ==> AckInTime(Execute(service, budget, moves[..i]), m)
  }

  ghost predicate AckInTime(s: State, m: nat) {
    s.client.reading && s.clientGot < |s.server.wire| ==>
      forall v: nat :: s.server.wire[s.clientGot] == AckPacket(m, v) ==>
        m in s.client.outgoing && v <= s.client.outgoing[m].sent
  }

  /** The bytes that the first `n` ACKs of a message tell. */
  function LastAcked(length: nat, n: nat): nat {
    if n == 0 then 0 else AckedBytes(length, n - 1)
  }

  ghost predicate Caught(s: State, m: nat) {
    m in s.client.outgoing && m < |s.client.requests| && |s.client.requests[m].body| < U64_BOUND ==>
      s.client.outgoing[m].acknowledged
      == LastAcked(|s.client.requests[m].body|, |AcksOf(ReaderLog(s), m)|)
  }

  lemma {:induction false} AcksOfPrefix(log: seq<Packets.Packet>, n: nat, m: nat)
    requires n <= |log|
    ensures AcksOf(log[..n], m) <= AcksOf(log, m)
  {
    if n < |log| {
      AcksOfPrefix(log[..|log| - 1], n, m);
      assert log[..|log| - 1][..n] == log[..n];
    } else {
      assert log[..n] == log;
    }
  }

  /** The next ACK the reader gets is the next one earned. */
  lemma NextAck(service: Server.Service, s: State, m: nat)
    requires SystemInv(service, s) && s.clientGot < |s.server.wire|
    requires s.server.wire[s.clientGot].packetType.Ack? && s.server.wire[s.clientGot].msgNo == m
    ensures
      var n := |AcksOf(ReaderLog(s), m)|;
      && m < |s.client.requests|
      && var length := |s.client.requests[m].body|;
         && n < Chunks(length) && s.server.wire[s.clientGot] == AckPacket(m, AckedBytes(length, n))
         && LastAcked(length, n) < AckedBytes(length, n) <= length
  {
    hide Inv, ReaderSide, AllAcknowledged, AllAnswered, Assembled, DispatchesFit, ReplyStream.Replying, AckPacket;
    var p, log := s.server.wire[s.clientGot], ReaderLog(s);
    assert AcksFit(ServerLog(s), s.client.requests, s.server.wire, s.open, m);
    assert s.server.wire[..s.clientGot + 1] == log + [p];
    AcksOfSnoc(log, p, m);
    AcksOfPrefix(s.server.wire, s.clientGot + 1, m);
    assert AcksOf(log + [p], m)[|AcksOf(log, m)|] == p;
  }

  /** Before a message has begun nothing acknowledges it. */
  lemma NoAcksBefore(service: Server.Service, s: State, m: nat)
    requires SystemInv(service, s) && m >= |s.client.requests|
    ensures AcksOf(ReaderLog(s), m) == []
  {
    hide Inv, ReaderSide, AllAcknowledged, AllAnswered, Assembled, DispatchesFit, ReplyStream.Replying;
    assert AcksFit(ServerLog(s), s.client.requests, s.server.wire, s.open, m);
    AcksOfPrefix(s.server.wire, s.clientGot, m);
  }

  lemma AckTells(c: ClientState, m: nat, v: nat)
    requires 0 < v < U64_BOUND && c.reading && m in c.outgoing && v <= c.outgoing[m].sent
    ensures Tells(c, AckPacket(m, v), m, v)
  {
    Text.LossyEncode(Decimal(v));
    ParseDecimal(v, U64_BOUND);
  }

  lemma ReaderCatches(service: Server.Service, s: State, sendOk: bool, m: nat)
    requires SystemInv(service, s) && Caught(s, m) && AckInTime(s, m)
    requires s.client.reading && s.clientGot < |s.server.wire|
    ensures Caught(Step(service, s, ClientReceives(sendOk)), m)
  {
    hide SystemInv, Receive, AcksOf, Server.Acknowledge, AckInTime, ReaderLog, AckedBytes, LastAcked;
    var p, c := s.server.wire[s.clientGot], s.client;
    var s' := Step(service, s, ClientReceives(sendOk));
    LogGrows(service, s, s', m);
    ReceiveScope(c, p, sendOk);
    AcknowledgeMoves(c.outgoing, p.msgNo, p.body);
    if p.packetType.Ack? && p.msgNo == m && m in c.outgoing {
      AckCatches(service, s, m);
    }
  }

  lemma LogGrows(service: Server.Service, s: State, s': State, m: nat)
    requires SystemInv(service, s) && s.clientGot < |s.server.wire|
    requires s'.server == s.server && s'.clientGot == s.clientGot + 1
    ensures
      var p := s.server.wire[s.clientGot];
      AcksOf(ReaderLog(s'), m) == AcksOf(ReaderLog(s), m) + (if p.msgNo == m && p.packetType.Ack? then [p] else [])
  {
    hide SystemInv, AcksOf;
    InBounds(service, s);
    assert ReaderLog(s') == ReaderLog(s) + [s.server.wire[s.clientGot]];
    AcksOfSnoc(ReaderLog(s), s.server.wire[s.clientGot], m);
  }

  /** The ACK that the reader gets in time is taken. */
  lemma AckCatches(service: Server.Service, s: State, m: nat)
    requires SystemInv(service, s) && Caught(s, m) && AckInTime(s, m)
    requires s.client.reading && s.clientGot < |s.server.wire| && m in s.client.outgoing
    requires s.server.wire[s.clientGot].packetType.Ack? && s.server.wire[s.clientGot].msgNo == m
    ensures
      var n := |AcksOf(ReaderLog(s), m)|;
      var outgoing' := Server.Acknowledge(s.client.outgoing, m, s.server.wire[s.clientGot].body);
      && m < |s.client.requests| && m in outgoing'
      && (|s.client.requests[m].body| < U64_BOUND ==>
            outgoing'[m].acknowledged == LastAcked(|s.client.requests[m].body|, n + 1))
  {
    hide SystemInv, AcksOf, Server.Acknowledge, AckInTime, ReaderLog, AckedBytes, AckPacket;
    NextAck(service, s, m);
    AcknowledgeMoves(s.client.outgoing, m, s.server.wire[s.clientGot].body);
    if |s.client.requests[m].body| < U64_BOUND {
      AckCaught(s, m, AckedBytes(|s.client.requests[m].body|, |AcksOf(ReaderLog(s), m)|));
    }
  }

  lemma AckCaught(s: State, m: nat, v: nat)
    requires s.client.reading && s.clientGot < |s.server.wire| && AckInTime(s, m) && m in s.client.outgoing
    requires 0 < v < U64_BOUND && s.server.wire[s.clientGot] == AckPacket(m, v)
    ensures
      var outgoing' := Server.Acknowledge(s.client.outgoing, m, AckPacket(m, v).body);
      m in outgoing' && outgoing'[m].acknowledged
                        == if v > s.client.outgoing[m].acknowledged then v else s.client.outgoing[m].acknowledged
  {
    hide Server.Acknowledge, Tells;
    AckTells(s.client, m, v);
    AckTaken(s.client, AckPacket(m, v), m);
  }

  lemma InBounds(service: Server.Service, s: State)
    requires SystemInv(service, s)
    ensures s.serverGot <= |s.client.queue| && s.clientGot <= |s.server.wire| && Inv(s.client)
  {
    hide Inv, ReaderSide, ServerSide, AllAcknowledged, AllAnswered, ReplyStream.Replying;
  }

  lemma LocalCatches(service: Server.Service, s: State, e: Event, m: nat)
    requires SystemInv(service, s) && Caught(s, m) && !e.Packet?
    ensures Caught(s.(client := Apply(s.client, e)), m)
  {
    hide SystemInv, Apply, AcksOf, Server.Acknowledge, AckedBytes, Inv;
    var s' := s.(client := Apply(s.client, e));
    InBounds(service, s);
    SystemInvariant.NotYetOutgoing(s.client);
    LocalFrameHolds(s.client, e);
    LocalAppends(s.client, e);
    assert ReaderLog(s') == ReaderLog(s);
    if m in s'.client.outgoing {
      if m in s.client.outgoing {
        SystemInvariant.OutgoingBelow(s.client, m);
      } else {
        SystemInvariant.NewOutgoing(s.client, e, m);
        CountIsNext(s.client);
        NoAcksBefore(service, s, m);
      }
    }
  }

  lemma CountIsNext(c: ClientState)
    requires Inv(c)
    ensures c.nextMsgNo == |c.requests|
  {
    hide AllFit, Conforms;
  }

  lemma {:induction false} ExecuteCatches(service: Server.Service, budget: nat, moves: seq<Move>, m: nat)
    requires InTime(service, budget, moves, m)
    ensures Caught(Execute(service, budget, moves), m)
  {
    hide SystemInv, Apply, Receive, Server.Route, Caught, AckInTime;
    if moves == [] {
      NothingCaught(budget, m);
    } else {
      var front, move := moves[..|moves| - 1], moves[|moves| - 1];
      var s := Execute(service, budget, front);
      assert InTime(service, budget, front, m) by {
        forall i | 0 <= i < |front| && front[i].ClientReceives?
          ensures AckInTime(Execute(service, budget, front[..i]), m)
        {
          assert front[..i] == moves[..i] && front[i] == moves[i];
        }
      }
      ExecuteCatches(service, budget, front, m);
      SystemInvariant.ExecuteKeeps(service, budget, front);
      match move {
        case Local(e) =>
          if !e.Packet? {
            LocalCatches(service, s, e, m);
          }
        case ServerReceives =>
          if s.open && s.serverGot < |s.client.queue| {
            SystemInvariant.RouteExtends(service, s.server, s.client.queue[s.serverGot]);
            CaughtSame(service, s, Step(service, s, move), m);
          }
        case ClientReceives(sendOk) =>
          if s.client.reading && s.clientGot < |s.server.wire| {
            assert AckInTime(Execute(service, budget, moves[..|front|]), m);
            ReaderCatches(service, s, sendOk, m);
          }
      }
    }
  }

  lemma NothingCaught(budget: nat, m: nat)
    ensures Caught(Initial(budget), m)
  {
  }

  lemma CaughtSame(service: Server.Service, s: State, s': State, m: nat)
    requires SystemInv(service, s) && Caught(s, m) && s'.client == s.client && s'.clientGot == s.clientGot
    requires s.server.wire <= s'.server.wire
    ensures Caught(s', m)
  {
    hide SystemInv, AckedBytes;
    InBounds(service, s);
    assert ReaderLog(s') == ReaderLog(s);
  }

  /** As many ACKs as chunks tell all the bytes enqueued. */
  lemma ChunksTold(queue: seq<Packets.Packet>, requests: seq<Message>, m: nat)
    requires Conforms(queue, requests) && m < |requests|
    ensures LastAcked(|requests[m].body|, DataCount(Of(queue, m))) == |Payload(Of(queue, m))|
  {
    hide Full, Of;
    var msg, ps := requests[m], Of(queue, m);
    assert ps <= Expected(requests, m);
    assert ps == Full(m, msg)[..|ps|];
    if |ps| == |Full(m, msg)| {
      SplitFull(m, msg);
      ChunksReceived(m, msg, Chunks(|msg.body|));
      var sent := Full(m, msg)[..1 + Chunks(|msg.body|)];
      assert ps == sent + [EofPacket(m)];
      DataCountSnoc(sent, EofPacket(m));
      PayloadSnoc(sent, EofPacket(m));
    } else if ps != [] {
      ChunksReceived(m, msg, |ps| - 1);
    }
  }

  /** When everything sent has been received, with the connection open and no ACK before its chunk was counted, the
      client has every byte it enqueued acknowledged: the whole body of a message sent whole, and no call is held up
      at the window check. */
  lemma EverythingAcknowledged(service: Server.Service, budget: nat, moves: seq<Move>, m: nat)
    requires InTime(service, budget, moves, m)
    requires
      var s := Execute(service, budget, moves);
      && s.open && s.serverGot == |s.client.queue| && s.clientGot == |s.server.wire|
      && m in s.client.outgoing && (m < |s.client.requests| ==> |s.client.requests[m].body| < U64_BOUND)
    ensures
      var s := Execute(service, budget, moves);
      && s.client.outgoing[m].acknowledged == s.client.outgoing[m].sent == |Payload(Of(s.client.queue, m))|
      && (forall id :: In(s.client, id, Awaiting) && s.client.calls[id].msgNo == m ==>
            s.client.outgoing[m].acknowledged == |s.client.calls[id].body|)
  {
    hide Execute, InTime, Inv, Of, Payload, AcksOf, LastAcked, Conforms, SystemInv, DataCount, SentFits;
    var s := Execute(service, budget, moves);
    ExecuteCatches(service, budget, moves, m);
    SystemInvariant.ExecuteKeeps(service, budget, moves);
    InBounds(service, s);
    SystemInvariant.OutgoingBelow(s.client, m);
    AllAcksWritten(service, s, m);
    InvConforms(s.client);
    ChunksTold(s.client.queue, s.client.requests, m);
    TrackedMessage(s.client, m);
    forall id | In(s.client, id, Awaiting) && s.client.calls[id].msgNo == m
      ensures s.client.outgoing[m].sent == |s.client.calls[id].body|
    {
      Fits(s.client, id);
      AllCounted(s.client, id);
    }
  }

  lemma AllAcksWritten(service: Server.Service, s: State, m: nat)
    requires SystemInv(service, s)
    requires s.open && s.serverGot == |s.client.queue| && s.clientGot == |s.server.wire|
    ensures |AcksOf(ReaderLog(s), m)| == DataCount(Of(s.client.queue, m))
  {
    hide Inv, ReaderSide, AllAcknowledged, AllAnswered, Assembled, DispatchesFit, ReplyStream.Replying, AcksOf, Of,
         DataCount;
    assert AcksFit(ServerLog(s), s.client.requests, s.server.wire, s.open, m);
    assert ServerLog(s) == s.client.queue && ReaderLog(s) == s.server.wire;
  }

  /** A call that waits has counted its whole body. */
  lemma AllCounted(c: ClientState, id: int)
    requires Inv(c) && In(c, id, Awaiting)
    ensures c.calls[id].msgNo in c.outgoing && c.outgoing[c.calls[id].msgNo].sent == |c.calls[id].body|
  {
    hide Inv, Conforms, Full, Of, Payload;
    Fits(c, id);
  }
}
