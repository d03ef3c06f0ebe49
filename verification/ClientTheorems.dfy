/** Flow control and the pending map, over every run of a client connection against any peer. */
module ClientTheorems {
  import opened Wrappers
  import opened Text
  import opened Packets
  import opened Messages
  import opened Client
  import opened ClientInvariant
  import Server

  lemma Reachable(events: seq<Event>)
    ensures Inv(Run(START, events))
  {
    StartInv();
    RunKeeps(START, events);
  }

  // ---------------------------------------------------------------- flow control

  /** The bytes of message `m` handed to the writer. */
  function Enqueued(c: ClientState, m: nat): nat {
    |Payload(Of(c.queue, m))|
  }

  lemma TrackedMessage(c: ClientState, m: nat)
    requires Inv(c) && m in c.outgoing
    ensures c.outgoing[m].acknowledged <= c.outgoing[m].sent <= Enqueued(c, m)
            <= c.outgoing[m].acknowledged + WINDOW_LIMIT
  {
    hide Conforms, SentFits, Accounted;
    assert Owned(c, m);
    Fits(c, c.requests[m].header.requestId);
  }

  /** In every reachable state, with any peer: nothing is acknowledged that was not counted as sent, nothing
      counted as sent that was not enqueued, and at most 67583 enqueued bytes of a message are
      unacknowledged. */
  lemma FlowControlWindow(events: seq<Event>)
    ensures
      var c := Run(START, events);
      forall m :: m in c.outgoing ==>
        && c.outgoing[m].acknowledged <= c.outgoing[m].sent <= Enqueued(c, m)
        && Enqueued(c, m) - c.outgoing[m].acknowledged <= 67583
  {
    hide Inv, Enqueued, Run;
    var c := Run(START, events);
    Reachable(events);
    forall m | m in c.outgoing
      ensures c.outgoing[m].acknowledged <= c.outgoing[m].sent <= Enqueued(c, m)
      ensures Enqueued(c, m) - c.outgoing[m].acknowledged <= 67583
    {
      TrackedMessage(c, m);
    }
  }

  /** No acknowledgement of message `m` is lowered, and a message number that is gone stays gone. */
  predicate Raises(c: ClientState, c': ClientState, m: nat) {
    && c.nextMsgNo <= c'.nextMsgNo
    && (m in c'.outgoing ==> m in c.outgoing && c.outgoing[m].acknowledged <= c'.outgoing[m].acknowledged)
  }

  lemma SenderRaises(c: ClientState, id: int, sendOk: bool, m: nat)
    requires m < c.nextMsgNo
    ensures Raises(c, BeginMessage(c, id, sendOk), m) && Raises(c, CountChunk(c, id), m)
  {
  }

  lemma ReceiveRaises(c: ClientState, p: Packets.Packet, sendOk: bool, m: nat)
    ensures Raises(c, Receive(c, p, sendOk), m)
  {
    hide Receive, Server.Acknowledge;
    ReceiveScope(c, p, sendOk);
    AcknowledgeMoves(c.outgoing, p.msgNo, p.body);
  }

  lemma StepRaises(c: ClientState, e: Event, m: nat)
    requires m < c.nextMsgNo
    ensures Raises(c, Apply(c, e), m)
  {
    hide Receive, BeginMessage, CountChunk, WithExits, ChunkEnd, OverWatermark;
    match e {
      case Begin(id, sendOk) => SenderRaises(c, id, sendOk, m);
      case Count(id) => SenderRaises(c, id, true, m);
      case Packet(p, sendOk) => ReceiveRaises(c, p, sendOk, m);
      case Start(_) =>
      case Check(_) =>
      case Chunk(_, _) =>
      case End(_, _) =>
      case Take(_) =>
      case Expire(_) =>
      case Unregister(_) =>
      case Untrack(_) =>
      case Stop(_) =>
      case Close =>
    }
  }

  /** Over any stretch of any run, the acknowledged count of a message only rises. */
  lemma {:induction false} AcknowledgedRises(events: seq<Event>, more: seq<Event>, m: nat)
    ensures
      var c, c' := Run(START, events), Run(START, events + more);
      m < c.nextMsgNo ==> Raises(c, c', m)
  {
    hide Apply;
    if more == [] {
      assert events + more == events;
    } else {
      var front := more[..|more| - 1];
      AcknowledgedRises(events, front, m);
      assert (events + more)[..|events + more| - 1] == events + front;
      if m < Run(START, events).nextMsgNo {
        StepRaises(Run(START, events + front), more[|more| - 1], m);
      }
    }
  }

  // ---------------------------------------------------------------- the pending map

  /** The id of a call that has registered itself. */
  predicate Registered(c: ClientState, id: int) {
    id in c.calls && !c.calls[id].phase.Created?
  }

  /** In every reachable state a registered id is either pending and untouched, or it left the map exactly
      once: by a reply, a TXERR or the loss of the connection, and then exactly one response went to its
      call, or by its own call giving up, and then none did. What a call returns as a reply is
      that response, and it never finds its reply channel dropped. */
  lemma PendingConserved(events: seq<Event>, id: int)
    ensures
      var c := Run(START, events);
      var exits := ExitsOf(c.exits, id);
      if !Registered(c, id) then id !in c.pending && exits == [] && id !in c.delivered
      else
        && (id in c.pending ==> exits == [] && id !in c.delivered)
        && (id !in c.pending ==> |exits| == 1 && (id in c.delivered <==> !exits[0].ByCaller?))
        && (id in c.delivered ==> (c.delivered[id].error.None? <==> exits == [ByReply]))
        && match c.calls[id].phase
           case Done(Replied(r)) => id in c.delivered && c.delivered[id] == r
           case Done(Failed(f)) => f != ReplyLost && id !in c.pending
           case _ => true
  {
    hide Run, Conforms, SentFits, Tracked;
    Reachable(events);
    var c := Run(START, events);
    if id in c.calls {
      Fits(c, id);
    }
  }

  /** The account of an id that has left the map is the same in both states. */
  predicate SameAccount(c: ClientState, c': ClientState, id: int) {
    && Registered(c', id) && id !in c'.pending && ExitsOf(c'.exits, id) == ExitsOf(c.exits, id)
    && (id in c.delivered <==> id in c'.delivered)
    && (id in c.delivered ==> c'.delivered[id] == c.delivered[id])
  }

  lemma ReceiveFinal(c: ClientState, p: Packets.Packet, sendOk: bool, id: int)
    requires Registered(c, id) && id !in c.pending
    ensures SameAccount(c, Receive(c, p, sendOk), id)
  {
    hide OnEnd, OnHeader, OnData, InvalidTxerr, Server.Acknowledge, ExitsOf;
    ReceiveScope(c, p, sendOk);
    match p.packetType {
      case Header => HeaderScope(c, p);
      case Data => DataScope(c, p, sendOk);
      case Eof => EndFinal(c, p.msgNo, None, ByReply, id);
      case Txerr => EndFinal(c, p.msgNo, Some(PeerError(DecodeLossy(p.body))), ByTxerr, id);
      case _ =>
    }
  }

  lemma EndFinal(c: ClientState, m: nat, error: Option<ErrorText>, e: Exit, id: int)
    requires Registered(c, id) && id !in c.pending
    ensures SameAccount(c, OnEnd(c, m, error, e), id)
  {
    hide Deliver, ExitsOf;
    if m in c.incoming {
      var msg := c.incoming[m];
      DeliverFinal(c, msg.header.requestId, Response(msg.header, msg.body, error), e, id);
    }
  }

  lemma DeliverFinal(c: ClientState, j: int, response: Response, e: Exit, id: int)
    requires Registered(c, id) && id !in c.pending
    ensures SameAccount(c, Deliver(c, j, response, e), id)
  {
    hide ExitsOf;
  }

  lemma BeginFinal(c: ClientState, j: int, sendOk: bool, id: int)
    requires Registered(c, id) && id !in c.pending
    ensures SameAccount(c, BeginMessage(c, j, sendOk), id)
  {
    hide ExitsOf;
  }

  lemma CheckFinal(c: ClientState, j: int, id: int)
    requires Registered(c, id) && id !in c.pending
    ensures SameAccount(c, CheckWindow(c, j), id)
  {
    hide ExitsOf, OverWatermark;
  }

  lemma ChunkFinal(c: ClientState, j: int, sendOk: bool, id: int)
    requires Registered(c, id) && id !in c.pending
    ensures SameAccount(c, EnqueueChunk(c, j, sendOk), id)
  {
    hide ExitsOf, ChunkEnd;
  }

  lemma CountFinal(c: ClientState, j: int, id: int)
    requires Registered(c, id) && id !in c.pending
    ensures SameAccount(c, CountChunk(c, j), id)
  {
    hide ExitsOf, ChunkEnd;
  }

  lemma EofFinal(c: ClientState, j: int, sendOk: bool, id: int)
    requires Registered(c, id) && id !in c.pending
    ensures SameAccount(c, EnqueueEof(c, j, sendOk), id)
  {
    hide ExitsOf;
  }

  lemma LeavingFinal(c: ClientState, j: int, id: int)
    requires Registered(c, id) && id !in c.pending
    ensures SameAccount(c, TakeReply(c, j), id) && SameAccount(c, TimeOut(c, j), id)
  {
    hide ExitsOf;
    if !In(c, j, Awaiting) {
    } else if j in c.delivered {
    } else if j !in c.pending {
    } else {
    }
  }

  lemma UntrackFinal(c: ClientState, j: int, id: int)
    requires Registered(c, id) && id !in c.pending
    ensures SameAccount(c, RemoveOutgoing(c, j), id)
  {
    hide ExitsOf;
  }

  lemma UnregisterFinal(c: ClientState, j: int, id: int)
    requires Registered(c, id) && id !in c.pending
    ensures SameAccount(c, RemovePending(c, j), id)
  {
    hide ExitsOf;
  }

  lemma StepFinal(c: ClientState, e: Event, id: int)
    requires Inv(c) && Registered(c, id) && id !in c.pending
    ensures SameAccount(c, Apply(c, e), id)
  {
    hide Inv, Receive, BeginMessage, CheckWindow, EnqueueChunk, CountChunk, EnqueueEof, TakeReply, TimeOut,
         RemovePending, RemoveOutgoing, StopReading, ExitsOf;
    match e {
      case Start(_) => BelowNextId(c, id);
      case Begin(j, sendOk) => BeginFinal(c, j, sendOk, id);
      case Check(j) => CheckFinal(c, j, id);
      case Chunk(j, sendOk) => ChunkFinal(c, j, sendOk, id);
      case Count(j) => CountFinal(c, j, id);
      case End(j, sendOk) => EofFinal(c, j, sendOk, id);
      case Packet(p, sendOk) => ReceiveFinal(c, p, sendOk, id);
      case Stop(error) => StopFinal(c, error, id);
      case Close =>
      case Unregister(j) => UnregisterFinal(c, j, id);
      case Untrack(j) => UntrackFinal(c, j, id);
      case Take(j) => LeavingFinal(c, j, id);
      case Expire(j) => LeavingFinal(c, j, id);
    }
  }

  lemma StopFinal(c: ClientState, error: ErrorText, id: int)
    requires Registered(c, id) && id !in c.pending
    ensures SameAccount(c, StopReading(c, error), id)
  {
    hide ExitsOf;
  }

  lemma BelowNextId(c: ClientState, id: int)
    requires Inv(c) && id in c.calls
    ensures id < c.nextRequestId
  {
    hide Conforms, SentFits, Tracked, Accounted, Owned;
    Fits(c, id);
  }

  /** Once an id has left the pending map nothing that happens later, no further reply to it in particular,
      registers it again or completes anybody under it. */
  lemma {:induction false} ExitIsFinal(events: seq<Event>, more: seq<Event>, id: int)
    requires Registered(Run(START, events), id) && id !in Run(START, events).pending
    ensures
      var c, c' := Run(START, events), Run(START, events + more);
      SameAccount(c, c', id)
  {
    hide Inv, Apply;
    if more == [] {
      assert events + more == events;
    } else {
      var front := more[..|more| - 1];
      ExitIsFinal(events, front, id);
      assert (events + more)[..|events + more| - 1] == events + front;
      Reachable(events + front);
      StepFinal(Run(START, events + front), more[|more| - 1], id);
    }
  }

  /** The loss of the connection empties the map: every pending call gets the error, and each id is
      accounted for by that. */
  lemma DrainCompletesAll(events: seq<Event>, error: ErrorText, id: int)
    requires Run(START, events).reading && id in Run(START, events).pending
    ensures
      var c := Run(START, events + [Stop(error)]);
      && c.pending == {} && ExitsOf(c.exits, id) == [ByLoss]
      && id in c.delivered && c.delivered[id].error == Some(error) && c.delivered[id].body == []
  {
    hide Inv;
    PendingConserved(events, id);
    assert (events + [Stop(error)])[..|events|] == events;
  }
}
