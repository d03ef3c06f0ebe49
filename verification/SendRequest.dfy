/**
 `send_request` from its first statement to its last (client/connection.rs:160-278), with whatever else happens on
 the connection at each of its awaits. Every execution is a run of the step system, so what is proved of all
 runs holds of it.
 */
module SendRequest {
  import opened Wrappers
  import opened Text
  import opened Packets
  import opened Messages
  import opened Client
  import ClientInvariant
  import ClientTheorems

  // ---------------------------------------------------------------- the others

  /** An event that is not a step of call `id`. */
  predicate Foreign(e: Event, id: int) {
    match e
    case Begin(j, _) => j != id
    case Check(j) => j != id
    case Chunk(j, _) => j != id
    case Count(j) => j != id
    case End(j, _) => j != id
    case Take(j) => j != id
    case Expire(j) => j != id
    case Unregister(j) => j != id
    case Untrack(j) => j != id
    case _ => true
  }

  /** The local variables of call `id` are the same. */
  predicate Untouched(c: ClientState, c': ClientState, id: int) {
    id in c.calls && id in c'.calls && id < c'.nextRequestId && c'.calls[id] == c.calls[id]
  }

  lemma SendersElsewhere(c: ClientState, j: int, sendOk: bool, id: int)
    requires id in c.calls && id < c.nextRequestId && j != id
    ensures Untouched(c, BeginMessage(c, j, sendOk), id) && Untouched(c, CheckWindow(c, j), id)
    ensures Untouched(c, EnqueueEof(c, j, sendOk), id)
  {
    hide OverWatermark;
  }

  lemma ChunksElsewhere(c: ClientState, j: int, sendOk: bool, id: int)
    requires id in c.calls && id < c.nextRequestId && j != id
    ensures Untouched(c, EnqueueChunk(c, j, sendOk), id) && Untouched(c, CountChunk(c, j), id)
  {
    hide ChunkEnd;
  }

  lemma AwaitElsewhere(c: ClientState, j: int, id: int)
    requires id in c.calls && id < c.nextRequestId && j != id
    ensures Untouched(c, TakeReply(c, j), id) && Untouched(c, TimeOut(c, j), id)
  {
    if !In(c, j, Awaiting) {
    } else if j in c.delivered {
    } else if j !in c.pending {
    } else {
    }
  }

  lemma LeaversElsewhere(c: ClientState, j: int, id: int)
    requires id in c.calls && id < c.nextRequestId && j != id
    ensures Untouched(c, RemovePending(c, j), id) && Untouched(c, RemoveOutgoing(c, j), id)
  {
    hide WithExits;
    if j !in c.calls {
    } else if c.calls[j].phase.Failing? {
    } else if c.calls[j].phase.Closing? {
    } else {
    }
  }

  /** Others can do nothing to the local variables of a call. */
  lemma ForeignKeeps(c: ClientState, e: Event, id: int)
    requires Foreign(e, id) && id in c.calls && id < c.nextRequestId
    ensures Untouched(c, Apply(c, e), id)
  {
    hide Receive, StopReading, BeginMessage, CheckWindow, EnqueueChunk, CountChunk, EnqueueEof, TakeReply, TimeOut,
         RemovePending, RemoveOutgoing, RequestHeader;
    match e {
      case Start(_) =>
      case Begin(j, sendOk) => SendersElsewhere(c, j, sendOk, id);
      case Check(j) => SendersElsewhere(c, j, true, id);
      case Chunk(j, sendOk) => ChunksElsewhere(c, j, sendOk, id);
      case Count(j) => ChunksElsewhere(c, j, true, id);
      case End(j, sendOk) => SendersElsewhere(c, j, sendOk, id);
      case Take(j) => AwaitElsewhere(c, j, id);
      case Expire(j) => AwaitElsewhere(c, j, id);
      case Unregister(j) => LeaversElsewhere(c, j, id);
      case Untrack(j) => LeaversElsewhere(c, j, id);
      case Packet(p, sendOk) => ReceiveKeeps(c, p, sendOk);
      case Stop(error) => StopKeeps(c, error);
      case Close =>
    }
  }

  lemma ReceiveKeeps(c: ClientState, p: Packets.Packet, sendOk: bool)
    ensures
      var c' := Receive(c, p, sendOk);
      c'.calls == c.calls && c'.nextRequestId == c.nextRequestId
  {
    hide Receive;
    ClientInvariant.ReceiveScope(c, p, sendOk);
  }

  lemma StopKeeps(c: ClientState, error: ErrorText)
    ensures
      var c' := StopReading(c, error);
      c'.calls == c.calls && c'.nextRequestId == c.nextRequestId
  {
    hide WithExits;
  }

  /** Carries an event out, if it applies. */
  method Perform(c: ConnectionHandle, e: Event)
    modifies c
    ensures c.State() == Apply(old(c.State()), e)
  {
    hide StartCall, BeginMessage, EnqueueChunk, CountChunk, EnqueueEof, Receive, StopReading;
    match e {
      case Start(args) =>
        var _ := c.OpenCall(args);
      case Begin(id, sendOk) =>
        if id in c.calls && c.calls[id].phase == Created {
          c.SendHeader(id, sendOk);
        } else {
          Idle(c.State(), e);
        }
      case Check(id) =>
        if id in c.calls && c.calls[id].phase == Sending && c.calls[id].offset < |c.calls[id].body| {
          c.FlowControl(id);
        }
      case Chunk(id, sendOk) =>
        if id in c.calls && c.calls[id].phase == Cleared && c.calls[id].offset <= |c.calls[id].body| {
          c.SendChunk(id, sendOk);
        } else {
          Idle(c.State(), e);
        }
      case Count(id) =>
        if id in c.calls && c.calls[id].phase == Counting && c.calls[id].offset <= |c.calls[id].body| {
          c.CountSent(id);
        } else {
          Idle(c.State(), e);
        }
      case End(id, sendOk) =>
        if id in c.calls && c.calls[id].phase == Sending && c.calls[id].offset >= |c.calls[id].body| {
          c.SendEof(id, sendOk);
        } else {
          Idle(c.State(), e);
        }
      case Take(id) =>
        if id in c.calls && c.calls[id].phase == Awaiting {
          c.AwaitReply(id, false);
        }
      case Expire(id) =>
        if id in c.calls && c.calls[id].phase == Awaiting {
          c.AwaitReply(id, true);
        }
      case Unregister(id) =>
        if id in c.calls && c.calls[id].phase.Failing? {
          c.CleanUpPending(id);
        }
      case Untrack(id) =>
        if id in c.calls && c.calls[id].phase.Closing? {
          var _ := c.CleanUpOutgoing(id);
        }
      case Packet(p, sendOk) =>
        if c.reading {
          c.RoutePacket(p, sendOk);
        }
      case Stop(error) =>
        if c.reading {
          c.NotifyAllPending(error);
        }
      case Close =>
        if !c.reading {
          c.closed := true;
        }
    }
  }

  /** A step whose call is elsewhere does nothing. */
  lemma Idle(c: ClientState, e: Event)
    requires match e
             case Begin(id, _) => !In(c, id, Created)
             case Chunk(id, _) => !In(c, id, Cleared) || c.calls[id].offset > |c.calls[id].body|
             case Count(id) => !In(c, id, Counting) || c.calls[id].offset > |c.calls[id].body|
             case End(id, _) => !In(c, id, Sending) || c.calls[id].offset < |c.calls[id].body|
             case _ => false
    ensures Apply(c, e) == c
  {
  }

  lemma RunSnoc(c: ClientState, events: seq<Event>, e: Event)
    ensures Run(c, events + [e]) == Apply(Run(c, events), e)
  {
    hide Apply;
    assert (events + [e])[..|events|] == events;
  }

  // ---------------------------------------------------------------- the call

  /** What an await brings: what others do meanwhile, whether the writer task still takes packets,
      and whether the timeout has run out. */
  datatype Turn = Turn(others: seq<Event>, sendOk: bool, expired: bool)

  /** Call `id` is in this phase, after `trace`. */
  ghost predicate Reached(c: ConnectionHandle, id: int, phase: Phase, start: ClientState, trace: seq<Event>)
    reads c
  {
    c.State() == Run(start, trace) && id in c.calls && id < c.nextRequestId && c.calls[id].phase == phase
  }

  /** What a call sends. */
  function CallMessage(c: ConnectionHandle, id: int): Message
    requires id in c.calls
    reads c
  {
    Message(c.calls[id].header, c.calls[id].body)
  }

  /** What a call of these arguments is to send. */
  function Requested(id: int, args: Arguments): Message {
    Message(RequestHeader(id, args), args.body)
  }

  /** The call asks for what the arguments say, under its id. */
  predicate Asks(call: Call, id: int, args: Arguments) {
    var h := call.header;
    && call.body == args.body
    && h.action == args.action && h.version == args.version && h.envelope == args.envelope && h.ticket == args.ticket
    && h.clientId == args.clientId && h.requestId == id && h.messageType == Request
    && h.identifyingToken == "" && h.error == None && h.errorCode == None && h.errorData == None
  }

  /** Others run while the call waits. */
  method Meanwhile(c: ConnectionHandle, id: int, turn: Turn, ghost start: ClientState, ghost before: seq<Event>)
    returns (ghost trace: seq<Event>)
    requires id in c.calls && Reached(c, id, c.calls[id].phase, start, before)
    modifies c
    ensures Reached(c, id, old(c.calls[id].phase), start, trace) && c.calls[id] == old(c.calls[id])
  {
    hide Apply, Run;
    trace := before;
    for i := 0 to |turn.others|
      invariant Reached(c, id, old(c.calls[id].phase), start, trace) && c.calls[id] == old(c.calls[id])
    {
      if Foreign(turn.others[i], id) {
        ForeignKeeps(c.State(), turn.others[i], id);
        RunSnoc(start, trace, turn.others[i]);
        ghost var s := c.State();
        Perform(c, turn.others[i]);
        var s' := Apply(s, turn.others[i]);
        assert c.calls == s'.calls && c.nextRequestId == s'.nextRequestId by {
          assert c.State().calls == c.calls && c.State().nextRequestId == c.nextRequestId;
        }
        trace := trace + [turn.others[i]];
      }
    }
  }

  /** Giving up: out of both maps, one after the other. */
  method CleanUp(c: ConnectionHandle, id: int, turn: Turn, ghost start: ClientState, ghost before: seq<Event>)
    returns (outcome: Outcome, ghost trace: seq<Event>)
    requires id in c.calls && c.calls[id].phase.Failing? && Reached(c, id, c.calls[id].phase, start, before)
    modifies c
    ensures outcome == Failed(old(c.calls[id].phase.failure)) && Reached(c, id, Done(outcome), start, trace)
    ensures CallMessage(c, id) == old(CallMessage(c, id)) && c.calls[id].offset == old(c.calls[id].offset)
  {
    hide Run;
    RunSnoc(start, before, Unregister(id));
    c.CleanUpPending(id);
    trace := Meanwhile(c, id, turn, start, before + [Unregister(id)]);
    outcome, trace := Leave(c, id, start, trace);
  }

  method Leave(c: ConnectionHandle, id: int, ghost start: ClientState, ghost before: seq<Event>)
    returns (outcome: Outcome, ghost trace: seq<Event>)
    requires id in c.calls && c.calls[id].phase.Closing? && Reached(c, id, c.calls[id].phase, start, before)
    modifies c
    ensures outcome == old(c.calls[id].phase.outcome) && Reached(c, id, Done(outcome), start, trace)
    ensures CallMessage(c, id) == old(CallMessage(c, id)) && c.calls[id].offset == old(c.calls[id].offset)
  {
    hide Run;
    RunSnoc(start, before, Untrack(id));
    outcome := c.CleanUpOutgoing(id);
    trace := before + [Untrack(id)];
  }

  /** Call `id` sends this message and is in this phase with this much of the body enqueued, after `trace`. */
  ghost predicate Sent(c: ConnectionHandle, id: int, phase: Phase, msg: Message, offset: nat,
                       start: ClientState, trace: seq<Event>)
    reads c
  {
    Reached(c, id, phase, start, trace) && CallMessage(c, id) == msg && c.calls[id].offset == offset
  }

  method Open(c: ConnectionHandle, args: Arguments) returns (id: int, ghost trace: seq<Event>)
    requires !c.closed
    modifies c
    ensures id == old(c.nextRequestId) && Sent(c, id, Created, Requested(id, args), 0, old(c.State()), trace)
  {
    hide RequestHeader;
    ghost var start := c.State();
    trace := [Start(args)];
    RunSnoc(start, [], Start(args));
    RunNothing(start);
    assert [] + [Start(args)] == trace;
    var r := c.OpenCall(args);
    id := r.value;
  }

  lemma RunNothing(c: ClientState)
    ensures Run(c, []) == c
  {
  }

  method HeaderSection(c: ConnectionHandle, id: int, sendOk: bool, ghost msg: Message,
                       ghost start: ClientState, ghost before: seq<Event>)
    returns (ghost trace: seq<Event>)
    requires Sent(c, id, Created, msg, 0, start, before)
    modifies c
    ensures Sent(c, id, if sendOk then Sending else Failing(SendFailed), msg, 0, start, trace)
  {
    hide Run;
    trace := before + [Begin(id, sendOk)];
    RunSnoc(start, before, Begin(id, sendOk));
    c.SendHeader(id, sendOk);
  }

  method WindowSection(c: ConnectionHandle, id: int, ghost msg: Message, ghost offset: nat,
                       ghost start: ClientState, ghost before: seq<Event>)
    returns (phase: Phase, ghost trace: seq<Event>)
    requires Sent(c, id, Sending, msg, offset, start, before) && offset < |msg.body|
    modifies c
    ensures Sent(c, id, phase, msg, offset, start, trace)
    ensures phase == Failing(ClosedInFlowControl) || phase == Sending || phase == Cleared
  {
    hide Run, OverWatermark;
    trace := before + [Check(id)];
    RunSnoc(start, before, Check(id));
    c.FlowControl(id);
    phase := c.calls[id].phase;
  }

  method DataSection(c: ConnectionHandle, id: int, sendOk: bool, ghost msg: Message, ghost offset: nat,
                     ghost start: ClientState, ghost before: seq<Event>)
    returns (ghost trace: seq<Event>)
    requires Sent(c, id, Cleared, msg, offset, start, before) && offset < |msg.body|
    modifies c
    ensures Sent(c, id, if sendOk then Counting else Failing(SendFailed), msg, offset, start, trace)
  {
    hide Run, ChunkEnd;
    trace := before + [Chunk(id, sendOk)];
    RunSnoc(start, before, Chunk(id, sendOk));
    c.SendChunk(id, sendOk);
  }

  method CountSection(c: ConnectionHandle, id: int, ghost msg: Message, ghost offset: nat,
                      ghost start: ClientState, ghost before: seq<Event>)
    returns (ghost trace: seq<Event>)
    requires Sent(c, id, Counting, msg, offset, start, before) && offset < |msg.body|
    modifies c
    ensures Sent(c, id, Sending, msg, ChunkEnd(|msg.body|, offset), start, trace)
  {
    hide Run, ChunkEnd;
    trace := before + [Count(id)];
    RunSnoc(start, before, Count(id));
    c.CountSent(id);
  }

  method EofSection(c: ConnectionHandle, id: int, sendOk: bool, ghost msg: Message,
                    ghost start: ClientState, ghost before: seq<Event>)
    returns (ghost trace: seq<Event>)
    requires Sent(c, id, Sending, msg, |msg.body|, start, before)
    modifies c
    ensures Sent(c, id, if sendOk then Awaiting else Failing(SendFailed), msg, |msg.body|, start, trace)
  {
    hide Run;
    trace := before + [End(id, sendOk)];
    RunSnoc(start, before, End(id, sendOk));
    c.SendEof(id, sendOk);
  }

  method ReplySection(c: ConnectionHandle, id: int, expired: bool, ghost msg: Message, ghost offset: nat,
                  ghost start: ClientState, ghost before: seq<Event>)
    returns (phase: Phase, ghost trace: seq<Event>)
    requires Sent(c, id, Awaiting, msg, offset, start, before)
    modifies c
    ensures Sent(c, id, phase, msg, offset, start, trace)
    ensures phase == if expired then Failing(TimedOut)
                     else if id in old(c.delivered) then Closing(Replied(old(c.delivered)[id]))
                     else if id !in old(c.pending) then Closing(Failed(ReplyLost))
                     else Awaiting
  {
    hide Run, Apply;
    AwaitSteps(c.State(), id);
    if expired {
      trace := before + [Expire(id)];
      RunSnoc(start, before, Expire(id));
      c.AwaitReply(id, true);
    } else {
      trace := before + [Take(id)];
      RunSnoc(start, before, Take(id));
      c.AwaitReply(id, false);
    }
    phase := c.calls[id].phase;
  }

  lemma AwaitSteps(c: ClientState, id: int)
    ensures Apply(c, Expire(id)) == TimeOut(c, id) && Apply(c, Take(id)) == TakeReply(c, id)
  {
    hide TimeOut, TakeReply;
  }

  /** An await of the call itself. */
  method Wait(c: ConnectionHandle, id: int, turn: Turn, phase: Phase, ghost msg: Message, ghost offset: nat,
              ghost start: ClientState, ghost before: seq<Event>)
    returns (ghost trace: seq<Event>)
    requires Sent(c, id, phase, msg, offset, start, before)
    modifies c
    ensures Sent(c, id, phase, msg, offset, start, trace)
  {
    hide Run;
    trace := Meanwhile(c, id, turn, start, before);
  }

  /** An await on which the writer task has gone: the call gives up. */
  method GiveUp(c: ConnectionHandle, id: int, turn: Turn, failure: Failure, ghost msg: Message, ghost offset: nat,
                ghost start: ClientState, ghost before: seq<Event>)
    returns (outcome: Option<Outcome>, ghost trace: seq<Event>)
    requires Sent(c, id, Failing(failure), msg, offset, start, before)
    modifies c
    ensures outcome == Some(Failed(failure)) && Sent(c, id, Done(outcome.value), msg, offset, start, trace)
  {
    hide Run;
    var o;
    o, trace := CleanUp(c, id, turn, start, before);
    outcome := Some(o);
  }

  /** `send_request`, given what each of its awaits brings. Nothing comes back for a closed connection, nor while the
      call still waits when the turns run out. The run it is part of starts at the state it finds;
      the call of the new id sends what was asked for, and an outcome is what it has ended with in that run. */
  method SendRequest(c: ConnectionHandle, args: Arguments, turns: seq<Turn>)
    returns (outcome: Option<Outcome>, ghost trace: seq<Event>)
    modifies c
    ensures c.State() == Run(old(c.State()), trace)
    ensures old(c.closed) ==> outcome.None? && trace == []
    ensures !old(c.closed) ==>
              var id := old(c.nextRequestId);
              id in c.calls && Asks(c.calls[id], id, args)
    ensures outcome.Some? ==> Reached(c, old(c.nextRequestId), Done(outcome.value), old(c.State()), trace)
  {
    hide Run, Sent, Reached, ChunkEnd, RequestHeader;
    ghost var start := c.State();
    var body := args.body;
    outcome := None;
    if c.closed {
      RunNothing(start);
      trace := [];
      return;
    }
    var id;
    id, trace := Open(c, args);
    ghost var msg := Requested(id, args);
    UseSent(c, id, Created, msg, 0, start, trace);
    if |turns| < 2 {
      return;
    }
    trace := Wait(c, id, turns[0], Created, msg, 0, start, trace);
    // HEADER
    var sendOk := turns[1].sendOk;
    trace := HeaderSection(c, id, sendOk, msg, start, trace);
    trace := Wait(c, id, turns[1], if sendOk then Sending else Failing(SendFailed), msg, 0, start, trace);
    if !sendOk {
      outcome, trace := GiveUp(c, id, turns[1], SendFailed, msg, 0, start, trace);
      UseSent(c, id, Done(outcome.value), msg, 0, start, trace);
      return;
    }
    // DATA chunks
    var t, offset := 2, 0;
    while offset < |body|
      invariant 0 <= offset <= |body| && Sent(c, id, Sending, msg, offset, start, trace)
    {
      var phase := Sending;
      while phase != Cleared
        invariant phase == Sending || phase == Cleared
        invariant Sent(c, id, phase, msg, offset, start, trace)
        decreases |turns| - t, if phase == Cleared then 0 else 1
      {
        phase, trace := WindowSection(c, id, msg, offset, start, trace);
        UseSent(c, id, phase, msg, offset, start, trace);
        if phase == Failing(ClosedInFlowControl) {
          if t >= |turns| {
            return;
          }
          outcome, trace := GiveUp(c, id, turns[t], ClosedInFlowControl, msg, offset, start, trace);
          UseSent(c, id, Done(outcome.value), msg, offset, start, trace);
          return;
        }
        if phase == Sending {
          if t >= |turns| {
            return;
          }
          trace := Wait(c, id, turns[t], Sending, msg, offset, start, trace);
          t := t + 1;
        }
      }
      UseSent(c, id, Cleared, msg, offset, start, trace);
      if t >= |turns| {
        return;
      }
      sendOk := turns[t].sendOk;
      trace := DataSection(c, id, sendOk, msg, offset, start, trace);
      trace := Wait(c, id, turns[t], if sendOk then Counting else Failing(SendFailed), msg, offset, start, trace);
      if !sendOk {
        outcome, trace := GiveUp(c, id, turns[t], SendFailed, msg, offset, start, trace);
        UseSent(c, id, Done(outcome.value), msg, offset, start, trace);
        return;
      }
      trace := CountSection(c, id, msg, offset, start, trace);
      t, offset := t + 1, ChunkEnd(|body|, offset);
    }
    UseSent(c, id, Sending, msg, offset, start, trace);
    if t >= |turns| {
      return;
    }
    // EOF
    sendOk := turns[t].sendOk;
    trace := EofSection(c, id, sendOk, msg, start, trace);
    trace := Wait(c, id, turns[t], if sendOk then Awaiting else Failing(SendFailed), msg, offset, start, trace);
    if !sendOk {
      outcome, trace := GiveUp(c, id, turns[t], SendFailed, msg, offset, start, trace);
      UseSent(c, id, Done(outcome.value), msg, offset, start, trace);
      return;
    }
    t := t + 1;
    // the reply, or the timeout
    while t < |turns|
      invariant Sent(c, id, Awaiting, msg, offset, start, trace)
    {
      trace := Wait(c, id, turns[t], Awaiting, msg, offset, start, trace);
      var phase;
      phase, trace := ReplySection(c, id, turns[t].expired, msg, offset, start, trace);
      if phase == Failing(TimedOut) {
        outcome, trace := GiveUp(c, id, turns[t], TimedOut, msg, offset, start, trace);
        UseSent(c, id, Done(outcome.value), msg, offset, start, trace);
        return;
      }
      if phase.Closing? {
        trace := Wait(c, id, turns[t], phase, msg, offset, start, trace);
        UseSent(c, id, phase, msg, offset, start, trace);
        outcome, trace := Returned(c, id, start, trace);
        return;
      }
      t := t + 1;
    }
    UseSent(c, id, Awaiting, msg, offset, start, trace);
  }

  method Returned(c: ConnectionHandle, id: int, ghost start: ClientState, ghost before: seq<Event>)
    returns (outcome: Option<Outcome>, ghost trace: seq<Event>)
    requires id in c.calls && c.calls[id].phase.Closing? && Reached(c, id, c.calls[id].phase, start, before)
    modifies c
    ensures outcome == Some(old(c.calls[id].phase.outcome)) && Reached(c, id, Done(outcome.value), start, trace)
    ensures id in c.calls && CallMessage(c, id) == old(CallMessage(c, id))
    ensures forall args :: old(Asks(c.calls[id], id, args)) ==> Asks(c.calls[id], id, args)
    ensures c.State() == Run(start, trace)
  {
    hide Run;
    var o;
    o, trace := Leave(c, id, start, before);
    outcome := Some(o);
  }

  lemma UseSent(c: ConnectionHandle, id: int, phase: Phase, msg: Message, offset: nat,
                start: ClientState, trace: seq<Event>)
    requires Sent(c, id, phase, msg, offset, start, trace)
    ensures Reached(c, id, phase, start, trace)
    ensures id in c.calls && c.calls[id].phase == phase && CallMessage(c, id) == msg && c.State() == Run(start, trace)
    ensures forall args :: msg == Requested(id, args) ==> Asks(c.calls[id], id, args)
  {
  }

  lemma {:induction false} RunConcat(c: ClientState, events: seq<Event>, more: seq<Event>)
    ensures Run(c, events + more) == Run(Run(c, events), more)
  {
    hide Apply;
    if more == [] {
      assert events + more == events;
    } else {
      assert (events + more)[..|events + more| - 1] == events + more[..|more| - 1];
      RunConcat(c, events, more[..|more| - 1]);
    }
  }

  /** Whatever came before and happens meanwhile: when `send_request` returns, its id has left the pending map exactly
      once; a reply it returns is the one response delivered to it; and it never reports a reply channel
      that was dropped without a response. */
  lemma ReturnedOnce(events: seq<Event>, trace: seq<Event>, id: int, outcome: Outcome)
    requires In(Run(Run(START, events), trace), id, Done(outcome))
    ensures
      var c := Run(Run(START, events), trace);
      && id !in c.pending && |ExitsOf(c.exits, id)| == 1
      && outcome != Failed(ReplyLost)
      && (outcome.Replied? ==> id in c.delivered && c.delivered[id] == outcome.response)
  {
    hide Run;
    RunConcat(START, events, trace);
    ClientTheorems.PendingConserved(events + trace, id);
  }
}
