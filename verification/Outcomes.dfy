/** How calls end: each for a reason that can be read off the run, and a call whose reply has come returns it. */
module Outcomes {
  import opened Messages
  import opened Client
  import opened ClientInvariant
  import opened ClientTheorems
  import opened SendRequest

  // ---------------------------------------------------------------- why a call failed

  /** Event `k` of a run is this one and finds call `id` in this phase. */
  ghost predicate Finds(events: seq<Event>, k: int, e: Event, id: int, phase: Phase) {
    0 <= k < |events| && events[k] == e && In(Run(START, events[..k]), id, phase)
  }

  /** Something in the run makes a call fail in this way. */
  ghost predicate Reason(events: seq<Event>, id: int, failure: Failure) {
    match failure
    case TimedOut => exists k :: Finds(events, k, Expire(id), id, Awaiting)
    case SendFailed => exists k ::
      Finds(events, k, Begin(id, false), id, Created) || Finds(events, k, Chunk(id, false), id, Cleared)
      || Finds(events, k, End(id, false), id, Sending)
    case ClosedInFlowControl => exists k ::
      Finds(events, k, Check(id), id, Sending) && Run(START, events[..k]).closed
    case ReplyLost => false
  }

  predicate FailedWith(phase: Phase, failure: Failure) {
    phase == Failing(failure) || phase == Closing(Failed(failure)) || phase == Done(Failed(failure))
  }

  predicate RepliedWith(phase: Phase, r: Response) {
    phase == Closing(Replied(r)) || phase == Done(Replied(r))
  }

  ghost predicate Taken(events: seq<Event>, id: int, r: Response) {
    exists k :: Finds(events, k, Take(id), id, Awaiting)
                && id in Run(START, events[..k]).delivered && Run(START, events[..k]).delivered[id] == r
  }

  lemma FindsStays(events: seq<Event>, last: Event, k: int, e: Event, id: int, phase: Phase)
    requires Finds(events, k, e, id, phase)
    ensures Finds(events + [last], k, e, id, phase) && (events + [last])[..k] == events[..k]
  {
    hide Run;
    assert (events + [last])[..k] == events[..k];
  }

  lemma ReasonStays(events: seq<Event>, last: Event, id: int, failure: Failure)
    requires Reason(events, id, failure)
    ensures Reason(events + [last], id, failure)
  {
    hide Run;
    var more := events + [last];
    match failure {
      case TimedOut =>
        var k :| Finds(events, k, Expire(id), id, Awaiting);
        FindsStays(events, last, k, Expire(id), id, Awaiting);
      case SendFailed =>
        if k :| Finds(events, k, Begin(id, false), id, Created) {
          FindsStays(events, last, k, Begin(id, false), id, Created);
        } else if k :| Finds(events, k, Chunk(id, false), id, Cleared) {
          FindsStays(events, last, k, Chunk(id, false), id, Cleared);
        } else {
          var k :| Finds(events, k, End(id, false), id, Sending);
          FindsStays(events, last, k, End(id, false), id, Sending);
        }
      case ClosedInFlowControl =>
        var k :| Finds(events, k, Check(id), id, Sending) && Run(START, events[..k]).closed;
        FindsStays(events, last, k, Check(id), id, Sending);
      case ReplyLost =>
    }
  }

  lemma TakenStays(events: seq<Event>, last: Event, id: int, r: Response)
    requires Taken(events, id, r)
    ensures Taken(events + [last], id, r)
  {
    hide Run;
    var k :| Finds(events, k, Take(id), id, Awaiting)
             && id in Run(START, events[..k]).delivered && Run(START, events[..k]).delivered[id] == r;
    FindsStays(events, last, k, Take(id), id, Awaiting);
  }

  /** What makes a call fail now. */
  predicate Cause(c: ClientState, e: Event, id: int, failure: Failure) {
    match failure
    case TimedOut => e == Expire(id) && In(c, id, Awaiting)
    case SendFailed =>
      (e == Begin(id, false) && In(c, id, Created)) || (e == Chunk(id, false) && In(c, id, Cleared))
      || (e == End(id, false) && In(c, id, Sending))
    case ClosedInFlowControl => e == Check(id) && In(c, id, Sending) && c.closed
    case ReplyLost => false
  }

  predicate TakesNow(c: ClientState, e: Event, id: int, r: Response) {
    e == Take(id) && In(c, id, Awaiting) && id in c.delivered && c.delivered[id] == r
  }

  /** A step of a call brings a failure or a reply only for its reason. */
  ghost predicate Justified(c: ClientState, c': ClientState, e: Event, id: int)
    requires id in c.calls && id in c'.calls
  {
    var phase, phase' := c.calls[id].phase, c'.calls[id].phase;
    && (forall f :: FailedWith(phase', f) && !FailedWith(phase, f) ==> Cause(c, e, id, f))
    && (forall r :: RepliedWith(phase', r) && !RepliedWith(phase, r) ==> TakesNow(c, e, id, r))
  }

  lemma BeginJustified(c: ClientState, id: int, sendOk: bool)
    requires id in c.calls
    ensures Justified(c, BeginMessage(c, id, sendOk), Begin(id, sendOk), id)
  {
    if In(c, id, Created) {
    } else {
    }
  }

  lemma CheckJustified(c: ClientState, id: int)
    requires id in c.calls
    ensures Justified(c, CheckWindow(c, id), Check(id), id)
  {
    hide OverWatermark;
    if In(c, id, Sending) {
    } else {
    }
  }

  lemma EndJustified(c: ClientState, id: int, sendOk: bool)
    requires id in c.calls
    ensures Justified(c, EnqueueEof(c, id, sendOk), End(id, sendOk), id)
  {
    if In(c, id, Sending) {
    } else {
    }
  }

  lemma ChunksJustified(c: ClientState, id: int, sendOk: bool)
    requires id in c.calls
    ensures Justified(c, EnqueueChunk(c, id, sendOk), Chunk(id, sendOk), id)
    ensures Justified(c, CountChunk(c, id), Count(id), id)
  {
    hide ChunkEnd;
    if In(c, id, Cleared) {
    } else if In(c, id, Counting) {
    } else {
    }
  }

  /** A call that waits has its reply channel, or its response. */
  lemma AwaitingIsKnown(c: ClientState, id: int)
    requires Inv(c) && In(c, id, Awaiting)
    ensures id in c.delivered || id in c.pending
  {
    hide Inv, SentFits, Tracked;
    Fits(c, id);
  }

  lemma TakeJustified(c: ClientState, id: int)
    requires Inv(c) && id in c.calls
    ensures Justified(c, TakeReply(c, id), Take(id), id)
  {
    hide Inv;
    if In(c, id, Awaiting) {
      AwaitingIsKnown(c, id);
    }
  }

  lemma ExpireJustified(c: ClientState, id: int)
    requires id in c.calls
    ensures Justified(c, TimeOut(c, id), Expire(id), id)
  {
    if In(c, id, Awaiting) {
    } else {
    }
  }

  lemma LeaversJustified(c: ClientState, id: int)
    requires id in c.calls
    ensures Justified(c, RemovePending(c, id), Unregister(id), id)
    ensures Justified(c, RemoveOutgoing(c, id), Untrack(id), id)
  {
    hide WithExits;
    if c.calls[id].phase.Failing? {
    } else if c.calls[id].phase.Closing? {
    } else {
    }
  }

  lemma OwnJustified(c: ClientState, e: Event, id: int)
    requires Inv(c) && !Foreign(e, id) && id in c.calls && id in Apply(c, e).calls
    ensures Justified(c, Apply(c, e), e, id)
  {
    hide Inv, BeginMessage, CheckWindow, EnqueueChunk, CountChunk, EnqueueEof, TakeReply, TimeOut, RemovePending,
         RemoveOutgoing, Justified;
    match e {
      case Begin(_, sendOk) => BeginJustified(c, id, sendOk);
      case Check(_) => CheckJustified(c, id);
      case Chunk(_, sendOk) => ChunksJustified(c, id, sendOk);
      case Count(_) => ChunksJustified(c, id, true);
      case End(_, sendOk) => EndJustified(c, id, sendOk);
      case Take(_) => TakeJustified(c, id);
      case Expire(_) => ExpireJustified(c, id);
      case Unregister(_) => LeaversJustified(c, id);
      case Untrack(_) => LeaversJustified(c, id);
    }
  }

  lemma SendersKeepCalls(c: ClientState, id: int, sendOk: bool)
    ensures BeginMessage(c, id, sendOk).calls.Keys == CheckWindow(c, id).calls.Keys == c.calls.Keys
    ensures EnqueueEof(c, id, sendOk).calls.Keys == c.calls.Keys
  {
    hide OverWatermark;
  }

  lemma ChunksKeepCalls(c: ClientState, id: int, sendOk: bool)
    ensures EnqueueChunk(c, id, sendOk).calls.Keys == CountChunk(c, id).calls.Keys == c.calls.Keys
  {
    hide ChunkEnd;
  }

  lemma TakeKeepsCalls(c: ClientState, id: int)
    ensures TakeReply(c, id).calls.Keys == c.calls.Keys
  {
    if !In(c, id, Awaiting) {
    } else if id in c.delivered {
    } else if id !in c.pending {
    } else {
    }
  }

  lemma ExpireKeepsCalls(c: ClientState, id: int)
    ensures TimeOut(c, id).calls.Keys == c.calls.Keys
  {
  }

  lemma LeaversKeepCalls(c: ClientState, id: int)
    ensures RemovePending(c, id).calls.Keys == RemoveOutgoing(c, id).calls.Keys == c.calls.Keys
  {
    hide WithExits;
  }

  /** A call that has just been opened is at its beginning. */
  lemma NewCall(c: ClientState, e: Event, id: int)
    requires id !in c.calls && id in Apply(c, e).calls
    ensures In(Apply(c, e), id, Created)
  {
    hide BeginMessage, CheckWindow, EnqueueChunk, CountChunk, EnqueueEof, TakeReply, TimeOut, RemovePending,
         RemoveOutgoing, Receive, WithExits, RequestHeader;
    match e {
      case Packet(p, sendOk) => ReceiveScope(c, p, sendOk);
      case Start(_) =>
      case Begin(j, sendOk) => SendersKeepCalls(c, j, sendOk);
      case Check(j) => SendersKeepCalls(c, j, true);
      case Chunk(j, sendOk) => ChunksKeepCalls(c, j, sendOk);
      case Count(j) => ChunksKeepCalls(c, j, true);
      case End(j, sendOk) => SendersKeepCalls(c, j, sendOk);
      case Take(j) => TakeKeepsCalls(c, j);
      case Expire(j) => ExpireKeepsCalls(c, j);
      case Unregister(j) => LeaversKeepCalls(c, j);
      case Untrack(j) => LeaversKeepCalls(c, j);
      case Stop(_) =>
      case Close =>
    }
  }

  /** Whoever the peer is and however calls interleave: a call ends, or is about to end, with a failure only for its
      reason. It timed out if its timer ran out while it waited; a packet could not be sent if the writer task
      refused one of its packets; it was closed if it found the connection closed at the window check;
      and it never ends for a lost reply. A reply it returns was delivered to it before it took it. */
  lemma {:induction false} WhyEnded(events: seq<Event>, id: int)
    ensures
      var c := Run(START, events);
      id in c.calls ==>
        && (forall f :: FailedWith(c.calls[id].phase, f) ==> Reason(events, id, f))
        && (forall r :: RepliedWith(c.calls[id].phase, r) ==> Taken(events, id, r))
  {
    hide Inv, Apply, Reason, Taken;
    if events != [] {
      var front, e := events[..|events| - 1], events[|events| - 1];
      assert events == front + [e];
      WhyEnded(front, id);
      Reachable(front);
      var c, c' := Run(START, front), Run(START, events);
      assert c' == Apply(c, e);
      if id in c'.calls {
        if id !in c.calls {
          NewCall(c, e, id);
        } else {
          StepWhy(front, e, id);
        }
      }
    }
  }

  lemma StepWhy(front: seq<Event>, e: Event, id: int)
    requires
      var c := Run(START, front);
      && Inv(c) && id in c.calls && id in Apply(c, e).calls
      && (forall f :: FailedWith(c.calls[id].phase, f) ==> Reason(front, id, f))
      && (forall r :: RepliedWith(c.calls[id].phase, r) ==> Taken(front, id, r))
    ensures
      var phase := Apply(Run(START, front), e).calls[id].phase;
      && (forall f :: FailedWith(phase, f) ==> Reason(front + [e], id, f))
      && (forall r :: RepliedWith(phase, r) ==> Taken(front + [e], id, r))
  {
    hide Inv, Apply, Run;
    var c, c' := Run(START, front), Apply(Run(START, front), e);
    var events := front + [e];
    assert events[..|front|] == front;
    if Foreign(e, id) {
      BelowNextId(c, id);
      ForeignKeeps(c, e, id);
    } else {
      OwnJustified(c, e, id);
    }
    forall f | FailedWith(c'.calls[id].phase, f) ensures Reason(events, id, f) {
      if FailedWith(c.calls[id].phase, f) {
        ReasonStays(front, e, id, f);
      } else {
        assert Cause(c, e, id, f);
        assert Finds(events, |front|, e, id, c.calls[id].phase);
      }
    }
    forall r | RepliedWith(c'.calls[id].phase, r) ensures Taken(events, id, r) {
      if RepliedWith(c.calls[id].phase, r) {
        TakenStays(front, e, id, r);
      } else {
        assert TakesNow(c, e, id, r);
        assert Finds(events, |front|, e, id, c.calls[id].phase);
      }
    }
  }

  // ---------------------------------------------------------------- a call whose reply has come returns it

  predicate AllForeign(others: seq<Event>, id: int) {
    forall i :: 0 <= i < |others| ==> Foreign(others[i], id)
  }

  /** Whatever others do, the local variables of a call stay. */
  lemma {:induction false} ForeignRun(c: ClientState, others: seq<Event>, id: int)
    requires AllForeign(others, id) && id in c.calls && id < c.nextRequestId
    ensures Untouched(c, Run(c, others), id)
  {
    hide Apply, Foreign;
    if others != [] {
      var front := others[..|others| - 1];
      ForeignRun(c, front, id);
      ForeignKeeps(Run(c, front), others[|others| - 1], id);
    }
  }

  lemma ForeignAfter(events: seq<Event>, others: seq<Event>, id: int)
    requires AllForeign(others, id) && id in Run(START, events).calls
    ensures Untouched(Run(START, events), Run(START, events + others), id)
  {
    hide Apply, Run, AllForeign, Inv;
    Reachable(events);
    BelowNextId(Run(START, events), id);
    ForeignRun(Run(START, events), others, id);
    RunConcat(START, events, others);
  }

  lemma GivenUp(c: ClientState, id: int, failure: Failure)
    requires In(c, id, Failing(failure))
    ensures In(Apply(c, Unregister(id)), id, Closing(Failed(failure)))
  {
    hide WithExits;
  }

  lemma Left(c: ClientState, id: int, outcome: Outcome)
    requires In(c, id, Closing(outcome))
    ensures
      var c' := Apply(c, Untrack(id));
      In(c', id, Done(outcome)) && c'.calls[id].msgNo !in c'.outgoing
  {
  }

  /** Whenever a waiting call looks and its response has been delivered, it returns exactly that, whatever others do
      before it has cleaned up. */
  lemma ReplyTaken(events: seq<Event>, others: seq<Event>, id: int)
    requires
      var c := Run(START, events);
      In(c, id, Awaiting) && id in c.delivered && AllForeign(others, id)
    ensures
      var c, c' := Run(START, events), Run(START, events + [Take(id)] + others + [Untrack(id)]);
      In(c', id, Done(Replied(c.delivered[id]))) && c'.calls[id].msgNo !in c'.outgoing
  {
    hide Run, AllForeign;
    var c := Run(START, events);
    RunSnoc(START, events, Take(id));
    ForeignAfter(events + [Take(id)], others, id);
    RunSnoc(START, events + [Take(id)] + others, Untrack(id));
    Left(Run(START, events + [Take(id)] + others), id, Replied(c.delivered[id]));
  }

  /** A call that gives up for any reason ends with that failure, and its id and its number are forgotten. */
  lemma FailureReturned(events: seq<Event>, others: seq<Event>, more: seq<Event>, id: int, failure: Failure)
    requires In(Run(START, events), id, Failing(failure)) && AllForeign(others, id) && AllForeign(more, id)
    ensures
      var c := Run(START, events + others + [Unregister(id)] + more + [Untrack(id)]);
      In(c, id, Done(Failed(failure))) && id !in c.pending && c.calls[id].msgNo !in c.outgoing
  {
    hide Run, AllForeign, Apply;
    ForeignAfter(events, others, id);
    RunSnoc(START, events + others, Unregister(id));
    GivenUp(Run(START, events + others), id, failure);
    ForeignAfter(events + others + [Unregister(id)], more, id);
    RunSnoc(START, events + others + [Unregister(id)] + more, Untrack(id));
    Left(Run(START, events + others + [Unregister(id)] + more), id, Failed(failure));
    PendingConserved(events + others + [Unregister(id)] + more + [Untrack(id)], id);
  }

  /** A call whose timer runs out while it waits ends with the timeout, even if its response has just come. */
  lemma TimeoutReturned(events: seq<Event>, others: seq<Event>, more: seq<Event>, id: int)
    requires In(Run(START, events), id, Awaiting) && AllForeign(others, id) && AllForeign(more, id)
    ensures
      var c := Run(START, events + [Expire(id)] + others + [Unregister(id)] + more + [Untrack(id)]);
      In(c, id, Done(Failed(TimedOut))) && id !in c.pending && c.calls[id].msgNo !in c.outgoing
  {
    hide Run, AllForeign;
    RunSnoc(START, events, Expire(id));
    FailureReturned(events + [Expire(id)], others, more, id, TimedOut);
  }

  /** A waiting call whose response has not come goes on waiting. */
  lemma StillWaits(events: seq<Event>, id: int)
    requires
      var c := Run(START, events);
      In(c, id, Awaiting) && id !in c.delivered
    ensures Run(START, events + [Take(id)]) == Run(START, events)
  {
    hide Run, Inv, SentFits, Tracked;
    Reachable(events);
    Fits(Run(START, events), id);
    RunSnoc(START, events, Take(id));
  }
}
