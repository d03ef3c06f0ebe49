/** Replies get through: the server keeps the connection open, and when everything sent has arrived no call still
    waits without its response. */
module Completion {
  import opened Wrappers
  import opened Packets
  import opened Messages
  import opened Client
  import opened ClientInvariant
  import opened ReplyStream
  import opened System
  import opened SystemTheorems
  import opened Traffic
  import ClientTheorems
  import SendRequest
  import SystemInvariant
  import Server

  // ---------------------------------------------------------------- the server's sequence check

  lemma HeadersNumberedPrefix(log: seq<Packets.Packet>, n: nat)
    requires n <= |log| && HeadersNumbered(log)
    ensures HeadersNumbered(log[..n])
  {
    forall i | 0 <= i < n && log[..n][i].packetType.Header? ensures log[..n][i].msgNo == HeaderCount(log[..n][..i]) {
      assert log[..n][..i] == log[..i];
    }
  }

  lemma HeadersNumberedLast(log: seq<Packets.Packet>, p: Packets.Packet)
    ensures HeadersNumbered(log + [p])
        <==> HeadersNumbered(log) && (p.packetType.Header? ==> p.msgNo == HeaderCount(log))
  {
    var longer := log + [p];
    if HeadersNumbered(longer) {
      HeadersNumberedPrefix(longer, |log|);
      assert longer[..|log|] == log && longer[|log|] == p;
    } else if p.packetType.Header? ==> p.msgNo == HeaderCount(log) {
      if HeadersNumbered(log) {
        HeadersNumberedSnoc(log, p);
      }
    }
  }

  /** The server counts the HEADERs it has taken, and while its writer works it is open exactly if they came in
      order. */
  ghost predicate Counting(s: State) {
    && (s.open ==> s.server.nextIn == HeaderCount(ServerLog(s)))
    && (s.server.budget > 0 ==> (s.open <==> HeadersNumbered(ServerLog(s))))
  }

  lemma RouteCounts(service: Server.Service, s: Server.ServerState, p: Packets.Packet)
    ensures
      var (s', ok) := Server.Route(service, s, p);
      && s'.budget <= s.budget
      && (ok ==> s'.nextIn == s.nextIn + (if p.packetType.Header? then 1 else 0))
      && (s'.budget > 0 ==> (ok <==> (p.packetType.Header? ==> p.msgNo == s.nextIn)))
  {
    hide Full, Server.Respond, Server.Acknowledge, InvalidTxerr, AckPacket;
    match p.packetType {
      case Header =>
      case Data =>
      case Eof =>
      case Txerr =>
      case Ack =>
      case Ping =>
      case Pong =>
    }
  }

  lemma ServerCounts(service: Server.Service, s: State)
    requires Counting(s) && s.open && s.serverGot < |s.client.queue|
    ensures Counting(Step(service, s, ServerReceives))
  {
    hide Server.Route, HeadersNumbered, HeaderCount;
    var p, log := s.client.queue[s.serverGot], ServerLog(s);
    var s' := Step(service, s, ServerReceives);
    assert ServerLog(s') == log + [p];
    RouteCounts(service, s.server, p);
    HeaderCountSnoc(log, p);
    HeadersNumberedLast(log, p);
  }

  lemma StepCounts(service: Server.Service, s: State, move: Move)
    requires SystemInv(service, s) && Counting(s)
    ensures Counting(Step(service, s, move))
  {
    hide Apply, Receive, Server.Route, HeadersNumbered, HeaderCount, ServerSide, ReaderSide, AllAcknowledged,
         AllAnswered, Replying, Inv;
    match move {
      case Local(e) =>
        if !e.Packet? {
          LocalAppends(s.client, e);
          SameServerLog(s, Step(service, s, move));
        }
      case ServerReceives =>
        if s.open && s.serverGot < |s.client.queue| {
          ServerCounts(service, s);
        }
      case ClientReceives(sendOk) =>
        if s.client.reading && s.clientGot < |s.server.wire| {
          SystemInvariant.ReceiveFrame(s.client, s.server.wire[s.clientGot], sendOk);
          SameServerLog(s, Step(service, s, move));
        }
    }
  }

  lemma SameServerLog(s: State, s': State)
    requires s.serverGot <= |s.client.queue| && s.client.queue <= s'.client.queue && s'.serverGot == s.serverGot
    ensures ServerLog(s') == ServerLog(s)
  {
  }

  lemma {:induction false} ExecuteCounts(service: Server.Service, budget: nat, moves: seq<Move>)
    ensures Counting(Execute(service, budget, moves))
  {
    hide Counting, SystemInv, Step;
    if moves == [] {
      NothingCounted(budget);
    } else {
      ExecuteCounts(service, budget, moves[..|moves| - 1]);
      SystemInvariant.ExecuteKeeps(service, budget, moves[..|moves| - 1]);
      StepCounts(service, Execute(service, budget, moves[..|moves| - 1]), moves[|moves| - 1]);
    }
  }

  lemma NothingCounted(budget: nat)
    ensures Counting(Initial(budget))
  {
  }

  /** While the server's writer works, the connection is open exactly if the HEADERs the server has received are
      numbered 0, 1, 2, ... */
  lemma OpenExactly(service: Server.Service, budget: nat, moves: seq<Move>)
    requires Execute(service, budget, moves).server.budget > 0
    ensures
      var s := Execute(service, budget, moves);
      s.open <==> HeadersNumbered(ServerLog(s))
  {
    hide Execute, HeadersNumbered, HeaderCount, ServerLog;
    ExecuteCounts(service, budget, moves);
  }

  // ---------------------------------------------------------------- what the client sends is in order

  predicate FailedBegin(move: Move) {
    move.Local? && move.e.Begin? && !move.e.sendOk
  }

  predicate SentBegin(move: Move) {
    move.Local? && move.e.Begin? && move.e.sendOk
  }

  /** The channel to the writer task that has failed once stays closed: no HEADER is sent after one that was not. */
  predicate FailsForGood(moves: seq<Move>) {
    forall i, j :: 0 <= i < j < |moves| && FailedBegin(moves[i]) ==> !SentBegin(moves[j])
  }

  predicate SomeFailed(moves: seq<Move>) {
    exists i :: 0 <= i < |moves| && FailedBegin(moves[i])
  }

  ghost predicate InOrder(c: ClientState, failed: bool) {
    HeadersNumbered(c.queue) && (failed || HeaderCount(c.queue) == c.nextMsgNo)
  }

  /** Nothing but a message that begins takes a number or sends a HEADER. */
  predicate NoHeader(c: ClientState, c': ClientState) {
    && c'.nextMsgNo == c.nextMsgNo
    && (c'.queue == c.queue
        || (|c'.queue| == |c.queue| + 1 && c'.queue[..|c.queue|] == c.queue && !c'.queue[|c.queue|].packetType.Header?))
  }

  lemma CallsSendNoHeader(c: ClientState, id: int, sendOk: bool)
    ensures NoHeader(c, CheckWindow(c, id)) && NoHeader(c, EnqueueEof(c, id, sendOk))
  {
    hide OverWatermark;
    if In(c, id, Sending) {
    } else {
    }
  }

  lemma ChunksSendNoHeader(c: ClientState, id: int, sendOk: bool)
    ensures NoHeader(c, EnqueueChunk(c, id, sendOk)) && NoHeader(c, CountChunk(c, id))
  {
    hide ChunkEnd;
    if In(c, id, Cleared) {
    } else {
    }
  }

  lemma LeavingSendsNoHeader(c: ClientState, id: int)
    ensures NoHeader(c, TakeReply(c, id)) && NoHeader(c, TimeOut(c, id))
    ensures NoHeader(c, RemovePending(c, id)) && NoHeader(c, RemoveOutgoing(c, id))
  {
    hide WithExits;
    if id !in c.calls {
    } else if c.calls[id].phase.Awaiting? {
    } else if c.calls[id].phase.Failing? {
    } else {
    }
  }

  lemma OthersSendNoHeader(c: ClientState, e: Event)
    requires !e.Packet? && !e.Begin?
    ensures NoHeader(c, Apply(c, e))
  {
    hide CheckWindow, EnqueueChunk, CountChunk, EnqueueEof, TakeReply, TimeOut, RemovePending, RemoveOutgoing,
         RequestHeader, WithExits;
    match e {
      case Start(_) =>
      case Check(id) => CallsSendNoHeader(c, id, true);
      case Chunk(id, sendOk) => ChunksSendNoHeader(c, id, sendOk);
      case Count(id) => ChunksSendNoHeader(c, id, true);
      case End(id, sendOk) => CallsSendNoHeader(c, id, sendOk);
      case Take(id) => LeavingSendsNoHeader(c, id);
      case Expire(id) => LeavingSendsNoHeader(c, id);
      case Unregister(id) => LeavingSendsNoHeader(c, id);
      case Untrack(id) => LeavingSendsNoHeader(c, id);
      case Stop(_) =>
      case Close =>
    }
  }

  lemma NoHeaderKeeps(c: ClientState, c': ClientState, failed: bool)
    requires InOrder(c, failed) && NoHeader(c, c')
    ensures InOrder(c', failed)
  {
    hide HeadersNumbered, HeaderCount;
    if c'.queue != c.queue {
      var p := c'.queue[|c.queue|];
      assert c'.queue == c.queue + [p];
      HeadersNumberedSnoc(c.queue, p);
      HeaderCountSnoc(c.queue, p);
    }
  }

  lemma BeginInOrder(c: ClientState, id: int, sendOk: bool, failed: bool)
    requires InOrder(c, failed) && !(failed && sendOk)
    ensures InOrder(BeginMessage(c, id, sendOk), failed || !sendOk)
  {
    hide HeadersNumbered, HeaderCount;
    if In(c, id, Created) && sendOk {
      var p := HeaderPacket(c.nextMsgNo, c.calls[id].header);
      HeadersNumberedSnoc(c.queue, p);
      HeaderCountSnoc(c.queue, p);
    }
  }

  lemma ReceiveInOrder(c: ClientState, p: Packets.Packet, sendOk: bool, failed: bool)
    requires InOrder(c, failed)
    ensures InOrder(Receive(c, p, sendOk), failed)
  {
    hide Receive, HeadersNumbered, HeaderCount, Server.Acknowledge;
    ReceiveScope(c, p, sendOk);
    NoHeaderKeeps(c, Receive(c, p, sendOk), failed);
  }

  lemma {:induction false} ExecuteInOrder(service: Server.Service, budget: nat, moves: seq<Move>)
    requires FailsForGood(moves)
    ensures InOrder(Execute(service, budget, moves).client, SomeFailed(moves))
  {
    hide InOrder, Apply, Receive, Server.Route, Replies;
    if moves == [] {
      EmptyInOrder();
    } else {
      var front, last := moves[..|moves| - 1], moves[|moves| - 1];
      assert FailsForGood(front) && (SomeFailed(moves) <==> SomeFailed(front) || FailedBegin(last)) by {
        LastMove(front, last);
        assert moves == front + [last];
      }
      ExecuteInOrder(service, budget, front);
      var c := Execute(service, budget, front).client;
      match last {
        case Local(e) =>
          if e.Begin? {
            BeginInOrder(c, e.id, e.sendOk, SomeFailed(front));
            assert Apply(c, e) == BeginMessage(c, e.id, e.sendOk) by { ApplyBegin(c, e); }
          } else if !e.Packet? {
            OthersSendNoHeader(c, e);
            NoHeaderKeeps(c, Apply(c, e), SomeFailed(front));
          }
        case ServerReceives =>
        case ClientReceives(sendOk) =>
          var s := Execute(service, budget, front);
          if s.client.reading && s.clientGot < |s.server.wire| {
            ReceiveInOrder(c, s.server.wire[s.clientGot], sendOk, SomeFailed(front));
          }
      }
    }
  }

  lemma ApplyBegin(c: ClientState, e: Event)
    requires e.Begin?
    ensures Apply(c, e) == BeginMessage(c, e.id, e.sendOk)
  {
  }

  lemma EmptyInOrder()
    ensures InOrder(START, false)
  {
  }

  lemma LastMove(front: seq<Move>, last: Move)
    requires FailsForGood(front + [last])
    ensures FailsForGood(front) && (SomeFailed(front + [last]) <==> SomeFailed(front) || FailedBegin(last))
    ensures SomeFailed(front) ==> !SentBegin(last)
  {
    hide FailedBegin, SentBegin;
    var moves := front + [last];
    assert forall i :: 0 <= i < |front| ==> moves[i] == front[i];
    assert moves[|front|] == last;
    if i :| 0 <= i < |front| && FailedBegin(front[i]) {
      assert FailedBegin(moves[i]);
    }
  }

  /** The server never closes for a HEADER out of sequence, as long as the client's channel to its writer, once it
      fails, fails for good; so while the server's writer works too the connection stays open. */
  lemma StaysOpen(service: Server.Service, budget: nat, moves: seq<Move>)
    requires FailsForGood(moves) && Execute(service, budget, moves).server.budget > 0
    ensures Execute(service, budget, moves).open
  {
    hide Execute, HeadersNumbered, HeaderCount, FailsForGood;
    ExecuteInOrder(service, budget, moves);
    SystemInvariant.ExecuteKeeps(service, budget, moves);
    OpenExactly(service, budget, moves);
    var s := Execute(service, budget, moves);
    HeadersNumberedPrefix(s.client.queue, s.serverGot);
  }

  // ---------------------------------------------------------------- nothing that has arrived is left undone

  /** Every request that has arrived whole has been dispatched. */
  ghost predicate AllDispatched(s: State) {
    var log, requests := ServerLog(s), s.client.requests;
    forall m :: 0 <= m < |requests| && |Of(log, m)| == |Full(m, requests[m])| ==>
      exists k :: 0 <= k < |s.server.dispatched| && s.server.dispatched[k].msgNo == m
  }

  function RequestIdOf(d: Server.Dispatch): int {
    d.request.header.requestId
  }

  /** Nobody waits any more for a reply that has arrived whole. */
  ghost predicate AllTaken(service: Server.Service, s: State) {
    var log, dispatched := ReaderLog(s), s.server.dispatched;
    forall k :: 0 <= k < |dispatched| && |Of(log, k)| == |Full(k, Replies(service, dispatched)[k])| ==>
      RequestIdOf(dispatched[k]) !in s.client.pending
  }

  /** While the reader runs, what has been delivered are replies. */
  ghost predicate OnlyReplies(c: ClientState) {
    c.reading ==> forall id :: id in c.delivered ==> c.delivered[id].error.None?
  }

  ghost predicate Prompt(service: Server.Service, s: State) {
    (s.open ==> AllDispatched(s)) && AllTaken(service, s) && OnlyReplies(s.client)
  }

  // ---- the client alone

  /** Without receiving, ids enter the pending map only when their messages begin. */
  ghost predicate PendingFrame(c: ClientState, c': ClientState) {
    && (forall id :: id in c'.pending && id !in c.pending ==> In(c, id, Created))
    && (c'.reading ==> c.reading && c'.delivered == c.delivered)
  }

  lemma SendersPend(c: ClientState, id: int, sendOk: bool)
    ensures PendingFrame(c, BeginMessage(c, id, sendOk)) && PendingFrame(c, CheckWindow(c, id))
    ensures PendingFrame(c, EnqueueEof(c, id, sendOk))
  {
    hide OverWatermark;
    if In(c, id, Created) {
    } else if In(c, id, Sending) {
    } else {
    }
  }

  lemma ChunksPend(c: ClientState, id: int, sendOk: bool)
    ensures PendingFrame(c, EnqueueChunk(c, id, sendOk)) && PendingFrame(c, CountChunk(c, id))
  {
    hide ChunkEnd;
  }

  lemma AwaitPends(c: ClientState, id: int)
    ensures PendingFrame(c, TakeReply(c, id)) && PendingFrame(c, TimeOut(c, id))
  {
    if In(c, id, Awaiting) {
    } else {
    }
  }

  lemma LeaversPend(c: ClientState, id: int)
    ensures PendingFrame(c, RemovePending(c, id)) && PendingFrame(c, RemoveOutgoing(c, id))
  {
    hide WithExits;
    if id !in c.calls {
    } else if c.calls[id].phase.Failing? {
    } else {
    }
  }

  lemma LocalPends(c: ClientState, e: Event)
    requires !e.Packet?
    ensures PendingFrame(c, Apply(c, e))
  {
    hide BeginMessage, CheckWindow, EnqueueChunk, CountChunk, EnqueueEof, TakeReply, TimeOut, RemovePending,
         RemoveOutgoing, RequestHeader, WithExits;
    match e {
      case Start(_) =>
      case Begin(id, sendOk) => SendersPend(c, id, sendOk);
      case Check(id) => SendersPend(c, id, true);
      case Chunk(id, sendOk) => ChunksPend(c, id, sendOk);
      case Count(id) => ChunksPend(c, id, true);
      case End(id, sendOk) => SendersPend(c, id, sendOk);
      case Take(id) => AwaitPends(c, id);
      case Expire(id) => AwaitPends(c, id);
      case Unregister(id) => LeaversPend(c, id);
      case Untrack(id) => LeaversPend(c, id);
      case Stop(_) =>
      case Close =>
    }
  }

  /** The call of a dispatched request has begun. */
  lemma DispatchedBegun(service: Server.Service, s: State, k: nat)
    requires SystemInv(service, s) && k < |s.server.dispatched|
    ensures !In(s.client, RequestIdOf(s.server.dispatched[k]), Created)
    ensures s.server.dispatched[k].msgNo < |s.client.requests|
  {
    hide Conforms, AllFit, Assembled, AcksFit, Of, Full;
    var d := s.server.dispatched[k];
    assert DispatchFits(ServerLog(s), s.client.requests, d);
    assert Owned(s.client, d.msgNo);
  }

  lemma LocalPrompt(service: Server.Service, s: State, e: Event)
    requires SystemInv(service, s) && Prompt(service, s) && !e.Packet?
    ensures Prompt(service, s.(client := Apply(s.client, e)))
  {
    hide SystemInv, Apply, Of, Full, ServerLog, ReaderLog, Replies;
    var s' := s.(client := Apply(s.client, e));
    LocalAppends(s.client, e);
    LocalPends(s.client, e);
    LogsSame(service, s, s');
    if s.open {
      RequestsDispatched(service, s, s');
    }
    forall k | 0 <= k < |s.server.dispatched|
               && |Of(ReaderLog(s), k)| == |Full(k, Replies(service, s.server.dispatched)[k])|
      ensures RequestIdOf(s.server.dispatched[k]) !in s'.client.pending
    {
      DispatchedBegun(service, s, k);
    }
  }

  lemma LogsSame(service: Server.Service, s: State, s': State)
    requires SystemInv(service, s) && s.client.queue <= s'.client.queue
    requires s'.server == s.server && s'.serverGot == s.serverGot && s'.clientGot == s.clientGot
    ensures ServerLog(s') == ServerLog(s) && ReaderLog(s') == ReaderLog(s)
  {
    hide Inv, Replying, ServerSide, ReaderSide, AllAcknowledged, AllAnswered;
  }

  /** Messages that have only just begun have not arrived. */
  lemma RequestsDispatched(service: Server.Service, s: State, s': State)
    requires SystemInv(service, s) && AllDispatched(s) && s.open
    requires s.client.requests <= s'.client.requests && s'.server == s.server && ServerLog(s') == ServerLog(s)
    ensures AllDispatched(s')
  {
    hide ReaderSide, AllAcknowledged, AllAnswered, Replying, ServerLog, DispatchesFit, AcksFit, Full, Of, Inv;
    var log, requests, requests' := ServerLog(s), s.client.requests, s'.client.requests;
    forall m | 0 <= m < |requests'| && |Of(log, m)| == |Full(m, requests'[m])|
      ensures exists k :: 0 <= k < |s.server.dispatched| && s.server.dispatched[k].msgNo == m
    {
      assert AssembledAt(Of(log, m), requests, s.server.incoming, s.server.nextIn, m);
      assert m < |requests|;
      assert requests'[m] == requests[m];
    }
  }

  // ---- the server

  lemma ServerPrompt(service: Server.Service, s: State)
    requires SystemInv(service, s) && Prompt(service, s) && s.open && s.serverGot < |s.client.queue|
    ensures Prompt(service, Step(service, s, ServerReceives))
  {
    hide SystemInv, Server.Route, AllDispatched, AllTaken;
    var s' := Step(service, s, ServerReceives);
    ServerDispatches(service, s);
    ReaderStill(service, s);
  }

  lemma ServerDispatches(service: Server.Service, s: State)
    requires SystemInv(service, s) && AllDispatched(s) && s.open && s.serverGot < |s.client.queue|
    ensures AllDispatched(Step(service, s, ServerReceives))
  {
    hide ReaderSide, AllAcknowledged, AllAnswered, Replying, DispatchesFit, AcksFit, Full, Of, Inv, Assembled,
         Conforms, Server.Route;
    var p, log, requests := s.client.queue[s.serverGot], ServerLog(s), s.client.requests;
    var s' := Step(service, s, ServerReceives);
    assert ServerLog(s') == log + [p];
    SystemInvariant.RouteExtends(service, s.server, p);
    InvConforms(s.client);
    ConformsPrefix(s.client.queue, s.serverGot + 1, requests);
    assert s.client.queue[..s.serverGot + 1] == log + [p];
    forall m | 0 <= m < |requests| && |Of(log + [p], m)| == |Full(m, requests[m])|
      ensures exists k :: 0 <= k < |s'.server.dispatched| && s'.server.dispatched[k].msgNo == m
    {
      OfSnoc(log, p, m);
      if InMessage(p, m) {
        LastIsEof(log, requests, p);
        EofDispatches(service, s.server, log, requests, p);
        assert s'.server.dispatched[|s.server.dispatched|].msgNo == m;
      } else {
        assert Of(log + [p], m) == Of(log, m);
        var k :| 0 <= k < |s.server.dispatched| && s.server.dispatched[k].msgNo == m;
        assert s'.server.dispatched[k] == s.server.dispatched[k];
      }
    }
  }

  /** The packet that completes a message is its EOF. */
  lemma LastIsEof(log: seq<Packets.Packet>, msgs: seq<Message>, p: Packets.Packet)
    requires Conforms(log + [p], msgs) && InMessage(p, p.msgNo) && p.msgNo < |msgs|
    requires |Of(log + [p], p.msgNo)| == |Full(p.msgNo, msgs[p.msgNo])|
    ensures p.packetType.Eof?
  {
    hide Full;
    OfSnoc(log, p, p.msgNo);
    NextExpected(log, p, msgs);
    FullAt(p.msgNo, msgs[p.msgNo], |Of(log, p.msgNo)|);
  }

  lemma EofDispatches(service: Server.Service, s: Server.ServerState, log: seq<Packets.Packet>, requests: seq<Message>,
                      p: Packets.Packet)
    requires Assembled(log, requests, s.incoming, s.nextIn) && Conforms(log + [p], requests) && p.packetType.Eof?
    ensures
      var dispatched' := Server.Route(service, s, p).0.dispatched;
      |dispatched'| == |s.dispatched| + 1 && dispatched'[|s.dispatched|].msgNo == p.msgNo
  {
    hide Assembled, Conforms, Full, Server.Respond;
    CompleteAtEof(log, requests, s.incoming, s.nextIn, p);
  }

  /** A reply only just dispatched has not arrived. */
  lemma ReaderStill(service: Server.Service, s: State)
    requires SystemInv(service, s) && AllTaken(service, s) && s.open && s.serverGot < |s.client.queue|
    ensures AllTaken(service, Step(service, s, ServerReceives))
  {
    hide ServerSide, AllAcknowledged, AllAnswered, Full, Of, Inv, Server.Route, Conforms, Assembled, HeadersNumbered,
         AllSent;
    var s' := Step(service, s, ServerReceives);
    var dispatched, dispatched' := s.server.dispatched, s'.server.dispatched;
    SystemInvariant.RouteExtends(service, s.server, s.client.queue[s.serverGot]);
    var log, replies, replies' := ReaderLog(s), Replies(service, dispatched), Replies(service, dispatched');
    assert ReaderLog(s') == log;
    ConformsPrefix(s.server.wire, s.clientGot, replies);
    forall k | 0 <= k < |dispatched'| && |Of(log, k)| == |Full(k, replies'[k])|
      ensures RequestIdOf(dispatched'[k]) !in s'.client.pending
    {
      NotBegun(log, replies, k);
      assert k < |dispatched|;
      assert dispatched'[k] == dispatched[k] && replies'[k] == replies[k];
    }
  }

  lemma NotBegun(log: seq<Packets.Packet>, msgs: seq<Message>, m: nat)
    requires Conforms(log, msgs)
    ensures m >= |msgs| ==> Of(log, m) == []
  {
    hide Full, Of;
    assert Of(log, m) <= Expected(msgs, m);
  }

  // ---- the reader

  lemma ReaderPrompt(service: Server.Service, s: State, sendOk: bool)
    requires SystemInv(service, s) && Prompt(service, s) && s.client.reading && s.clientGot < |s.server.wire|
    ensures Prompt(service, Step(service, s, ClientReceives(sendOk)))
  {
    hide SystemInv, Receive, AllDispatched, AllTaken, OnlyReplies;
    var s' := Step(service, s, ClientReceives(sendOk));
    SystemInvariant.ReceiveFrame(s.client, s.server.wire[s.clientGot], sendOk);
    if s.open {
      ServerStill(service, s, s');
    }
    ReaderTakes(service, s, sendOk);
    ReaderOnlyReplies(service, s, sendOk);
  }

  lemma ServerStill(service: Server.Service, s: State, s': State)
    requires SystemInv(service, s) && AllDispatched(s) && s.client.queue <= s'.client.queue
    requires s'.client.requests == s.client.requests && s'.server == s.server && s'.serverGot == s.serverGot
    ensures AllDispatched(s')
  {
    hide Inv, Replying, ServerSide, ReaderSide, AllAcknowledged, AllAnswered, Of, Full;
    SameServerLog(s, s');
  }

  lemma ReaderTakes(service: Server.Service, s: State, sendOk: bool)
    requires SystemInv(service, s) && AllTaken(service, s) && s.client.reading && s.clientGot < |s.server.wire|
    ensures AllTaken(service, Step(service, s, ClientReceives(sendOk)))
  {
    hide ServerSide, AllAcknowledged, AllAnswered, Full, Of, Inv, Receive, Conforms, Assembled, HeadersNumbered,
         AllSent, Replies;
    var p, log := s.server.wire[s.clientGot], ReaderLog(s);
    var replies := Replies(service, s.server.dispatched);
    var s' := Step(service, s, ClientReceives(sendOk));
    assert ReaderLog(s') == log + [p];
    assert s.server.wire[..s.clientGot + 1] == log + [p];
    ConformsPrefix(s.server.wire, s.clientGot + 1, replies);
    PendingShrinks(s.client, p, sendOk);
    forall k | 0 <= k < |s.server.dispatched| && |Of(log + [p], k)| == |Full(k, replies[k])|
      ensures RequestIdOf(s.server.dispatched[k]) !in s'.client.pending
    {
      OfSnoc(log, p, k);
      if InMessage(p, k) {
        LastIsEof(log, replies, p);
        CompleteAtEof(log, replies, s.client.incoming, s.client.nextIn, p);
        EofTakes(s.client, p, sendOk);
        ReplyId(service, s.server.dispatched, k);
      } else {
        assert Of(log + [p], k) == Of(log, k);
      }
    }
  }

  lemma ReplyId(service: Server.Service, dispatched: seq<Server.Dispatch>, k: nat)
    requires k < |dispatched|
    ensures Replies(service, dispatched)[k].header.requestId == RequestIdOf(dispatched[k])
  {
    hide Server.Respond;
  }

  lemma PendingShrinks(c: ClientState, p: Packets.Packet, sendOk: bool)
    ensures Receive(c, p, sendOk).pending <= c.pending
  {
    hide WithExits, Server.Acknowledge, InvalidTxerr, AckPacket;
    match p.packetType {
      case Header =>
      case Data =>
      case Eof =>
      case Txerr =>
      case Ack =>
      case Ping =>
      case Pong =>
    }
  }

  /** The EOF of a message takes its id out of the pending map. */
  lemma EofTakes(c: ClientState, p: Packets.Packet, sendOk: bool)
    requires p.packetType.Eof? && p.body == [] && p.msgNo in c.incoming
    ensures c.incoming[p.msgNo].header.requestId !in Receive(c, p, sendOk).pending
  {
    hide WithExits;
  }

  lemma ReaderOnlyReplies(service: Server.Service, s: State, sendOk: bool)
    requires SystemInv(service, s) && OnlyReplies(s.client) && s.client.reading && s.clientGot < |s.server.wire|
    ensures OnlyReplies(Receive(s.client, s.server.wire[s.clientGot], sendOk))
  {
    hide ServerSide, AllAcknowledged, AllAnswered, Full, Of, Inv, Conforms, Assembled, HeadersNumbered, AllSent,
         Replies, OnHeader, OnData, OnEnd, InvalidTxerr, Server.Acknowledge;
    var p, log := s.server.wire[s.clientGot], ReaderLog(s);
    var replies := Replies(service, s.server.dispatched);
    assert s.server.wire[..s.clientGot + 1] == log + [p];
    ConformsPrefix(s.server.wire, s.clientGot + 1, replies);
    match p.packetType {
      case Header => HeaderScope(s.client, p);
      case Data => DataScope(s.client, p, sendOk);
      case Eof => EndDelivers(s.client, p.msgNo);
      case Txerr => HeaderIsNew(log, replies, s.client.incoming, s.client.nextIn, p);
      case Ack =>
      case Ping =>
      case Pong =>
    }
  }

  lemma EndDelivers(c: ClientState, m: nat)
    requires OnlyReplies(c)
    ensures OnlyReplies(OnEnd(c, m, None, ByReply))
  {
    hide WithExits;
  }

  // ---- runs

  lemma StepPrompt(service: Server.Service, s: State, move: Move)
    requires SystemInv(service, s) && Prompt(service, s)
    ensures Prompt(service, Step(service, s, move))
  {
    hide SystemInv, Prompt, Apply, Receive, Server.Route;
    match move {
      case Local(e) =>
        if !e.Packet? {
          LocalPrompt(service, s, e);
        }
      case ServerReceives =>
        if s.open && s.serverGot < |s.client.queue| {
          ServerPrompt(service, s);
        }
      case ClientReceives(sendOk) =>
        if s.client.reading && s.clientGot < |s.server.wire| {
          ReaderPrompt(service, s, sendOk);
        }
    }
  }

  lemma {:induction false} ExecutePrompt(service: Server.Service, budget: nat, moves: seq<Move>)
    ensures Prompt(service, Execute(service, budget, moves))
  {
    hide SystemInv, Prompt, Step;
    if moves == [] {
      NothingPending(service, budget);
    } else {
      ExecutePrompt(service, budget, moves[..|moves| - 1]);
      SystemInvariant.ExecuteKeeps(service, budget, moves[..|moves| - 1]);
      StepPrompt(service, Execute(service, budget, moves[..|moves| - 1]), moves[|moves| - 1]);
    }
  }

  lemma NothingPending(service: Server.Service, budget: nat)
    ensures Prompt(service, Initial(budget))
  {
  }

  /** A call that waits has sent its whole request. */
  lemma AwaitingHasSent(c: ClientState, id: int)
    requires Inv(c) && In(c, id, Awaiting)
    ensures
      var m := c.calls[id].msgNo;
      && m < |c.requests| && c.requests[m].header.requestId == id
      && |Of(c.queue, m)| == |Full(m, c.requests[m])|
    ensures id !in c.pending ==> id in c.delivered
  {
    hide Conforms, Full, Of, AllFit;
    Fits(c, id);
  }

  /** When the server's writer works, the reader runs and everything sent has been received, every call that waits has
      its response, and it is the reply of the service to exactly its request. */
  lemma Completed(service: Server.Service, budget: nat, moves: seq<Move>, id: int)
    requires FailsForGood(moves)
    requires
      var s := Execute(service, budget, moves);
      && s.server.budget > 0 && s.client.reading
      && s.serverGot == |s.client.queue| && s.clientGot == |s.server.wire|
      && In(s.client, id, Awaiting)
    ensures
      var s := Execute(service, budget, moves);
      && id in s.client.delivered
      && exists k :: ExactReply(service, s.client, s.server.dispatched, id, s.client.delivered[id], k)
  {
    hide Execute, FailsForGood, Inv, Conforms, Full, Of, ServerSide, ReaderSide, AllAcknowledged, AllAnswered,
         ExactReply, HeadersNumbered, Replies;
    var s := Execute(service, budget, moves);
    StaysOpen(service, budget, moves);
    ExecutePrompt(service, budget, moves);
    SystemInvariant.ExecuteKeeps(service, budget, moves);
    AwaitingHasSent(s.client, id);
    var m := s.client.calls[id].msgNo;
    assert ServerLog(s) == s.client.queue && ReaderLog(s) == s.server.wire;
    var k :| 0 <= k < |s.server.dispatched| && s.server.dispatched[k].msgNo == m;
    DispatchedIs(service, s, k);
    assert Of(s.server.wire, k) == Full(k, Replies(service, s.server.dispatched)[k]);
    EndToEnd(service, budget, moves, id);
  }

  lemma DispatchedIs(service: Server.Service, s: State, k: nat)
    requires SystemInv(service, s) && k < |s.server.dispatched|
    ensures
      var d := s.server.dispatched[k];
      d.msgNo < |s.client.requests| && d.request == s.client.requests[d.msgNo]
  {
    hide Conforms, Inv, Assembled, AcksFit, Of, Full, ReaderSide, AllAcknowledged, AllAnswered, Replying;
    assert DispatchFits(ServerLog(s), s.client.requests, s.server.dispatched[k]);
  }

  // ---------------------------------------------------------------- and the call returns it

  /** Moves of the two ends and of other calls. */
  predicate ForeignMoves(moves: seq<Move>, id: int) {
    forall i :: 0 <= i < |moves| && moves[i].Local? ==> SendRequest.Foreign(moves[i].e, id)
  }

  lemma {:induction false} OthersMove(service: Server.Service, budget: nat, moves: seq<Move>, others: seq<Move>,
                                      id: int)
    requires id in Execute(service, budget, moves).client.calls && ForeignMoves(others, id)
    ensures SendRequest.Untouched(Execute(service, budget, moves).client,
                                  Execute(service, budget, moves + others).client, id)
  {
    hide Apply, Receive, Server.Route, SendRequest.Foreign, SystemInv, Inv;
    if others == [] {
      assert moves + others == moves;
      SystemInvariant.ExecuteKeeps(service, budget, moves);
      CallIdBelow(service, Execute(service, budget, moves), id);
    } else {
      var front, last := others[..|others| - 1], others[|others| - 1];
      OthersMove(service, budget, moves, front, id);
      assert (moves + others)[..|moves + others| - 1] == moves + front;
      var s := Execute(service, budget, moves + front);
      match last {
        case Local(e) => SendRequest.ForeignKeeps(s.client, e, id);
        case ServerReceives =>
        case ClientReceives(sendOk) =>
          if s.client.reading && s.clientGot < |s.server.wire| {
            SendRequest.ReceiveKeeps(s.client, s.server.wire[s.clientGot], sendOk);
          }
      }
    }
  }

  lemma CallIdBelow(service: Server.Service, s: State, id: int)
    requires SystemInv(service, s) && id in s.client.calls
    ensures id < s.client.nextRequestId
  {
    hide Inv, ReaderSide, ServerSide, AllAcknowledged, AllAnswered, Replying;
    ClientTheorems.BelowNextId(s.client, id);
  }

  lemma LocalMove(service: Server.Service, budget: nat, moves: seq<Move>, e: Event)
    requires !e.Packet?
    ensures Execute(service, budget, moves + [Local(e)]).client == Apply(Execute(service, budget, moves).client, e)
  {
    hide Apply;
    assert (moves + [Local(e)])[..|moves|] == moves;
  }

  /** Under the same conditions a waiting call that looks at its reply channel, and cleans up after whatever others do
      meanwhile, returns: the reply of the service to exactly its request. */
  lemma Returned(service: Server.Service, budget: nat, moves: seq<Move>, others: seq<Move>, id: int)
    requires FailsForGood(moves) && ForeignMoves(others, id)
    requires
      var s := Execute(service, budget, moves);
      && s.server.budget > 0 && s.client.reading
      && s.serverGot == |s.client.queue| && s.clientGot == |s.server.wire|
      && In(s.client, id, Awaiting)
    ensures
      var s := Execute(service, budget, moves);
      var s' := Execute(service, budget, moves + [Local(Take(id))] + others + [Local(Untrack(id))]);
      && id in s.client.delivered && In(s'.client, id, Done(Replied(s.client.delivered[id])))
      && exists k :: ExactReply(service, s.client, s.server.dispatched, id, s.client.delivered[id], k)
  {
    hide Execute, FailsForGood, ForeignMoves, ExactReply;
    Completed(service, budget, moves, id);
    LocalMove(service, budget, moves, Take(id));
    OthersMove(service, budget, moves + [Local(Take(id))], others, id);
    LocalMove(service, budget, moves + [Local(Take(id))] + others, Untrack(id));
  }
}
