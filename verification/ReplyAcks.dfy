/** The ACKs the client sends for the replies it receives. */
module ReplyAcks {
  import opened Packets
  import opened Messages
  import opened Client
  import opened ReplyStream
  import opened System
  import opened SystemTheorems
  import opened Traffic
  import ClientInvariant
  import SystemInvariant
  import Server

  /** Some of the first `n` of the ACKs earned, in order: a writer task that is gone takes none. */
  predicate Among(acks: seq<Packets.Packet>, earned: seq<Packets.Packet>, n: nat)
    requires n <= |earned|
    decreases n
  {
    if acks == [] then true
    else if n == 0 then false
    else
      (acks[|acks| - 1] == earned[n - 1] && Among(acks[..|acks| - 1], earned, n - 1)) || Among(acks, earned, n - 1)
  }

  ghost predicate AcksFit(service: Server.Service, s: State, m: nat) {
    var earned := EarnedAcks(Replies(service, s.server.dispatched), m);
    var n := DataCount(Of(ReaderLog(s), m));
    n <= |earned| && Among(AcksOf(s.client.queue, m), earned, n)
  }

  ghost predicate AllAcksFit(service: Server.Service, s: State) {
    forall m: nat :: AcksFit(service, s, m)
  }

  lemma {:induction false} AmongLonger(acks: seq<Packets.Packet>, earned: seq<Packets.Packet>,
                                       longer: seq<Packets.Packet>, n: nat)
    requires n <= |earned| && earned <= longer && Among(acks, earned, n)
    ensures Among(acks, longer, n)
    decreases n
  {
    if acks != [] && n > 0 {
      if acks[|acks| - 1] == earned[n - 1] && Among(acks[..|acks| - 1], earned, n - 1) {
        AmongLonger(acks[..|acks| - 1], earned, longer, n - 1);
      } else {
        AmongLonger(acks, earned, longer, n - 1);
      }
    }
  }

  lemma AmongNext(acks: seq<Packets.Packet>, earned: seq<Packets.Packet>, n: nat)
    requires n < |earned| && Among(acks, earned, n)
    ensures Among(acks + [earned[n]], earned, n + 1) && Among(acks, earned, n + 1)
  {
    assert (acks + [earned[n]])[..|acks|] == acks;
  }

  /** Where ACK `i` and the one before it are among those earned. */
  lemma {:induction false} AmongAt(acks: seq<Packets.Packet>, earned: seq<Packets.Packet>, n: nat, i: nat)
    returns (before: int, j: nat)
    requires n <= |earned| && Among(acks, earned, n) && i < |acks|
    ensures -1 <= before < j < n && acks[i] == earned[j]
    ensures if i == 0 then before == -1 else before >= 0 && acks[i - 1] == earned[before]
    decreases n
  {
    if acks[|acks| - 1] == earned[n - 1] && Among(acks[..|acks| - 1], earned, n - 1) {
      var front := acks[..|acks| - 1];
      if i < |front| {
        before, j := AmongAt(front, earned, n - 1, i);
      } else {
        j := n - 1;
        if i == 0 {
          before := -1;
        } else {
          var b;
          b, before := AmongAt(front, earned, n - 1, i - 1);
        }
      }
    } else {
      before, j := AmongAt(acks, earned, n - 1, i);
    }
  }

  // ---------------------------------------------------------------- every move keeps them in order

  lemma LocalAcks(service: Server.Service, s: State, e: Event, m: nat)
    requires AcksFit(service, s, m) && !e.Packet?
    ensures AcksFit(service, s.(client := Apply(s.client, e)), m)
  {
    hide Apply, EarnedAcks, Replies, Among, DataCount, Of, AcksOf, ReaderLog;
    LocalCount(s, e, m);
  }

  lemma EarnedGrows(msgs: seq<Message>, more: seq<Message>, m: nat)
    requires msgs <= more
    ensures EarnedAcks(msgs, m) <= EarnedAcks(more, m)
  {
    hide AckPacket;
    if m < |msgs| {
      assert more[m] == msgs[m];
    }
  }

  lemma RouteAcks(service: Server.Service, s: State, s': State, m: nat)
    requires AcksFit(service, s, m) && s'.client == s.client && ReaderLog(s') == ReaderLog(s)
    requires s.server.dispatched <= s'.server.dispatched
    ensures AcksFit(service, s', m)
  {
    hide EarnedAcks, Replies, DataCount, Of, ReaderLog;
    var replies, replies' := Replies(service, s.server.dispatched), Replies(service, s'.server.dispatched);
    SystemInvariant.RepliesGrow(service, s.server.dispatched, s'.server.dispatched);
    EarnedGrows(replies, replies', m);
    AmongLonger(AcksOf(s.client.queue, m), EarnedAcks(replies, m), EarnedAcks(replies', m),
                DataCount(Of(ReaderLog(s), m)));
  }

  /** What the next packet of the reader's log adds to the ACKs. */
  lemma ReaderAnswers(service: Server.Service, s: State, sendOk: bool, m: nat)
    requires SystemInv(service, s) && TrafficInv(service, s)
    requires s.client.reading && s.clientGot < |s.server.wire|
    ensures
      var p, log := s.server.wire[s.clientGot], ReaderLog(s);
      var replies := Replies(service, s.server.dispatched);
      var s' := Step(service, s, ClientReceives(sendOk));
      var earned, n := EarnedAcks(replies, m), DataCount(Of(log, m));
      var acks, acks' := AcksOf(s.client.queue, m), AcksOf(s'.client.queue, m);
      && s'.server == s.server
      && DataCount(Of(ReaderLog(s'), m)) == n + (if p.msgNo == m && p.packetType.Data? then 1 else 0)
      && (if p.msgNo == m && p.packetType.Data?
          then n < |earned| && acks' == if sendOk then acks + [earned[n]] else acks
          else acks' == acks)
  {
    hide Conforms, ServerSide, AllAcknowledged, Answered, Assembled, Replies, AllSent, HeadersNumbered,
         ClientInvariant.Inv, Receive, AckPacket, EarnedAcks, DataCount, Of, AcksOf;
    var p, log := s.server.wire[s.clientGot], ReaderLog(s);
    var replies := Replies(service, s.server.dispatched);
    var s' := Step(service, s, ClientReceives(sendOk));
    assert ReaderLog(s') == log + [p];
    assert s.server.wire[..s.clientGot + 1] == log + [p];
    ConformsPrefix(s.server.wire, s.clientGot + 1, replies);
    SystemInvariant.DataCountOfSnoc(log, p, m);
    if p.packetType.Data? {
      SystemInvariant.ChunkEarns(log, replies, s.client.incoming, s.client.nextIn, p);
      DataIsExpected(log, replies, s.client.incoming, s.client.nextIn, p);
      DataAnswered(s.client, p, sendOk, m);
    } else {
      SameQueue(s.client, p, sendOk);
    }
  }

  lemma DataAnswered(c: ClientState, p: Packets.Packet, sendOk: bool, m: nat)
    requires p.packetType.Data? && p.msgNo in c.incoming && p.body != []
    ensures
      var ack := AckPacket(p.msgNo, c.incoming[p.msgNo].received + |p.body|);
      AcksOf(Receive(c, p, sendOk).queue, m)
      == AcksOf(c.queue, m) + (if sendOk && p.msgNo == m then [ack] else [])
  {
    hide AckPacket, AcksOf;
    var ack := AckPacket(p.msgNo, c.incoming[p.msgNo].received + |p.body|);
    SystemInvariant.IsAck(p.msgNo, c.incoming[p.msgNo].received + |p.body|);
    AcksOfSnoc(c.queue, ack, m);
  }

  lemma ReceiveAcks(service: Server.Service, s: State, sendOk: bool, m: nat)
    requires SystemInv(service, s) && TrafficInv(service, s) && AcksFit(service, s, m)
    requires s.client.reading && s.clientGot < |s.server.wire|
    ensures AcksFit(service, Step(service, s, ClientReceives(sendOk)), m)
  {
    hide SystemInv, TrafficInv, Step, EarnedAcks, Replies, Among, DataCount, Of, AcksOf, ReaderLog;
    ReaderAnswers(service, s, sendOk, m);
    var p := s.server.wire[s.clientGot];
    if p.msgNo == m && p.packetType.Data? {
      AmongNext(AcksOf(s.client.queue, m), EarnedAcks(Replies(service, s.server.dispatched), m),
                DataCount(Of(ReaderLog(s), m)));
    }
  }

  lemma StepAcks(service: Server.Service, s: State, move: Move)
    requires SystemInv(service, s) && TrafficInv(service, s) && AllAcksFit(service, s)
    ensures AllAcksFit(service, Step(service, s, move))
  {
    hide SystemInv, TrafficInv, AcksFit, Apply, Receive, Server.Route;
    var s' := Step(service, s, move);
    forall m: nat ensures AcksFit(service, s', m) {
      assert AcksFit(service, s, m);
      match move {
        case Local(e) =>
          if !e.Packet? {
            LocalAcks(service, s, e, m);
          }
        case ServerReceives =>
          if s.open && s.serverGot < |s.client.queue| {
            SystemInvariant.RouteExtends(service, s.server, s.client.queue[s.serverGot]);
            ReaderLogSame(service, s);
            RouteAcks(service, s, s', m);
          }
        case ClientReceives(sendOk) =>
          if s.client.reading && s.clientGot < |s.server.wire| {
            ReceiveAcks(service, s, sendOk, m);
          }
      }
    }
  }

  lemma ReaderLogSame(service: Server.Service, s: State)
    requires SystemInv(service, s) && s.open && s.serverGot < |s.client.queue|
    ensures ReaderLog(Step(service, s, ServerReceives)) == ReaderLog(s)
  {
    hide Server.Route, ServerSide, ReaderSide, AllAcknowledged, AllAnswered, Replying, ClientInvariant.Inv;
    SystemInvariant.RouteExtends(service, s.server, s.client.queue[s.serverGot]);
  }

  lemma {:induction false} ExecuteAcks(service: Server.Service, budget: nat, moves: seq<Move>)
    ensures AllAcksFit(service, Execute(service, budget, moves))
  {
    hide SystemInv, TrafficInv, AcksFit, Step;
    if moves == [] {
      forall m: nat ensures AcksFit(service, Initial(budget), m) {
        NoAcksYet(service, budget, m);
      }
    } else {
      var front := moves[..|moves| - 1];
      ExecuteAcks(service, budget, front);
      ExecuteTraffic(service, budget, front);
      SystemInvariant.ExecuteKeeps(service, budget, front);
      StepAcks(service, Execute(service, budget, front), moves[|moves| - 1]);
    }
  }

  lemma NoAcksYet(service: Server.Service, budget: nat, m: nat)
    ensures AcksFit(service, Initial(budget), m)
  {
  }

  // ---------------------------------------------------------------- their sequence

  lemma EarnedAt(msgs: seq<Message>, m: nat, j: nat)
    requires j < |EarnedAcks(msgs, m)|
    ensures m < |msgs| && j < Chunks(|msgs[m].body|)
    ensures EarnedAcks(msgs, m)[j] == AckPacket(m, AckedBytes(|msgs[m].body|, j))
    ensures ChunkEnd(|msgs[m].body|, j * DATA_CHUNK_SIZE) == AckedBytes(|msgs[m].body|, j)
  {
    hide AckPacket;
  }

  /** The ACKs the client sends for a reply tell byte counts that strictly increase, each one that the chunks received
      so far add up to: prefix sums of the reply's chunks, none beyond what has been received. */
  lemma ReplyAckSequence(service: Server.Service, budget: nat, moves: seq<Move>, m: nat, i: nat)
    returns (before: int, j: nat)
    requires i < |AcksOf(Execute(service, budget, moves).client.queue, m)|
    ensures
      var s := Execute(service, budget, moves);
      var acks, replies := AcksOf(s.client.queue, m), Replies(service, s.server.dispatched);
      && m < |replies|
      && var length := |replies[m].body|;
         && j < DataCount(Of(ReaderLog(s), m)) && j < Chunks(length)
         && acks[i] == AckPacket(m, AckedBytes(length, j))
         && AckedBytes(length, j) <= |Payload(Of(ReaderLog(s), m))|
         && (i > 0 ==> 0 <= before < j && acks[i - 1] == AckPacket(m, AckedBytes(length, before))
                       && AckedBytes(length, before) < AckedBytes(length, j))
  {
    hide Execute, ServerSide, AllAcknowledged, AllAnswered, Assembled, AllSent, HeadersNumbered, ClientInvariant.Inv,
         AckPacket, EarnedAcks, Among, AcksOf, AckedBytes, Replies;
    ExecuteAcks(service, budget, moves);
    SystemInvariant.ExecuteKeeps(service, budget, moves);
    var s := Execute(service, budget, moves);
    var replies, log := Replies(service, s.server.dispatched), ReaderLog(s);
    assert AcksFit(service, s, m);
    before, j := AmongAt(AcksOf(s.client.queue, m), EarnedAcks(replies, m), DataCount(Of(log, m)), i);
    EarnedAt(replies, m, j);
    ConformsPrefix(s.server.wire, s.clientGot, replies);
    SystemInvariant.ReceivedAtLeast(log, replies, m, j);
    if i > 0 {
      EarnedAt(replies, m, before);
    }
  }

  /** The writer task takes every packet of the reader. */
  predicate ReaderSends(moves: seq<Move>) {
    forall i :: 0 <= i < |moves| && moves[i].ClientReceives? ==> moves[i].sendOk
  }

  /** Then the ACKs of a reply are exactly those of all chunks received. */
  lemma {:induction false} ReplyAcksComplete(service: Server.Service, budget: nat, moves: seq<Move>, m: nat)
    requires ReaderSends(moves)
    ensures
      var s := Execute(service, budget, moves);
      |AcksOf(s.client.queue, m)| == DataCount(Of(ReaderLog(s), m))
  {
    hide SystemInv, TrafficInv, Step, AcksOf, DataCount, Of;
    if moves == [] {
      NoneCounted(budget, m);
    } else {
      var front := moves[..|moves| - 1];
      assert forall i :: 0 <= i < |front| ==> front[i] == moves[i];
      ReplyAcksComplete(service, budget, front, m);
      ExecuteTraffic(service, budget, front);
      SystemInvariant.ExecuteKeeps(service, budget, front);
      CountStep(service, Execute(service, budget, front), moves[|moves| - 1], m);
    }
  }

  lemma NoneCounted(budget: nat, m: nat)
    ensures |AcksOf(Initial(budget).client.queue, m)| == DataCount(Of(ReaderLog(Initial(budget)), m))
  {
  }

  lemma CountStep(service: Server.Service, s: State, move: Move, m: nat)
    requires SystemInv(service, s) && TrafficInv(service, s) && (move.ClientReceives? ==> move.sendOk)
    requires |AcksOf(s.client.queue, m)| == DataCount(Of(ReaderLog(s), m))
    ensures
      var s' := Step(service, s, move);
      |AcksOf(s'.client.queue, m)| == DataCount(Of(ReaderLog(s'), m))
  {
    hide SystemInv, TrafficInv, Apply, Receive, Server.Route, AcksOf, DataCount, Of, ReaderLog, EarnedAcks, Replies;
    match move {
      case Local(e) =>
        if !e.Packet? {
          LocalCount(s, e, m);
        }
      case ServerReceives =>
        if s.open && s.serverGot < |s.client.queue| {
          ReaderLogSame(service, s);
        }
      case ClientReceives(_) =>
        if s.client.reading && s.clientGot < |s.server.wire| {
          ReaderAnswers(service, s, true, m);
        }
    }
  }

  lemma LocalCount(s: State, e: Event, m: nat)
    requires !e.Packet?
    ensures
      var s' := s.(client := Apply(s.client, e));
      AcksOf(s'.client.queue, m) == AcksOf(s.client.queue, m) && ReaderLog(s') == ReaderLog(s)
  {
    hide Apply;
    LocalAppends(s.client, e);
    var queue' := Apply(s.client, e).queue;
    if queue' != s.client.queue {
      AcksOfSnoc(s.client.queue, queue'[|s.client.queue|], m);
      assert queue' == s.client.queue + [queue'[|s.client.queue|]];
    }
  }
}
