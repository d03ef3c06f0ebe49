/**
 What a server writes, whatever bytes its peer sends: between two reads no reply is in progress,
 and the replies on the wire are numbered 0, 1, 2, ... in the order their requests ended.
 */
module ReplyStream {
  import opened Packets
  import opened Framing
  import opened Messages
  import opened Server

  /** Reply `k` answers the `k`-th dispatched request. */
  function Replies(service: Service, dispatched: seq<Dispatch>): (msgs: seq<Message>)
    ensures |msgs| == |dispatched|
  {
    seq(|dispatched|, k requires 0 <= k < |dispatched| => ReplyMessage(service, k, dispatched[k].request))
  }

  /** The HEADERs of a log are numbered in order, from 0. */
  ghost predicate HeadersNumbered(log: seq<Packet>) {
    forall i :: 0 <= i < |log| && log[i].packetType.Header? ==> log[i].msgNo == HeaderCount(log[..i])
  }

  ghost predicate AllSent(wire: seq<Packet>, replies: seq<Message>) {
    forall k :: 0 <= k < |replies| ==> Of(wire, k) == Full(k, replies[k])
  }

  /** Nothing is left in `outgoing`; each reply is on the wire, in its place and whole, except that
      a failed writer may have cut the last one short. */
  ghost predicate Replying(service: Service, s: ServerState) {
    var replies := Replies(service, s.dispatched);
    && s.outgoing == map[]
    && |s.dispatched| == s.nextOut
    && Conforms(s.wire, replies)
    && HeadersNumbered(s.wire)
    && (s.budget > 0 ==> AllSent(s.wire, replies) && HeaderCount(s.wire) == s.nextOut)
  }

  lemma HeadersNumberedSnoc(log: seq<Packet>, p: Packet)
    requires HeadersNumbered(log)
    requires p.packetType.Header? ==> p.msgNo == HeaderCount(log)
    ensures HeadersNumbered(log + [p])
  {
    var longer := log + [p];
    forall i | 0 <= i < |longer| && longer[i].packetType.Header?
      ensures longer[i].msgNo == HeaderCount(longer[..i])
    {
      assert longer[..i] == log[..i];
      assert log[..|log|] == log;
    }
  }

  /** A packet that belongs to no message leaves the replies on the wire as they are. */
  lemma OtherPacketKeeps(service: Service, s: ServerState, p: Packet)
    requires Replying(service, s) && !InMessage(p, p.msgNo)
    ensures Replying(service, Written(s, [p]))
  {
    hide Full, Replies;
    var s' := Written(s, [p]);
    if s.budget > 0 {
      assert [p][..1] == [p];
      HeadersNumberedSnoc(s.wire, p);
      HeaderCountSnoc(s.wire, p);
      forall m: nat ensures Of(s'.wire, m) == Of(s.wire, m) {
        OfSnoc(s.wire, p, m);
      }
      assert Conforms(s'.wire, Replies(service, s.dispatched));
    } else {
      assert [p][..0] == [];
      assert s' == s;
    }
  }

  /** A log with one more packet of message `m`. */
  lemma PacketAppended(log: seq<Packet>, m: nat, p: Packet)
    requires HeadersNumbered(log) && InMessage(p, m)
    requires p.packetType.Header? ==> HeaderCount(log) == m
    ensures HeadersNumbered(log + [p])
    ensures HeaderCount(log + [p]) == HeaderCount(log) + (if p.packetType.Header? then 1 else 0)
    ensures forall j: nat :: Of(log + [p], j) == Of(log, j) + (if j == m then [p] else [])
  {
    HeadersNumberedSnoc(log, p);
    HeaderCountSnoc(log, p);
    forall j: nat ensures Of(log + [p], j) == Of(log, j) + (if j == m then [p] else []) {
      OfSnoc(log, p, j);
    }
  }

  /** The first `n` packets of a message at the end of a log. */
  lemma {:induction false} MessageAppended(log: seq<Packet>, m: nat, msg: Message, n: nat)
    requires n <= |Full(m, msg)| && HeadersNumbered(log)
    requires n > 0 ==> HeaderCount(log) == m
    ensures
      var longer := log + Full(m, msg)[..n];
      && HeadersNumbered(longer)
      && HeaderCount(longer) == HeaderCount(log) + (if n > 0 then 1 else 0)
      && forall j: nat :: Of(longer, j) == Of(log, j) + (if j == m then Full(m, msg)[..n] else [])
  {
    hide Full, HeadersNumbered, HeaderCount, Of;
    var full := Full(m, msg);
    if n == 0 {
      assert log + full[..0] == log;
    } else {
      MessageAppended(log, m, msg, n - 1);
      var shorter := log + full[..n - 1];
      assert full[..n] == full[..n - 1] + [full[n - 1]];
      assert log + full[..n] == shorter + [full[n - 1]];
      FullAt(m, msg, n - 1);
      PacketAppended(shorter, m, full[n - 1]);
    }
  }

  lemma RepliesSnoc(service: Service, dispatched: seq<Dispatch>, d: Dispatch)
    ensures Replies(service, dispatched + [d])
            == Replies(service, dispatched) + [ReplyMessage(service, |dispatched|, d.request)]
  {
  }

  /** Answering a request adds its reply under the next number. */
  lemma DispatchKeeps(service: Service, s: ServerState, d: Dispatch)
    requires Replying(service, s)
    ensures Replying(service, Dispatched(service, s, d))
  {
    hide Full, HeadersNumbered, HeaderCount, Of, Replies, ReplyMessage;
    var s' := Dispatched(service, s, d);
    var msg := ReplyMessage(service, s.nextOut, d.request);
    var n := Min(|Full(s.nextOut, msg)|, s.budget);
    var replies := Replies(service, s.dispatched);
    WrittenReply(service, s, d);
    MessageAppended(s.wire, s.nextOut, msg, n);
    RepliesSnoc(service, s.dispatched, d);
    forall m: nat ensures Of(s'.wire, m) <= Expected(replies + [msg], m) {
      assert Of(s.wire, m) <= Expected(replies, m);
    }
  }

  lemma WrittenReply(service: Service, s: ServerState, d: Dispatch)
    requires s.outgoing == map[]
    ensures
      var msg := ReplyMessage(service, s.nextOut, d.request);
      var n := Min(|Full(s.nextOut, msg)|, s.budget);
      Dispatched(service, s, d) == s.(wire := s.wire + Full(s.nextOut, msg)[..n], budget := s.budget - n,
                                      nextOut := s.nextOut + 1, dispatched := s.dispatched + [d])
  {
    hide Full, Respond;
    assert s.outgoing - {s.nextOut} == map[];
  }

  /** Every packet, well-formed or not, keeps the reply stream in order. */
  lemma RouteKeeps(service: Service, s: ServerState, p: Packet)
    requires Replying(service, s)
    ensures Replying(service, Route(service, s, p).0)
  {
    hide Full, Replies, Replied, Conforms, HeadersNumbered, AllSent;
    match p.packetType {
      case Data =>
        if p.msgNo in s.incoming {
          var msg := s.incoming[p.msgNo];
          var body := msg.body + p.body;
          var s' := s.(incoming := s.incoming[p.msgNo := Incoming(msg.header, body, msg.received + |p.body|)]);
          OtherPacketKeeps(service, s', AckPacket(p.msgNo, msg.received + |p.body|));
        }
      case Eof =>
        if p.msgNo in s.incoming {
          var msg := s.incoming[p.msgNo];
          var s' := s.(incoming := s.incoming - {p.msgNo});
          assert Replying(service, s');
          DispatchKeeps(service, s', Dispatch(p.msgNo, Message(msg.header, msg.body)));
        }
      case Ping => OtherPacketKeeps(service, s, PongPacket(p.msgNo));
      case _ =>
    }
  }

  lemma {:induction false} RouteAllKeeps(service: Service, s: ServerState, ps: seq<Packet>)
    requires Replying(service, s)
    ensures Replying(service, RouteAll(service, s, ps).0)
    decreases |ps|
  {
    hide Replying, Route;
    if ps != [] {
      RouteKeeps(service, s, ps[0]);
      if Route(service, s, ps[0]).1 {
        RouteAllKeeps(service, Route(service, s, ps[0]).0, ps[1..]);
      }
    }
  }

  lemma {:induction false} ServeAllKeeps(codec: HeaderCodec, service: Service, c: Connection, events: seq<ReadEvent>)
    requires Replying(service, c.state)
    ensures Replying(service, ServeAll(codec, service, c, events).state)
    decreases |events|
  {
    hide Replying, Drain;
    if events != [] {
      if c.open && events[0].Bytes? {
        RouteAllKeeps(service, c.state, Drain(codec, c.buf + events[0].chunk).packets);
      }
      ServeAllKeeps(codec, service, Serve(codec, service, c, events[0]), events[1..]);
    }
  }

  lemma FreshReplying(service: Service, budget: nat)
    ensures Replying(service, Fresh(budget))
  {
    assert Replies(service, []) == [];
  }

  /** For every byte stream, cut into reads in any way, every handler and every point at which the
      writer fails: when the connection reads, no reply is outstanding, so it is busy exactly when some
      request is half received; the HEADERs written are numbered 0, 1, 2, ...; and while the writer
      works, reply `k` is on the wire complete and answers the `k`-th request that ended. */
  lemma ReplyStreamInOrder(codec: HeaderCodec, service: Service, budget: nat, events: seq<ReadEvent>)
    ensures
      var s := ServeAll(codec, service, Connection(Fresh(budget), [], true), events).state;
      && s.outgoing == map[] && (Busy(s) <==> s.incoming != map[])
      && HeadersNumbered(s.wire) && Conforms(s.wire, Replies(service, s.dispatched))
      && (s.budget > 0 ==>
            HeaderCount(s.wire) == |s.dispatched|
            && forall k :: 0 <= k < |s.dispatched| ==>
                 Of(s.wire, k) == Full(k, ReplyMessage(service, k, s.dispatched[k].request)))
  {
    FreshReplying(service, budget);
    ServeAllKeeps(codec, service, Connection(Fresh(budget), [], true), events);
    var s := ServeAll(codec, service, Connection(Fresh(budget), [], true), events).state;
    assert s.budget > 0 ==> AllSent(s.wire, Replies(service, s.dispatched));
  }

  /** Because no reply is outstanding between reads, an ACK of the peer never changes anything. */
  lemma AcksChangeNothing(service: Service, s: ServerState, p: Packet)
    requires Replying(service, s) && p.packetType.Ack?
    ensures Route(service, s, p) == (s, true)
  {
    hide Replies, Conforms;
    assert Acknowledge(s.outgoing, p.msgNo, p.body) == s.outgoing;
  }
}
