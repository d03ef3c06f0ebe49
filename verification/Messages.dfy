/**
 Messages as both ends exchange them: a HEADER, the body in DATA packets of at most 2048 bytes,
 an EOF. Many messages share one packet log; this module says what a receiver that demultiplexes
 the log by message number holds at any point, whatever the interleaving.
 */
module Messages {
  import opened Wrappers
  import opened Text
  import opened Packets

  datatype Message = Message(header: PacketHeader, body: seq<Byte>)

  /** A message being received (`IncomingRequest`, `IncomingMessage`). */
  datatype Incoming = Incoming(header: PacketHeader, body: seq<Byte>, received: nat)

  /** Bytes sent and acknowledged of a message being sent (`OutgoingState`, `OutgoingReplyState`). */
  datatype Progress = Progress(sent: nat, acknowledged: nat)

  function HeaderPacket(m: nat, h: PacketHeader): Packet {
    Packet(Header, m, Some(h), [])
  }

  function DataPacket(m: nat, chunk: seq<Byte>): Packet {
    Packet(Data, m, None, chunk)
  }

  function EofPacket(m: nat): Packet {
    Packet(Eof, m, None, [])
  }

  /** The number of bytes received so far, as decimal text. */
  function AckPacket(m: nat, received: nat): Packet {
    Packet(Ack, m, None, Encode(Decimal(received)))
  }

  function PongPacket(m: nat): Packet {
    Packet(Pong, m, None, [])
  }

  /** The value of an ACK body. */
  function AckValue(body: seq<Byte>): Option<nat> {
    match ParseUnsigned(DecodeLossy(body), U64_BOUND)
    case Some(v) => if v > 0 then Some(v) else None
    case None => None
  }

  lemma AckValueOfPacket(m: nat, received: nat)
    ensures AckValue(AckPacket(m, received).body) == if 0 < received < U64_BOUND then Some(received) else None
  {
    LossyEncode(Decimal(received));
    ParseDecimal(received, U64_BOUND);
  }

  /** The empty text and "0" are no TXERR text. */
  predicate InvalidTxerr(body: seq<Byte>) {
    DecodeLossy(body) == "" || DecodeLossy(body) == "0"
  }

  // ---------------------------------------------------------------- one message as packets

  /** Where the chunk that starts at `offset` ends. */
  function ChunkEnd(length: nat, offset: nat): (end: nat)
    requires offset <= length
    ensures offset <= end <= length && (offset < length ==> offset < end)
  {
    if offset + DATA_CHUNK_SIZE < length then offset + DATA_CHUNK_SIZE else length
  }

  /** How many chunks the first `offset` bytes take. */
  function Chunks(offset: nat): nat {
    (offset + (DATA_CHUNK_SIZE - 1)) / DATA_CHUNK_SIZE
  }

  /** A chunk boundary of a body of this length. */
  predicate Aligned(length: nat, offset: nat) {
    offset <= length && (offset % DATA_CHUNK_SIZE == 0 || offset == length)
  }

  function PacketAt(m: nat, msg: Message, i: nat): Packet
    requires i < Chunks(|msg.body|) + 2
  {
    if i == 0 then HeaderPacket(m, msg.header)
    else if i <= Chunks(|msg.body|) then
      var offset := (i - 1) * DATA_CHUNK_SIZE;
      DataPacket(m, msg.body[offset..ChunkEnd(|msg.body|, offset)])
    else EofPacket(m)
  }

  /** All packets of message number `m`. */
  function Full(m: nat, msg: Message): (ps: seq<Packet>)
    ensures |ps| == Chunks(|msg.body|) + 2
  {
    seq(Chunks(|msg.body|) + 2, i requires 0 <= i < Chunks(|msg.body|) + 2 => PacketAt(m, msg, i))
  }

  /** A message is its HEADER, its body cut every 2048 bytes, and an empty EOF, all under its number. */
  lemma FullShape(m: nat, msg: Message, i: nat)
    requires i < |Full(m, msg)|
    ensures
      var length := |msg.body|;
      var n := (length + 2047) / 2048;
      && |Full(m, msg)| == n + 2
      && Full(m, msg)[i] ==
         if i == 0 then Packet(Header, m, Some(msg.header), [])
         else if i == n + 1 then Packet(Eof, m, None, [])
         else Packet(Data, m, None,
                     msg.body[2048 * (i - 1)..if 2048 * i < length then 2048 * i else length])
  {
    assert 0 < i <= Chunks(|msg.body|) ==> 2048 * (i - 1) < |msg.body|;
  }

  /** The packets of a message that are sent once `offset` bytes of its body are. */
  function SentUpTo(m: nat, msg: Message, offset: nat): seq<Packet>
    requires Aligned(|msg.body|, offset)
  {
    Full(m, msg)[..1 + Chunks(offset)]
  }

  lemma NextChunk(m: nat, msg: Message, offset: nat)
    requires Aligned(|msg.body|, offset) && offset < |msg.body|
    ensures Aligned(|msg.body|, ChunkEnd(|msg.body|, offset))
    ensures SentUpTo(m, msg, ChunkEnd(|msg.body|, offset)) ==
            SentUpTo(m, msg, offset) + [DataPacket(m, msg.body[offset..ChunkEnd(|msg.body|, offset)])]
  {
    var end := ChunkEnd(|msg.body|, offset);
    assert offset == Chunks(offset) * DATA_CHUNK_SIZE;
    assert Chunks(end) == Chunks(offset) + 1;
  }

  // ---------------------------------------------------------------- message packets in a log

  predicate InMessage(p: Packet, m: nat) {
    p.msgNo == m && (p.packetType.Header? || p.packetType.Data? || p.packetType.Eof? || p.packetType.Txerr?)
  }

  /** The packets of message `m` in a log, in order. */
  function Of(log: seq<Packet>, m: nat): seq<Packet> {
    if log == [] then []
    else
      var p := log[|log| - 1];
      Of(log[..|log| - 1], m) + (if InMessage(p, m) then [p] else [])
  }

  /** The body bytes some DATA packets carry. */
  function Payload(ps: seq<Packet>): seq<Byte> {
    if ps == [] then []
    else
      var p := ps[|ps| - 1];
      Payload(ps[..|ps| - 1]) + (if p.packetType.Data? then p.body else [])
  }

  /** How many HEADERs a log holds. */
  function HeaderCount(log: seq<Packet>): nat {
    if log == [] then 0
    else HeaderCount(log[..|log| - 1]) + (if log[|log| - 1].packetType.Header? then 1 else 0)
  }

  lemma OfSnoc(log: seq<Packet>, p: Packet, m: nat)
    ensures Of(log + [p], m) == Of(log, m) + (if InMessage(p, m) then [p] else [])
  {
    assert (log + [p])[..|log|] == log;
  }

  lemma PayloadSnoc(ps: seq<Packet>, p: Packet)
    ensures Payload(ps + [p]) == Payload(ps) + (if p.packetType.Data? then p.body else [])
  {
    assert (ps + [p])[..|ps|] == ps;
  }

  lemma HeaderCountSnoc(log: seq<Packet>, p: Packet)
    ensures HeaderCount(log + [p]) == HeaderCount(log) + (if p.packetType.Header? then 1 else 0)
  {
    assert (log + [p])[..|log|] == log;
  }

  lemma {:induction false} OfPrefix(log: seq<Packet>, g: nat, m: nat)
    requires g <= |log|
    ensures Of(log[..g], m) <= Of(log, m)
  {
    if g < |log| {
      var front := log[..|log| - 1];
      OfPrefix(front, g, m);
      assert front[..g] == log[..g];
    } else {
      assert log[..g] == log;
    }
  }

  lemma {:induction false} PayloadPrefix(ps: seq<Packet>, qs: seq<Packet>)
    requires ps <= qs
    ensures Payload(ps) <= Payload(qs)
  {
    if |ps| < |qs| {
      PayloadPrefix(ps, qs[..|qs| - 1]);
    } else {
      assert ps == qs;
    }
  }

  /** The chunks sent up to an offset carry the body up to there. */
  lemma {:induction false} PayloadSentUpTo(m: nat, msg: Message, i: nat)
    requires i <= Chunks(|msg.body|)
    ensures
      var end := if i * DATA_CHUNK_SIZE < |msg.body| then i * DATA_CHUNK_SIZE else |msg.body|;
      Payload(Full(m, msg)[..1 + i]) == msg.body[..end]
  {
    var full := Full(m, msg);
    assert full[..1 + i] == full[..i] + [full[i]];
    PayloadSnoc(full[..i], full[i]);
    if i == 0 {
      assert Payload(full[..0]) == [];
    } else {
      PayloadSentUpTo(m, msg, i - 1);
      var offset := (i - 1) * DATA_CHUNK_SIZE;
      assert msg.body[..offset] + msg.body[offset..ChunkEnd(|msg.body|, offset)] ==
        msg.body[..ChunkEnd(|msg.body|, offset)];
    }
  }

  /** A log keeps to a list of messages: of each number it holds the first packets of that message,
      in any interleaving, and nothing else. */
  ghost predicate Conforms(log: seq<Packet>, msgs: seq<Message>) {
    forall m: nat :: Of(log, m) <= Expected(msgs, m)
  }

  function Expected(msgs: seq<Message>, m: nat): seq<Packet> {
    if m < |msgs| then Full(m, msgs[m]) else []
  }

  lemma ConformsPrefix(log: seq<Packet>, g: nat, msgs: seq<Message>)
    requires g <= |log| && Conforms(log, msgs)
    ensures Conforms(log[..g], msgs)
  {
    forall m: nat ensures Of(log[..g], m) <= Expected(msgs, m) {
      OfPrefix(log, g, m);
      assert Of(log, m) <= Expected(msgs, m);
    }
  }

  // ---------------------------------------------------------------- the receiver

  /** What a receiver holds of message `m`, of which `ps` have arrived. */
  ghost predicate AssembledAt(ps: seq<Packet>, msgs: seq<Message>, incoming: map<nat, Incoming>, next: nat, m: nat) {
    if m >= next then ps == [] && m !in incoming
    else
      && m < |msgs| && 1 <= |ps| && ps <= Full(m, msgs[m])
      && (m in incoming <==> |ps| < |Full(m, msgs[m])|)
      && (m in incoming ==> incoming[m] == Incoming(msgs[m].header, Payload(ps), |Payload(ps)|))
  }

  /** The receiver's map holds exactly the begun and unfinished messages, each with its header
      and the bytes of its body that have arrived; `next` messages have begun. */
  ghost predicate Assembled(log: seq<Packet>, msgs: seq<Message>, incoming: map<nat, Incoming>, next: nat) {
    next <= |msgs| && forall m: nat :: AssembledAt(Of(log, m), msgs, incoming, next, m)
  }

  /** The part common to both receivers on well-formed traffic: HEADERs open, DATA extend, EOFs close. */
  function Assemble(incoming: map<nat, Incoming>, next: nat, p: Packet): (map<nat, Incoming>, nat) {
    match p.packetType
    case Header => (if p.header.Some? then incoming[p.msgNo := Incoming(p.header.value, [], 0)] else incoming, next + 1)
    case Data =>
      if p.msgNo in incoming then
        var msg := incoming[p.msgNo];
        (incoming[p.msgNo := Incoming(msg.header, msg.body + p.body, msg.received + |p.body|)], next)
      else (incoming, next)
    case Eof => (incoming - {p.msgNo}, next)
    case _ => (incoming, next)
  }

  /** In a conforming log the next packet of a message is the one its list has next. */
  lemma NextExpected(log: seq<Packet>, p: Packet, msgs: seq<Message>)
    requires Conforms(log + [p], msgs) && InMessage(p, p.msgNo)
    ensures p.msgNo < |msgs| && |Of(log, p.msgNo)| < |Full(p.msgNo, msgs[p.msgNo])|
    ensures p == PacketAt(p.msgNo, msgs[p.msgNo], |Of(log, p.msgNo)|)
    ensures Of(log, p.msgNo) <= Full(p.msgNo, msgs[p.msgNo])
  {
    hide Full, PacketAt;
    var m := p.msgNo;
    OfSnoc(log, p, m);
    assert Of(log + [p], m) <= Expected(msgs, m);
    assert Of(log + [p], m)[|Of(log, m)|] == p;
    if m < |msgs| {
      FullAt(m, msgs[m], |Of(log, m)|);
    }
  }

  lemma FullAt(m: nat, msg: Message, i: nat)
    ensures i < |Full(m, msg)| ==> Full(m, msg)[i] == PacketAt(m, msg, i)
  {
  }

  /** Every packet of a conforming log keeps the receiver's map right. */
  lemma AssembleStep(log: seq<Packet>, msgs: seq<Message>, incoming: map<nat, Incoming>, next: nat, p: Packet)
    requires Assembled(log, msgs, incoming, next) && Conforms(log + [p], msgs)
    requires p.packetType.Header? ==> p.msgNo == next
    ensures
      var r := Assemble(incoming, next, p);
      Assembled(log + [p], msgs, r.0, r.1)
  {
    hide Full, PacketAt, Conforms;
    var (incoming', next') := Assemble(incoming, next, p);
    assert AssembledAt(Of(log, p.msgNo), msgs, incoming, next, p.msgNo);
    if InMessage(p, p.msgNo) {
      NextExpected(log, p, msgs);
    }
    forall m: nat ensures AssembledAt(Of(log + [p], m), msgs, incoming', next', m) {
      OfSnoc(log, p, m);
      assert AssembledAt(Of(log, m), msgs, incoming, next, m);
      if InMessage(p, m) {
        AssembleOwn(Of(log, m), msgs, incoming, next, p);
      } else {
        assert Of(log + [p], m) == Of(log, m);
        if m == p.msgNo {
          assert (incoming', next') == (incoming, next);
        } else {
          assert m in incoming' <==> m in incoming;
          assert m in incoming ==> incoming'[m] == incoming[m];
          assert m >= next' <==> m >= next;
        }
      }
    }
  }

  /** The step for the message the packet belongs to. */
  lemma AssembleOwn(ps: seq<Packet>, msgs: seq<Message>, incoming: map<nat, Incoming>, next: nat, p: Packet)
    requires p.msgNo < |msgs| && InMessage(p, p.msgNo)
    requires AssembledAt(ps, msgs, incoming, next, p.msgNo)
    requires |ps| < |Full(p.msgNo, msgs[p.msgNo])| && p == PacketAt(p.msgNo, msgs[p.msgNo], |ps|)
    requires p.packetType.Header? ==> p.msgNo == next
    ensures
      var r := Assemble(incoming, next, p);
      AssembledAt(ps + [p], msgs, r.0, r.1, p.msgNo)
  {
    PayloadSnoc(ps, p);
    FullAt(p.msgNo, msgs[p.msgNo], |ps|);
    assert p.packetType.Header? <==> |ps| == 0;
    assert p.packetType.Eof? <==> |ps| + 1 == |Full(p.msgNo, msgs[p.msgNo])|;
  }

  /** When its EOF arrives, a message has arrived whole. */
  lemma CompleteAtEof(log: seq<Packet>, msgs: seq<Message>, incoming: map<nat, Incoming>, next: nat, p: Packet)
    requires Assembled(log, msgs, incoming, next) && Conforms(log + [p], msgs) && p.packetType.Eof?
    ensures p.body == [] && p.msgNo in incoming && p.msgNo < |msgs|
    ensures |Of(log, p.msgNo)| + 1 == |Full(p.msgNo, msgs[p.msgNo])|
    ensures incoming[p.msgNo] == Incoming(msgs[p.msgNo].header, msgs[p.msgNo].body, |msgs[p.msgNo].body|)
  {
    NextExpected(log, p, msgs);
    var m := p.msgNo;
    var ps := Of(log, m);
    assert AssembledAt(ps, msgs, incoming, next, m);
    PayloadSentUpTo(m, msgs[m], Chunks(|msgs[m].body|));
    assert |ps| == 1 + Chunks(|msgs[m].body|);
    assert ps == Full(m, msgs[m])[..|ps|];
    assert msgs[m].body[..|msgs[m].body|] == msgs[m].body;
  }

  /** DATA in a conforming log belongs to a message being received. */
  lemma DataIsExpected(log: seq<Packet>, msgs: seq<Message>, incoming: map<nat, Incoming>, next: nat, p: Packet)
    requires Assembled(log, msgs, incoming, next) && Conforms(log + [p], msgs) && p.packetType.Data?
    ensures p.msgNo < next && p.msgNo in incoming && p.body != []
  {
    NextExpected(log, p, msgs);
    assert AssembledAt(Of(log, p.msgNo), msgs, incoming, next, p.msgNo);
  }

  /** A HEADER in a conforming log carries a header and no number already begun; TXERR does not occur. */
  lemma HeaderIsNew(log: seq<Packet>, msgs: seq<Message>, incoming: map<nat, Incoming>, next: nat, p: Packet)
    requires Assembled(log, msgs, incoming, next) && Conforms(log + [p], msgs) && InMessage(p, p.msgNo)
    ensures !p.packetType.Txerr?
    ensures p.packetType.Header? ==> next <= p.msgNo < |msgs| && p.header == Some(msgs[p.msgNo].header)
  {
    NextExpected(log, p, msgs);
    assert AssembledAt(Of(log, p.msgNo), msgs, incoming, next, p.msgNo);
  }

  lemma AssembledGrows(log: seq<Packet>, msgs: seq<Message>, more: seq<Message>, incoming: map<nat, Incoming>,
                       next: nat)
    requires Assembled(log, msgs, incoming, next) && msgs <= more
    ensures Assembled(log, more, incoming, next)
  {
    hide Full;
    forall m: nat ensures AssembledAt(Of(log, m), more, incoming, next, m) {
      assert AssembledAt(Of(log, m), msgs, incoming, next, m);
    }
  }
}
