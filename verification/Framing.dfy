/**
 The accumulate / parse / drain loop both ends run on their byte stream
 (client/reader.rs:46-88, server_connection.rs:80-116): whatever the sizes of the reads, it routes
 the packets a single parse of the whole stream would give, and exactly which streams can
 trip its buffer cap.
 */
module Framing {
  import opened Wrappers
  import opened Text
  import opened Packets

  const READ_SIZE: nat := 4096
  const BUFFER_CAP: nat := MAX_PACKET_SIZE + 100
  /** The longest framed packet that cannot trip the cap. */
  const SAFE_FRAME: nat := BUFFER_CAP - READ_SIZE + 1

  // ---------------------------------------------------------------- one buffer

  /** Packets taken off the front of a buffer, what is left, and the error that stopped the loop. */
  datatype Drained = Drained(packets: seq<Packet>, rest: seq<Byte>, fatal: Option<FatalError>)

  function Drain(codec: HeaderCodec, buf: seq<Byte>): Drained
    decreases |buf|
  {
    if buf == [] then Drained([], [], None)
    else
      match Parse(codec, buf)
      case Success(p, used) =>
        var d := Drain(codec, buf[used..]);
        Drained([p] + d.packets, d.rest, d.fatal)
      case Fatal(e) => Drained([], buf, Some(e))
      case _ => Drained([], buf, None)
  }

  /** Draining a buffer and later the left-over with more bytes is draining all the bytes. */
  lemma {:induction false} DrainConcat(codec: HeaderCodec, a: seq<Byte>, b: seq<Byte>)
    requires Drain(codec, a).fatal.None?
    ensures
      var d, e := Drain(codec, a), Drain(codec, Drain(codec, a).rest + b);
      Drain(codec, a + b) == Drained(d.packets + e.packets, e.rest, e.fatal)
    decreases |a|
  {
    hide Parse, Framed;
    if a == [] {
      assert a + b == b;
    } else if Parse(codec, a).Success? {
      var used := Parse(codec, a).bytesUsed;
      SuccessExtends(codec, a, b);
      assert (a + b)[used..] == a[used..] + b;
      DrainConcat(codec, a[used..], b);
    }
  }

  /** Packets found before an error are found again when more bytes arrive. */
  lemma {:induction false} DrainPrefix(codec: HeaderCodec, a: seq<Byte>, b: seq<Byte>)
    ensures Drain(codec, a).packets <= Drain(codec, a + b).packets
    decreases |a|
  {
    hide Parse, Framed;
    if a != [] && Parse(codec, a).Success? {
      var used := Parse(codec, a).bytesUsed;
      SuccessExtends(codec, a, b);
      assert (a + b)[used..] == a[used..] + b;
      DrainPrefix(codec, a[used..], b);
    }
  }

  // ---------------------------------------------------------------- a sequence of reads

  datatype Status = Running | Overflowed | Broken(error: FatalError)

  /** The loop between two reads: its buffer, the packets routed so far, and how it stands. */
  datatype ReadState = ReadState(buf: seq<Byte>, routed: seq<Packet>, status: Status)

  function OnRead(codec: HeaderCodec, r: ReadState, chunk: seq<Byte>): ReadState {
    if r.status != Running then r
    else if |r.buf + chunk| > BUFFER_CAP then ReadState(r.buf + chunk, r.routed, Overflowed)
    else
      var d := Drain(codec, r.buf + chunk);
      ReadState(d.rest, r.routed + d.packets, if d.fatal.Some? then Broken(d.fatal.value) else Running)
  }

  function ReadAll(codec: HeaderCodec, chunks: seq<seq<Byte>>): ReadState {
    if chunks == [] then ReadState([], [], Running)
    else OnRead(codec, ReadAll(codec, chunks[..|chunks| - 1]), chunks[|chunks| - 1])
  }

  function Concat(chunks: seq<seq<Byte>>): seq<Byte> {
    if chunks == [] then [] else Concat(chunks[..|chunks| - 1]) + chunks[|chunks| - 1]
  }

  /** Segmentation independence, for arbitrary bytes: while the loop runs, the packets it has routed
      and its buffer are those of one parse of everything read; once it has stopped, the
      packets it routed are still the first ones of that parse. */
  lemma {:induction false} SegmentationIndependent(codec: HeaderCodec, chunks: seq<seq<Byte>>)
    ensures
      var r, d := ReadAll(codec, chunks), Drain(codec, Concat(chunks));
      && r.routed <= d.packets
      && (r.status.Running? ==> d == Drained(r.routed, r.buf, None))
  {
    hide Parse, Framed;
    if chunks != [] {
      var front, last := chunks[..|chunks| - 1], chunks[|chunks| - 1];
      SegmentationIndependent(codec, front);
      var r := ReadAll(codec, front);
      DrainPrefix(codec, Concat(front), last);
      if r.status.Running? {
        DrainConcat(codec, Concat(front), last);
      }
    }
  }

  // ---------------------------------------------------------------- streams of written packets

  function Stream(codec: HeaderCodec, ps: seq<Packet>): seq<Byte> {
    if ps == [] then [] else Framed(codec, ps[0]) + Stream(codec, ps[1..])
  }

  ghost predicate AllSendable(codec: HeaderCodec, ps: seq<Packet>) {
    forall i :: 0 <= i < |ps| ==> Sendable(codec, ps[i])
  }

  /** How many packets lie completely within the first `n` bytes of the stream of `ps`. */
  function Complete(codec: HeaderCodec, ps: seq<Packet>, n: nat): (k: nat)
    ensures k <= |ps|
  {
    if ps == [] || n < |Framed(codec, ps[0])| then 0
    else 1 + Complete(codec, ps[1..], n - |Framed(codec, ps[0])|)
  }

  /** The bytes of packet `Complete(ps, n)` among the first `n`. */
  function Partial(codec: HeaderCodec, ps: seq<Packet>, n: nat): (m: nat)
    ensures m <= n
  {
    if ps == [] || n < |Framed(codec, ps[0])| then n
    else Partial(codec, ps[1..], n - |Framed(codec, ps[0])|)
  }

  lemma {:induction false} CompleteBounds(codec: HeaderCodec, ps: seq<Packet>, n: nat)
    requires n <= |Stream(codec, ps)|
    ensures
      var k, m := Complete(codec, ps, n), Partial(codec, ps, n);
      && n + |Stream(codec, ps[k..])| == |Stream(codec, ps)| + m
      && (if k == |ps| then m == 0 else m < |Framed(codec, ps[k])| <= |Stream(codec, ps[k..])|)
    decreases |ps|
  {
    hide Framed;
    if ps == [] {
    } else if n < |Framed(codec, ps[0])| {
      assert ps[0..] == ps;
    } else {
      var size := |Framed(codec, ps[0])|;
      assert |Stream(codec, ps)| == size + |Stream(codec, ps[1..])|;
      CompleteBounds(codec, ps[1..], n - size);
      var k := Complete(codec, ps[1..], n - size);
      assert ps[1..][k..] == ps[k + 1..];
      assert k < |ps[1..]| ==> ps[1..][k] == ps[k + 1];
    }
  }

  lemma DrainFramed(codec: HeaderCodec, p: Packet, tail: seq<Byte>)
    requires Sendable(codec, p)
    ensures
      var d := Drain(codec, tail);
      Drain(codec, Framed(codec, p) + tail) == Drained([p] + d.packets, d.rest, d.fatal)
  {
    hide Parse, Framed;
    ParseFramed(codec, p, tail);
    assert (Framed(codec, p) + tail)[|Framed(codec, p)|..] == tail;
  }

  lemma DrainTruncated(codec: HeaderCodec, p: Packet, n: nat)
    requires Sendable(codec, p) && n < |Framed(codec, p)|
    ensures Drain(codec, Framed(codec, p)[..n]) == Drained([], Framed(codec, p)[..n], None)
  {
    hide Parse, Framed;
    if n > 0 {
      ParseTruncated(codec, p, n);
    }
  }

  /** One parse of the first `n` bytes of a stream of written packets gives the complete packets
      and leaves the beginning of the next. */
  lemma {:induction false} DrainStream(codec: HeaderCodec, ps: seq<Packet>, n: nat)
    requires AllSendable(codec, ps) && n <= |Stream(codec, ps)|
    ensures
      var m := Partial(codec, ps, n);
      Drain(codec, Stream(codec, ps)[..n]) ==
        Drained(ps[..Complete(codec, ps, n)], Stream(codec, ps)[n - m..n], None)
    decreases |ps|
  {
    hide Parse, Framed, Drain;
    var s := Stream(codec, ps);
    if ps == [] {
      DrainEmpty(codec);
      assert s[..n] == [];
    } else if n < |Framed(codec, ps[0])| {
      assert s[..n] == Framed(codec, ps[0])[..n] == s[n - n..n];
      DrainTruncated(codec, ps[0], n);
    } else {
      var size := |Framed(codec, ps[0])|;
      var k, m := Complete(codec, ps[1..], n - size), Partial(codec, ps, n);
      var stream := Stream(codec, ps[1..]);
      var tail := stream[..n - size];
      assert s == Framed(codec, ps[0]) + stream;
      assert s[..n] == Framed(codec, ps[0]) + tail;
      DrainFramed(codec, ps[0], tail);
      DrainStream(codec, ps[1..], n - size);
      assert ps[..k + 1] == [ps[0]] + ps[1..][..k];
      assert stream[n - size - m..n - size] == s[n - m..n];
    }
  }

  ghost predicate AllHonest(codec: HeaderCodec, ps: seq<Packet>) {
    forall i :: 0 <= i < |ps| ==> Honest(codec, ps[i])
  }

  /** Whatever is cut off a stream of honest packets, and even if some are beyond what the parser takes, one parse of
      it gives the first packets of the stream and no others. */
  lemma {:induction false} DrainHonest(codec: HeaderCodec, ps: seq<Packet>, n: nat)
    requires AllHonest(codec, ps) && n <= |Stream(codec, ps)|
    ensures Drain(codec, Stream(codec, ps)[..n]).packets <= ps
    decreases |ps|
  {
    hide Parse, Framed, Drain, Honest;
    var s := Stream(codec, ps);
    DrainEmpty(codec);
    if ps == [] || n == 0 {
      assert s[..n] == [];
    } else {
      var p, stream := ps[0], Stream(codec, ps[1..]);
      var size := |Framed(codec, p)|;
      assert s == Framed(codec, p) + stream;
      HonestSendable(codec, p);
      if !Sendable(codec, p) {
        OutsizedRefused(codec, p, stream, n);
        DrainStopped(codec, s[..n]);
      } else if n < size {
        assert s[..n] == Framed(codec, p)[..n];
        DrainTruncated(codec, p, n);
      } else {
        assert s[..n] == Framed(codec, p) + stream[..n - size];
        DrainFramed(codec, p, stream[..n - size]);
        DrainHonest(codec, ps[1..], n - size);
      }
    }
  }

  lemma DrainStopped(codec: HeaderCodec, buf: seq<Byte>)
    requires !Parse(codec, buf).Success?
    ensures Drain(codec, buf).packets == []
  {
  }

  lemma DrainEmpty(codec: HeaderCodec)
    ensures Drain(codec, []) == Drained([], [], None)
  {
  }

  /** The chunks come from reads into a buffer of 4096 bytes. */
  predicate Reads(chunks: seq<seq<Byte>>) {
    forall i :: 0 <= i < |chunks| ==> 1 <= |chunks[i]| <= READ_SIZE
  }

  /** A packet that can make the loop give up: it is too long for the cap to leave room for a
      full read, and enough bytes follow for such a read to happen. */
  predicate CanTrip(codec: HeaderCodec, ps: seq<Packet>, i: nat)
    requires i < |ps|
  {
    |Framed(codec, ps[i])| > 127077 && |Stream(codec, ps[i..])| > 131172
  }

  /** With no packet that can trip the cap, a read always fits behind the left-over of the ones before. */
  lemma RoomForRead(codec: HeaderCodec, ps: seq<Packet>, n: nat, chunk: seq<Byte>)
    requires n + |chunk| <= |Stream(codec, ps)| && |chunk| <= READ_SIZE
    requires forall i :: 0 <= i < |ps| ==> !CanTrip(codec, ps, i)
    ensures Partial(codec, ps, n) + |chunk| <= BUFFER_CAP
  {
    hide Framed, Complete, Partial, Stream;
    CompleteBounds(codec, ps, n);
    var k := Complete(codec, ps, n);
    if k < |ps| {
      assert !CanTrip(codec, ps, k);
    }
  }

  lemma {:induction false} ReadsWithinCap(codec: HeaderCodec, ps: seq<Packet>, chunks: seq<seq<Byte>>)
    requires AllSendable(codec, ps) && Reads(chunks)
    requires Concat(chunks) <= Stream(codec, ps)
    requires forall i :: 0 <= i < |ps| ==> !CanTrip(codec, ps, i)
    ensures
      var n := |Concat(chunks)|;
      ReadAll(codec, chunks) ==
        ReadState(Stream(codec, ps)[n - Partial(codec, ps, n)..n], ps[..Complete(codec, ps, n)], Running)
  {
    hide Parse, Framed, Drain, Complete, Partial, Stream;
    var n := |Concat(chunks)|;
    DrainStream(codec, ps, n);
    assert Stream(codec, ps)[..n] == Concat(chunks);
    SegmentationIndependent(codec, chunks);
    if chunks == [] {
      DrainEmpty(codec);
    } else {
      var front, last := chunks[..|chunks| - 1], chunks[|chunks| - 1];
      ReadsWithinCap(codec, ps, front);
      RoomForRead(codec, ps, |Concat(front)|, last);
      SegmentationIndependent(codec, front);
      DrainConcat(codec, Concat(front), last);
    }
  }

  /** Every way of reading a stream of packets of at most 127077 framed bytes each routes exactly
      those packets, in order, and never trips the cap. */
  lemma StreamDelivered(codec: HeaderCodec, ps: seq<Packet>, chunks: seq<seq<Byte>>)
    requires AllSendable(codec, ps) && Reads(chunks)
    requires Concat(chunks) == Stream(codec, ps)
    requires forall i :: 0 <= i < |ps| ==> |Framed(codec, ps[i])| <= 127077
    ensures ReadAll(codec, chunks) == ReadState([], ps, Running)
  {
    hide Framed, Complete, Concat, ReadAll;
    ReadsWithinCap(codec, ps, chunks);
    CompleteBounds(codec, ps, |Stream(codec, ps)|);
    assert ps[..|ps|] == ps;
  }

  // ---------------------------------------------------------------- the cap, exactly

  function SingleBytes(s: seq<Byte>): (chunks: seq<seq<Byte>>)
    ensures Reads(chunks)
  {
    seq(|s|, i requires 0 <= i < |s| => [s[i]])
  }

  lemma {:induction false} ConcatSingleBytes(s: seq<Byte>)
    ensures Concat(SingleBytes(s)) == s
  {
    if s != [] {
      ConcatSingleBytes(s[..|s| - 1]);
      assert SingleBytes(s)[..|s| - 1] == SingleBytes(s[..|s| - 1]);
    }
  }

  lemma {:induction false} ConcatAppend(a: seq<seq<Byte>>, b: seq<seq<Byte>>)
    ensures Concat(a + b) == Concat(a) + Concat(b)
  {
    if b == [] {
      assert a + b == a;
    } else {
      assert (a + b)[..|a + b| - 1] == a + b[..|b| - 1];
      ConcatAppend(a, b[..|b| - 1]);
    }
  }

  /** A loop that has stopped stays stopped. */
  lemma {:induction false} StoppedStays(codec: HeaderCodec, a: seq<seq<Byte>>, b: seq<seq<Byte>>)
    requires !ReadAll(codec, a).status.Running?
    ensures !ReadAll(codec, a + b).status.Running?
  {
    if b == [] {
      assert a + b == a;
    } else {
      assert (a + b)[..|a + b| - 1] == a + b[..|b| - 1];
      StoppedStays(codec, a, b[..|b| - 1]);
    }
  }

  lemma {:induction false} PartialWithin(codec: HeaderCodec, ps: seq<Packet>, i: nat, m: nat)
    requires i < |ps| && m < |Framed(codec, ps[i])|
    requires |Stream(codec, ps)| >= |Stream(codec, ps[i..])|
    ensures
      var n := |Stream(codec, ps)| - |Stream(codec, ps[i..])| + m;
      Complete(codec, ps, n) == i && Partial(codec, ps, n) == m
  {
    hide Parse, Framed;
    if i == 0 {
      assert ps[0..] == ps;
    } else {
      assert ps[i..] == ps[1..][i - 1..];
      StreamSuffix(codec, ps[1..], i - 1);
      PartialWithin(codec, ps[1..], i - 1, m);
    }
  }

  lemma {:induction false} StreamSuffix(codec: HeaderCodec, ps: seq<Packet>, i: nat)
    requires i <= |ps|
    ensures |Stream(codec, ps[i..])| <= |Stream(codec, ps)|
  {
    if i == 0 {
      assert ps[0..] == ps;
    } else {
      assert ps[i..] == ps[1..][i - 1..];
      StreamSuffix(codec, ps[1..], i - 1);
    }
  }

  /** Byte by byte up to `n`, one full read, and byte by byte to the end. */
  function SlowThenFull(s: seq<Byte>, n: nat): seq<seq<Byte>>
    requires n + READ_SIZE <= |s|
  {
    SingleBytes(s[..n]) + [s[n..n + READ_SIZE]] + SingleBytes(s[n + READ_SIZE..])
  }

  lemma SlowThenFullReads(s: seq<Byte>, n: nat)
    requires n + READ_SIZE <= |s|
    ensures Reads(SlowThenFull(s, n)) && Concat(SlowThenFull(s, n)) == s
  {
    hide SingleBytes;
    var slow, full, last := SingleBytes(s[..n]), s[n..n + READ_SIZE], SingleBytes(s[n + READ_SIZE..]);
    ConcatSingleBytes(s[..n]);
    ConcatSingleBytes(s[n + READ_SIZE..]);
    ConcatAppend(slow, [full]);
    ConcatAppend(slow + [full], last);
    assert Concat([full]) == Concat([full][..0]) + full;
    assert s == s[..n] + full + s[n + READ_SIZE..];
  }

  /** Reads that trip the cap: byte by byte until all but a read's worth of room is used, then a full read. */
  lemma TrippingReads(codec: HeaderCodec, ps: seq<Packet>, i: nat) returns (chunks: seq<seq<Byte>>)
    requires AllSendable(codec, ps) && i < |ps| && CanTrip(codec, ps, i)
    ensures Reads(chunks) && Concat(chunks) == Stream(codec, ps)
    ensures !ReadAll(codec, chunks).status.Running?
  {
    hide Parse, Framed, Drain, Complete, Partial, Stream, SingleBytes, Concat;
    var s := Stream(codec, ps);
    StreamSuffix(codec, ps, i);
    var n := |s| - |Stream(codec, ps[i..])| + SAFE_FRAME;
    chunks := SlowThenFull(s, n);
    SlowThenFullReads(s, n);
    var slow, full := SingleBytes(s[..n]), s[n..n + READ_SIZE];
    if ReadAll(codec, slow).status.Running? {
      PartialWithin(codec, ps, i, SAFE_FRAME);
      ConcatSingleBytes(s[..n]);
      SegmentationIndependent(codec, slow);
      DrainStream(codec, ps, n);
      assert (slow + [full])[..|slow|] == slow;
    } else {
      StoppedStays(codec, slow, [full]);
    }
    StoppedStays(codec, slow + [full], SingleBytes(s[n + READ_SIZE..]));
  }

  /** Exactly when the promise holds that a stream of legal packets is read whole: unless some
      packet is longer than 127077 framed bytes and the stream goes on past the cap from it. */
  lemma CapExact(codec: HeaderCodec, ps: seq<Packet>)
    requires AllSendable(codec, ps)
    ensures (forall chunks :: Reads(chunks) && Concat(chunks) == Stream(codec, ps)
                              ==> ReadAll(codec, chunks) == ReadState([], ps, Running))
            <==> (forall i :: 0 <= i < |ps| ==> !CanTrip(codec, ps, i))
  {
    hide Framed, Stream, Complete, Partial, Concat, ReadAll;
    if forall i :: 0 <= i < |ps| ==> !CanTrip(codec, ps, i) {
      forall chunks | Reads(chunks) && Concat(chunks) == Stream(codec, ps)
        ensures ReadAll(codec, chunks) == ReadState([], ps, Running)
      {
        ReadsWithinCap(codec, ps, chunks);
        CompleteBounds(codec, ps, |Stream(codec, ps)|);
        assert ps[..|ps|] == ps;
      }
    } else {
      var i :| 0 <= i < |ps| && CanTrip(codec, ps, i);
      var chunks := TrippingReads(codec, ps, i);
    }
  }

  /** Two DATA packets of the largest size the parser takes can trip the cap: both are legal, and while the first is
      nearly complete a full read brings more of the second than there is room for. */
  lemma LargestTrip(codec: HeaderCodec) returns (ps: seq<Packet>, chunks: seq<seq<Byte>>)
    ensures AllSendable(codec, ps) && |ps| == 2 && CanTrip(codec, ps, 0)
    ensures forall i :: 0 <= i < |ps| ==> ps[i].packetType.Data? && |ps[i].body| == MAX_PACKET_SIZE
    ensures Reads(chunks) && Concat(chunks) == Stream(codec, ps) && !ReadAll(codec, chunks).status.Running?
  {
    hide HeaderLine, ReadAll, Concat;
    var body: seq<Byte> := seq(MAX_PACKET_SIZE, i => 0);
    ps := [Packet(Data, 0, None, body), Packet(Data, 1, None, body)];
    assert ps[0..] == ps && ps[1..] == [ps[1]];
    assert |Stream(codec, ps)| == |Framed(codec, ps[0])| + |Stream(codec, ps[1..])|;
    chunks := TrippingReads(codec, ps, 0);
  }
}
