/** The loops of both ends are the one of `Framing`: what they route, and exactly when they stop. */
module ConnectionReads {
  import opened Wrappers
  import opened Text
  import opened Packets
  import opened Framing
  import opened Client
  import opened AnyPeer
  import ClientInvariant
  import Server

  // ---------------------------------------------------------------- the server

  /** The bytes that reads have brought. */
  function ChunksIn(events: seq<Server.ReadEvent>): seq<seq<Byte>> {
    if events == [] then []
    else
      ChunksIn(events[..|events| - 1])
      + (if events[|events| - 1].Bytes? then [events[|events| - 1].chunk] else [])
  }

  lemma {:induction false} ServeSnoc(codec: HeaderCodec, service: Server.Service, c: Server.Connection,
                                     events: seq<Server.ReadEvent>, e: Server.ReadEvent)
    ensures Server.ServeAll(codec, service, c, events + [e])
         == Server.Serve(codec, service, Server.ServeAll(codec, service, c, events), e)
    decreases |events|
  {
    hide Server.Serve;
    if events == [] {
      assert [e][1..] == [];
      assert events + [e] == [e];
    } else {
      assert (events + [e])[1..] == events[1..] + [e];
      ServeSnoc(codec, service, Server.Serve(codec, service, c, events[0]), events[1..], e);
    }
  }

  function Served(codec: HeaderCodec, service: Server.Service, budget: nat, events: seq<Server.ReadEvent>)
    : Server.Connection
  {
    Server.ServeAll(codec, service, Server.Connection(Server.Fresh(budget), [], true), events)
  }

  /** A message has begun to arrive and has not ended. */
  ghost predicate HalfReceived(ps: seq<Packet>) {
    exists m: nat :: Held(ps, m).Some?
  }

  /** The connection survives an event: not the end of the stream; silence only while a request is half received;
      bytes only if they fit the buffer, hold no error, and bring no packet that closes the connection. */
  ghost predicate Survives(codec: HeaderCodec, service: Server.Service, budget: nat, chunks: seq<seq<Byte>>,
                           e: Server.ReadEvent) {
    match e
    case Closed => false
    case Silence => HalfReceived(ReadAll(codec, chunks).routed)
    case Bytes(chunk) =>
      var r := ReadAll(codec, chunks + [chunk]);
      r.status.Running? && AllFine(service, budget, r.routed)
  }

  ghost predicate AllSurvived(codec: HeaderCodec, service: Server.Service, budget: nat, events: seq<Server.ReadEvent>) {
    events == [] ||
    (AllSurvived(codec, service, budget, events[..|events| - 1])
     && Survives(codec, service, budget, ChunksIn(events[..|events| - 1]), events[|events| - 1]))
  }

  ghost predicate InTouch(codec: HeaderCodec, service: Server.Service, budget: nat, c: Server.Connection,
                          chunks: seq<seq<Byte>>) {
    var r := ReadAll(codec, chunks);
    && r.status.Running? && c.buf == r.buf && AllFine(service, budget, r.routed)
    && c.state == Server.RouteAll(service, Server.Fresh(budget), r.routed).0
  }

  lemma BusyExactly(service: Server.Service, budget: nat, ps: seq<Packet>)
    requires AllFine(service, budget, ps)
    ensures Server.Busy(Server.RouteAll(service, Server.Fresh(budget), ps).0) <==> HalfReceived(ps)
  {
    hide Held, Server.RouteAll, AllFine, Answers, Ended, HeadersTaken;
    ServerReflects(service, budget, ps);
    var s := Server.RouteAll(service, Server.Fresh(budget), ps).0;
    if m: nat :| Held(ps, m).Some? {
      assert m in s.incoming;
    }
    if s.incoming != map[] {
      var m: nat :| m in s.incoming;
      assert Held(ps, m) == Some(s.incoming[m]);
    }
  }

  lemma BytesServed(codec: HeaderCodec, service: Server.Service, budget: nat, c: Server.Connection,
                    chunks: seq<seq<Byte>>, chunk: seq<Byte>)
    requires c.open && InTouch(codec, service, budget, c, chunks)
    ensures
      var c' := Server.Serve(codec, service, c, Server.Bytes(chunk));
      && (c'.open <==> Survives(codec, service, budget, chunks, Server.Bytes(chunk)))
      && (c'.open ==> InTouch(codec, service, budget, c', chunks + [chunk]))
  {
    hide Drain, AllFine, Server.RouteAll;
    assert (chunks + [chunk])[..|chunks|] == chunks;
    var r := ReadAll(codec, chunks);
    if |c.buf + chunk| <= BUFFER_CAP {
      var d := Drain(codec, c.buf + chunk);
      RouteAllConcat(service, Server.Fresh(budget), r.routed, d.packets);
      ServerReflects(service, budget, r.routed);
      ServerReflects(service, budget, r.routed + d.packets);
    }
  }

  lemma QuietServed(codec: HeaderCodec, service: Server.Service, budget: nat, c: Server.Connection,
                    chunks: seq<seq<Byte>>)
    requires c.open && InTouch(codec, service, budget, c, chunks)
    ensures Server.Serve(codec, service, c, Server.Silence)
         == c.(open := Survives(codec, service, budget, chunks, Server.Silence))
  {
    hide AllFine, ReadAll, HalfReceived, Server.RouteAll;
    BusyExactly(service, budget, ReadAll(codec, chunks).routed);
  }

  lemma {:induction false} ServedInTouch(codec: HeaderCodec, service: Server.Service, budget: nat,
                                         events: seq<Server.ReadEvent>)
    ensures
      var c := Served(codec, service, budget, events);
      && (c.open <==> AllSurvived(codec, service, budget, events))
      && (c.open ==> InTouch(codec, service, budget, c, ChunksIn(events)))
  {
    hide Server.Serve, InTouch, Survives;
    if events == [] {
      NothingServed(codec, service, budget);
    } else {
      var front, e := events[..|events| - 1], events[|events| - 1];
      assert events == front + [e];
      ServedInTouch(codec, service, budget, front);
      ServeSnoc(codec, service, Server.Connection(Server.Fresh(budget), [], true), front, e);
      var c := Served(codec, service, budget, front);
      if !c.open {
        ServeStopped(codec, service, c, e);
      } else {
        match e {
          case Bytes(chunk) => BytesServed(codec, service, budget, c, ChunksIn(front), chunk);
          case Silence =>
            QuietServed(codec, service, budget, c, ChunksIn(front));
            SameTouch(codec, service, budget, c, ChunksIn(front));
            assert ChunksIn(front) + [] == ChunksIn(front);
          case Closed => ServeClosed(codec, service, budget, c, ChunksIn(front));
        }
      }
    }
  }

  lemma NothingServed(codec: HeaderCodec, service: Server.Service, budget: nat)
    ensures InTouch(codec, service, budget, Server.Connection(Server.Fresh(budget), [], true), [])
  {
  }

  lemma SameTouch(codec: HeaderCodec, service: Server.Service, budget: nat, c: Server.Connection,
                  chunks: seq<seq<Byte>>)
    requires InTouch(codec, service, budget, c, chunks)
    ensures InTouch(codec, service, budget, c.(open := true), chunks)
  {
  }

  lemma ServeStopped(codec: HeaderCodec, service: Server.Service, c: Server.Connection, e: Server.ReadEvent)
    requires !c.open
    ensures Server.Serve(codec, service, c, e) == c
  {
  }

  lemma ServeClosed(codec: HeaderCodec, service: Server.Service, budget: nat, c: Server.Connection,
                    chunks: seq<seq<Byte>>)
    requires c.open
    ensures !Server.Serve(codec, service, c, Server.Closed).open
    ensures !Survives(codec, service, budget, chunks, Server.Closed)
  {
  }

  /** For every sequence of reads, silences and ends of the stream: the server's connection is open exactly if it
      survived each of them, and then the buffer and the packets routed are those of the framing loop, what is held of
      each request is what has come of it, those that ended were dispatched in order, and the answers to all packets,
      as many as the writer takes, are on the wire. */
  lemma ServedExactly(codec: HeaderCodec, service: Server.Service, budget: nat, events: seq<Server.ReadEvent>)
    ensures
      var c := Served(codec, service, budget, events);
      var r := ReadAll(codec, ChunksIn(events));
      && (c.open <==> AllSurvived(codec, service, budget, events))
      && (c.open ==>
            && r.status.Running? && c.buf == r.buf
            && Holds(c.state.incoming, r.routed) && c.state.dispatched == Ended(r.routed)
            && c.state.wire == Upto(Answers(service, r.routed), budget))
  {
    hide Served, AllSurvived, Holds, Ended, Answers, ReadAll, AllFine, Server.RouteAll, HeadersTaken;
    ServedInTouch(codec, service, budget, events);
    ServerReflects(service, budget, ReadAll(codec, ChunksIn(events)).routed);
  }

  // ---------------------------------------------------------------- the client

  /** One read of the client: its bytes, and for how many of its packets the writer task still takes answers. */
  datatype Read = Read(chunk: seq<Byte>, lasts: nat)

  function ChunksOf(rs: seq<Read>): seq<seq<Byte>> {
    seq(|rs|, i requires 0 <= i < |rs| => rs[i].chunk)
  }

  /** The reader and its buffer after some reads; it takes no more once it has stopped. */
  function ReadEach(codec: HeaderCodec, c: ClientState, rs: seq<Read>): (ClientState, seq<Byte>) {
    if rs == [] then (c, [])
    else
      var (c', buf) := ReadEach(codec, c, rs[..|rs| - 1]);
      var last := rs[|rs| - 1];
      if c'.reading then ReadBytes(codec, c', buf, last.chunk, last.lasts) else (c', buf)
  }

  /** Packets routed one after the other, each with its word on the writer task. */
  function RoutedEach(c: ClientState, ps: seq<Packets.Packet>, oks: seq<bool>): ClientState
    requires |oks| == |ps|
    decreases |ps|
  {
    if ps == [] then c else RoutedEach(Receive(c, ps[0], oks[0]), ps[1..], oks[1..])
  }

  lemma {:induction false} RoutedConcat(c: ClientState, ps: seq<Packets.Packet>, oks: seq<bool>,
                                        qs: seq<Packets.Packet>, more: seq<bool>)
    requires |oks| == |ps| && |more| == |qs|
    ensures RoutedEach(c, ps + qs, oks + more) == RoutedEach(RoutedEach(c, ps, oks), qs, more)
    decreases |ps|
  {
    hide Receive;
    if ps == [] {
      assert ps + qs == qs && oks + more == more;
    } else {
      assert (ps + qs)[1..] == ps[1..] + qs && (oks + more)[1..] == oks[1..] + more;
      RoutedConcat(Receive(c, ps[0], oks[0]), ps[1..], oks[1..], qs, more);
    }
  }

  lemma {:induction false} ReceiveAllRouted(c: ClientState, ps: seq<Packets.Packet>, lasts: nat)
    returns (oks: seq<bool>)
    ensures |oks| == |ps| && ReceiveAll(c, ps, lasts) == RoutedEach(c, ps, oks)
    decreases |ps|
  {
    hide Receive;
    if ps == [] {
      oks := [];
    } else {
      var rest := ReceiveAllRouted(Receive(c, ps[0], lasts > 0), ps[1..], if lasts > 0 then lasts - 1 else 0);
      oks := [lasts > 0] + rest;
      assert oks[1..] == rest;
    }
  }

  lemma {:induction false} RoutedReads(c: ClientState, ps: seq<Packets.Packet>, oks: seq<bool>)
    requires |oks| == |ps|
    ensures RoutedEach(c, ps, oks).reading == c.reading
    decreases |ps|
  {
    hide Receive;
    if ps != [] {
      ClientInvariant.ReceiveScope(c, ps[0], oks[0]);
      RoutedReads(Receive(c, ps[0], oks[0]), ps[1..], oks[1..]);
    }
  }

  /** Why the framing loop stops is what every pending call of the client is told. */
  function ReasonFor(status: Status): ErrorText
    requires !status.Running?
  {
    if status.Overflowed? then ConnectionLost else ProtocolError(status.error)
  }

  /** For all reads: the client's reader routes exactly the packets of the framing loop, goes on exactly as long, and
      where the loop stops it completes all pending calls with the reason, and nothing else. */
  lemma {:induction false} ClientReads(codec: HeaderCodec, c: ClientState, rs: seq<Read>) returns (oks: seq<bool>)
    requires c.reading
    ensures
      var r := ReadAll(codec, ChunksOf(rs));
      var (c', buf) := ReadEach(codec, c, rs);
      && |oks| == |r.routed|
      && var routed := RoutedEach(c, r.routed, oks);
         && (c'.reading <==> r.status.Running?)
         && if r.status.Running? then c' == routed && buf == r.buf
            else c' == StopReading(routed, ReasonFor(r.status))
  {
    hide Drain, Receive, StopReading;
    if rs == [] {
      oks := [];
    } else {
      var front, last := rs[..|rs| - 1], rs[|rs| - 1];
      assert ChunksOf(rs)[..|rs| - 1] == ChunksOf(front);
      oks := ClientReads(codec, c, front);
      var r := ReadAll(codec, ChunksOf(front));
      var (c', buf) := ReadEach(codec, c, front);
      if c'.reading && |r.buf + last.chunk| <= BUFFER_CAP {
        var d := Drain(codec, r.buf + last.chunk);
        var more := ReceiveAllRouted(c', d.packets, last.lasts);
        RoutedConcat(c, r.routed, oks, d.packets, more);
        oks := oks + more;
        RoutedReads(c, r.routed + d.packets, oks);
        Stopped(RoutedEach(c, r.routed + d.packets, oks), ConnectionLost);
        if d.fatal.Some? {
          Stopped(RoutedEach(c, r.routed + d.packets, oks), ProtocolError(d.fatal.value));
        }
      } else if c'.reading {
        Stopped(c', ConnectionLost);
      }
    }
  }

  lemma Stopped(c: ClientState, error: ErrorText)
    ensures !StopReading(c, error).reading
  {
    hide WithExits;
  }
}
