/**
 The same system with byte streams in place of packet streams: each side reads up to 4096 bytes at a
 time of what the other has written so far and runs its buffer loop on them. Every run over bytes
 ends in the same client and server state as some run over packets.
 */
module Wire {
  import opened Wrappers
  import opened Text
  import opened Packets
  import opened Framing
  import opened Messages
  import opened Client
  import opened System
  import opened SystemTheorems
  import opened Traffic
  import ClientInvariant
  import SystemInvariant
  import Server

  datatype Link = Link(
    client: ClientState, server: Server.ServerState, open: bool,
    serverRead: nat, serverBuf: seq<Byte>, clientRead: nat, clientBuf: seq<Byte>)

  /** In a read of the client the writer task takes packets while the first `lasts` packets are routed. */
  datatype LinkMove = Inner(e: Event) | ServerReads(n: nat) | ClientReads(n: nat, lasts: nat)

  /** The `n` bytes after the first `from` of a stream, if they are there to be read at once. */
  function Chunk(stream: seq<Byte>, from: nat, n: nat): Option<seq<Byte>> {
    if 1 <= n <= READ_SIZE && from + n <= |stream| then Some(stream[from..from + n]) else None
  }

  function LinkStep(codec: HeaderCodec, service: Server.Service, b: Link, move: LinkMove): Link {
    match move
    case Inner(e) => if e.Packet? then b else b.(client := Apply(b.client, e))
    case ServerReads(n) =>
      (match Chunk(Stream(codec, b.client.queue), b.serverRead, n)
       case None => b
       case Some(chunk) =>
         if !b.open then b
         else
           var r := Server.Serve(codec, service, Server.Connection(b.server, b.serverBuf, true), Server.Bytes(chunk));
           b.(server := r.state, serverBuf := r.buf, open := r.open, serverRead := b.serverRead + n))
    case ClientReads(n, lasts) =>
      (match Chunk(Stream(codec, b.server.wire), b.clientRead, n)
       case None => b
       case Some(chunk) =>
         if !b.client.reading then b
         else
           var (client, buf) := ReadBytes(codec, b.client, b.clientBuf, chunk, lasts);
           b.(client := client, clientBuf := buf, clientRead := b.clientRead + n))
  }

  function LinkRun(codec: HeaderCodec, service: Server.Service, budget: nat, moves: seq<LinkMove>): Link {
    if moves == [] then Link(START, Server.Fresh(budget), true, 0, [], 0, [])
    else LinkStep(codec, service, LinkRun(codec, service, budget, moves[..|moves| - 1]), moves[|moves| - 1])
  }

  // ---------------------------------------------------------------- one direction

  /** A reader that has taken `read` bytes of the stream of `log` has routed its first `got` packets and keeps
      the bytes after them in its buffer. */
  ghost predicate InStep(codec: HeaderCodec, log: seq<Packets.Packet>, read: nat, buf: seq<Byte>, got: nat) {
    && read <= |Stream(codec, log)| && got <= |log|
    && Drain(codec, Stream(codec, log)[..read]) == Drained(log[..got], buf, None)
  }

  lemma {:induction false} StreamGrows(codec: HeaderCodec, log: seq<Packets.Packet>, more: seq<Packets.Packet>)
    ensures Stream(codec, log + more) == Stream(codec, log) + Stream(codec, more)
  {
    hide Framed;
    if log == [] {
      assert log + more == more;
    } else {
      assert (log + more)[1..] == log[1..] + more;
      StreamGrows(codec, log[1..], more);
    }
  }

  lemma InStepGrows(codec: HeaderCodec, log: seq<Packets.Packet>, longer: seq<Packets.Packet>, read: nat,
                    buf: seq<Byte>, got: nat)
    requires InStep(codec, log, read, buf, got) && log <= longer
    ensures InStep(codec, longer, read, buf, got)
  {
    hide Stream, Drain;
    assert longer == log + longer[|log|..];
    StreamGrows(codec, log, longer[|log|..]);
    assert Stream(codec, longer)[..read] == Stream(codec, log)[..read];
    assert longer[..got] == log[..got];
  }

  /** One more read: the loop takes the next packets of the log and no others; unless it stops, it stays in step. */
  lemma ReadStep(codec: HeaderCodec, log: seq<Packets.Packet>, read: nat, buf: seq<Byte>, got: nat, n: nat)
    requires AllHonest(codec, log) && InStep(codec, log, read, buf, got)
    requires 1 <= n <= READ_SIZE && read + n <= |Stream(codec, log)|
    ensures
      var d := Drain(codec, buf + Stream(codec, log)[read..read + n]);
      var to := got + |d.packets|;
      && to <= |log| && d.packets == log[got..to]
      && (d.fatal.None? ==> InStep(codec, log, read + n, d.rest, to))
  {
    hide Stream, Drain, AllHonest;
    var stream := Stream(codec, log);
    var chunk := stream[read..read + n];
    var d := Drain(codec, buf + chunk);
    assert stream[..read + n] == stream[..read] + chunk;
    DrainConcat(codec, stream[..read], chunk);
    DrainHonest(codec, log, read + n);
    var all := log[..got] + d.packets;
    assert all <= log && all == log[..got + |d.packets|];
    assert d.packets == all[got..];
  }

  /** What is short enough is never refused: the read fits the buffer, and no error comes of it. */
  lemma ReadFits(codec: HeaderCodec, log: seq<Packets.Packet>, read: nat, buf: seq<Byte>, got: nat, n: nat)
    requires Deliverable(codec, log) && InStep(codec, log, read, buf, got)
    requires 1 <= n <= READ_SIZE && read + n <= |Stream(codec, log)|
    ensures
      var chunk := Stream(codec, log)[read..read + n];
      |buf + chunk| <= BUFFER_CAP && Drain(codec, buf + chunk).fatal.None?
  {
    hide Stream, Complete, Partial, Drain, Framed;
    var stream := Stream(codec, log);
    var chunk := stream[read..read + n];
    RoomForRead(codec, log, read, chunk);
    DrainStream(codec, log, read);
    DrainStream(codec, log, read + n);
    assert stream[..read + n] == stream[..read] + chunk;
    DrainConcat(codec, stream[..read], chunk);
  }

  // ---------------------------------------------------------------- simulation

  /** While a side takes packets it is in step. A server that its buffer loop has closed need not be closed in the
      packet system; it receives nothing more. */
  ghost predicate Linked(codec: HeaderCodec, b: Link, s: State) {
    && b.client == s.client && b.server == s.server
    && (b.open ==> s.open && InStep(codec, b.client.queue, b.serverRead, b.serverBuf, s.serverGot))
    && (b.client.reading ==> InStep(codec, b.server.wire, b.clientRead, b.clientBuf, s.clientGot))
  }

  /** Routing a batch is receiving its packets one at a time. */
  lemma {:induction false} BatchOfServer(service: Server.Service, budget: nat, moves: seq<Move>, count: nat)
    returns (moves': seq<Move>)
    requires Execute(service, budget, moves).open
    requires Execute(service, budget, moves).serverGot + count <= |Execute(service, budget, moves).client.queue|
    ensures
      var s := Execute(service, budget, moves);
      var s' := Execute(service, budget, moves');
      var batch := s.client.queue[s.serverGot..s.serverGot + count];
      && (s'.server, s'.open) == Server.RouteAll(service, s.server, batch)
      && s'.client == s.client && s'.clientGot == s.clientGot && s.server.wire <= s'.server.wire
      && (s'.open ==> s'.serverGot == s.serverGot + count)
    decreases count
  {
    hide Execute, Server.Route;
    var s := Execute(service, budget, moves);
    moves' := moves;
    if count > 0 {
      var batch := s.client.queue[s.serverGot..s.serverGot + count];
      moves' := moves + [ServerReceives];
      ExecuteSnoc(service, budget, moves, ServerReceives);
      SystemInvariant.RouteExtends(service, s.server, batch[0]);
      assert batch[1..] == s.client.queue[s.serverGot + 1..s.serverGot + count];
      if Execute(service, budget, moves').open {
        moves' := BatchOfServer(service, budget, moves', count - 1);
      }
    }
  }

  lemma ExecuteSnoc(service: Server.Service, budget: nat, moves: seq<Move>, move: Move)
    ensures Execute(service, budget, moves + [move]) == Step(service, Execute(service, budget, moves), move)
  {
    hide Step;
    assert (moves + [move])[..|moves|] == moves;
  }

  lemma ReceiveOne(service: Server.Service, budget: nat, moves: seq<Move>, sendOk: bool)
    requires Execute(service, budget, moves).client.reading
    requires Execute(service, budget, moves).clientGot < |Execute(service, budget, moves).server.wire|
    ensures
      var s := Execute(service, budget, moves);
      var client := Receive(s.client, s.server.wire[s.clientGot], sendOk);
      && Execute(service, budget, moves + [ClientReceives(sendOk)]) ==
         s.(client := client, clientGot := s.clientGot + 1)
      && client.reading && s.client.queue <= client.queue
  {
    hide Execute, Receive, Server.Route, Apply;
    var s := Execute(service, budget, moves);
    ExecuteSnoc(service, budget, moves, ClientReceives(sendOk));
    ClientInvariant.ReceiveScope(s.client, s.server.wire[s.clientGot], sendOk);
  }

  lemma {:induction false} BatchOfClient(service: Server.Service, budget: nat, moves: seq<Move>, count: nat, lasts: nat)
    returns (moves': seq<Move>)
    requires Execute(service, budget, moves).client.reading
    requires Execute(service, budget, moves).clientGot + count <= |Execute(service, budget, moves).server.wire|
    ensures
      var s := Execute(service, budget, moves);
      var s' := Execute(service, budget, moves');
      && s'.client == ReceiveAll(s.client, s.server.wire[s.clientGot..s.clientGot + count], lasts)
      && s'.server == s.server && s'.open == s.open && s'.serverGot == s.serverGot
      && s'.client.reading && s'.clientGot == s.clientGot + count && s.client.queue <= s'.client.queue
    decreases count
  {
    hide Execute, Receive;
    var s := Execute(service, budget, moves);
    moves' := moves;
    if count > 0 {
      var batch := s.server.wire[s.clientGot..s.clientGot + count];
      ReceiveOne(service, budget, moves, lasts > 0);
      assert batch[1..] == s.server.wire[s.clientGot + 1..s.clientGot + count];
      moves' := BatchOfClient(service, budget, moves + [ClientReceives(lasts > 0)], count - 1,
                              if lasts > 0 then lasts - 1 else 0);
    }
  }

  lemma SimulateServer(codec: HeaderCodec, service: Server.Service, budget: nat, moves: seq<Move>, b: Link, n: nat)
    returns (moves': seq<Move>)
    requires Linked(codec, b, Execute(service, budget, moves)) && AllHonest(codec, b.client.queue)
    ensures Linked(codec, LinkStep(codec, service, b, ServerReads(n)), Execute(service, budget, moves'))
  {
    hide Execute, AllHonest, InStep, Stream, Drain, Server.RouteAll;
    moves' := moves;
    var s := Execute(service, budget, moves);
    var chunk := Chunk(Stream(codec, b.client.queue), b.serverRead, n);
    if b.open && chunk.Some? && |b.serverBuf + chunk.value| <= BUFFER_CAP {
      ReadStep(codec, b.client.queue, b.serverRead, b.serverBuf, s.serverGot, n);
      moves' := BatchOfServer(service, budget, moves, |Drain(codec, b.serverBuf + chunk.value).packets|);
      if b.client.reading {
        InStepGrows(codec, b.server.wire, Execute(service, budget, moves').server.wire, b.clientRead, b.clientBuf,
                    s.clientGot);
      }
    }
  }

  lemma SimulateClient(codec: HeaderCodec, service: Server.Service, budget: nat, moves: seq<Move>, b: Link, n: nat,
                       lasts: nat)
    returns (moves': seq<Move>)
    requires Linked(codec, b, Execute(service, budget, moves)) && AllHonest(codec, b.server.wire)
    ensures Linked(codec, LinkStep(codec, service, b, ClientReads(n, lasts)), Execute(service, budget, moves'))
  {
    hide Execute, AllHonest, InStep, Stream, Drain, ReceiveAll, StopReading;
    moves' := moves;
    var s := Execute(service, budget, moves);
    var chunk := Chunk(Stream(codec, b.server.wire), b.clientRead, n);
    if b.client.reading && chunk.Some? {
      var d := Drain(codec, b.clientBuf + chunk.value);
      if |b.clientBuf + chunk.value| > BUFFER_CAP {
        moves' := StopAfter(service, budget, moves, ConnectionLost);
      } else {
        ReadStep(codec, b.server.wire, b.clientRead, b.clientBuf, s.clientGot, n);
        moves' := BatchOfClient(service, budget, moves, |d.packets|, lasts);
        if d.fatal.Some? {
          moves' := StopAfter(service, budget, moves', ProtocolError(d.fatal.value));
        }
      }
      if b.open {
        InStepGrows(codec, b.client.queue, Execute(service, budget, moves').client.queue, b.serverRead, b.serverBuf,
                    s.serverGot);
      }
    }
  }

  /** The reader stops by itself. */
  lemma StopAfter(service: Server.Service, budget: nat, moves: seq<Move>, error: ErrorText) returns (moves': seq<Move>)
    requires Execute(service, budget, moves).client.reading
    ensures
      var s, s' := Execute(service, budget, moves), Execute(service, budget, moves');
      && s' == s.(client := StopReading(s.client, error))
      && !s'.client.reading && s'.client.queue == s.client.queue
  {
    hide Execute;
    moves' := moves + [Local(Stop(error))];
    ExecuteSnoc(service, budget, moves, Local(Stop(error)));
  }

  lemma SimulateInner(codec: HeaderCodec, service: Server.Service, budget: nat, moves: seq<Move>, b: Link, e: Event)
    returns (moves': seq<Move>)
    requires Linked(codec, b, Execute(service, budget, moves))
    ensures Linked(codec, LinkStep(codec, service, b, Inner(e)), Execute(service, budget, moves'))
  {
    hide Execute, InStep, Stream, Apply;
    moves' := moves;
    if !e.Packet? {
      var s := Execute(service, budget, moves);
      moves' := moves + [Local(e)];
      ExecuteSnoc(service, budget, moves, Local(e));
      LocalAppends(s.client, e);
      if b.open {
        InStepGrows(codec, b.client.queue, Apply(b.client, e).queue, b.serverRead, b.serverBuf, s.serverGot);
      }
      ReadingStops(b.client, e);
    }
  }

  /** A reader that has stopped does not start again. */
  lemma ReadingStops(c: ClientState, e: Event)
    requires !e.Packet?
    ensures Apply(c, e).reading ==> c.reading
  {
    hide ChunkEnd, OverWatermark, WithExits, RequestHeader;
  }

  // ---------------------------------------------------------------- histories only grow

  lemma {:induction false} RouteAllGrows(service: Server.Service, s: Server.ServerState, ps: seq<Packets.Packet>)
    ensures s.dispatched <= Server.RouteAll(service, s, ps).0.dispatched
    decreases |ps|
  {
    hide Server.Route;
    if ps != [] {
      SystemInvariant.RouteExtends(service, s, ps[0]);
      RouteAllGrows(service, Server.Route(service, s, ps[0]).0, ps[1..]);
    }
  }

  lemma {:induction false} ReceiveAllKeeps(c: ClientState, ps: seq<Packets.Packet>, lasts: nat)
    ensures ReceiveAll(c, ps, lasts).requests == c.requests
    decreases |ps|
  {
    hide Receive;
    if ps != [] {
      ClientInvariant.ReceiveScope(c, ps[0], lasts > 0);
      ReceiveAllKeeps(Receive(c, ps[0], lasts > 0), ps[1..], if lasts > 0 then lasts - 1 else 0);
    }
  }

  lemma LinkGrows(codec: HeaderCodec, service: Server.Service, b: Link, move: LinkMove)
    ensures b.client.requests <= LinkStep(codec, service, b, move).client.requests
    ensures b.server.dispatched <= LinkStep(codec, service, b, move).server.dispatched
  {
    hide Apply, ReceiveAll, Server.RouteAll, Drain, Stream;
    match move {
      case Inner(e) =>
        if !e.Packet? {
          LocalAppends(b.client, e);
        }
      case ServerReads(n) =>
        var chunk := Chunk(Stream(codec, b.client.queue), b.serverRead, n);
        if chunk.Some? && b.open {
          RouteAllGrows(service, b.server, Drain(codec, b.serverBuf + chunk.value).packets);
        }
      case ClientReads(n, lasts) =>
        var chunk := Chunk(Stream(codec, b.server.wire), b.clientRead, n);
        if chunk.Some? && b.client.reading {
          ReceiveAllKeeps(b.client, Drain(codec, b.clientBuf + chunk.value).packets, lasts);
        }
    }
  }

  /** Byte streams refine packet streams: as long as the codec reads back the headers of the requests and replies of a
      run, then whatever the sizes of the reads, of the headers and of the bodies, and wherever a buffer cap or an
      error stops a side, the two ends are where some run over packets takes them. */
  lemma {:induction false} BytesRefinePackets(codec: HeaderCodec, service: Server.Service, budget: nat,
                                              linkMoves: seq<LinkMove>)
    returns (moves: seq<Move>)
    requires
      var b := LinkRun(codec, service, budget, linkMoves);
      Readable(codec, service, b.client.requests, b.server.dispatched)
    ensures Linked(codec, LinkRun(codec, service, budget, linkMoves), Execute(service, budget, moves))
  {
    hide LinkStep, AllHonest, Step, Readable, InStep, Execute;
    if linkMoves == [] {
      moves := [];
      InitiallyLinked(codec, service, budget);
    } else {
      var front, last := linkMoves[..|linkMoves| - 1], linkMoves[|linkMoves| - 1];
      var b, b' := LinkRun(codec, service, budget, front), LinkRun(codec, service, budget, linkMoves);
      LinkGrows(codec, service, b, last);
      ReadableBefore(codec, service, b.client.requests, b.server.dispatched, b'.client.requests, b'.server.dispatched);
      moves := BytesRefinePackets(codec, service, budget, front);
      AllHonestSent(codec, service, budget, moves);
      match last {
        case Inner(e) => moves := SimulateInner(codec, service, budget, moves, b, e);
        case ServerReads(n) => moves := SimulateServer(codec, service, budget, moves, b, n);
        case ClientReads(n, lasts) => moves := SimulateClient(codec, service, budget, moves, b, n, lasts);
      }
    }
  }

  lemma InitiallyLinked(codec: HeaderCodec, service: Server.Service, budget: nat)
    ensures Linked(codec, LinkRun(codec, service, budget, []), Execute(service, budget, []))
  {
  }

  // ---------------------------------------------------------------- end to end

  /** End to end over bytes: what is delivered without an error, and what a call returns, is the reply of the service to
      exactly its request, whatever stops either side. */
  lemma EndToEndOverBytes(codec: HeaderCodec, service: Server.Service, budget: nat, linkMoves: seq<LinkMove>, id: int)
    requires
      var b := LinkRun(codec, service, budget, linkMoves);
      Readable(codec, service, b.client.requests, b.server.dispatched)
    ensures
      var b := LinkRun(codec, service, budget, linkMoves);
      && (id in b.client.delivered && b.client.delivered[id].error.None? ==>
            exists k :: ExactReply(service, b.client, b.server.dispatched, id, b.client.delivered[id], k))
      && (id in b.client.calls ==>
            match b.client.calls[id].phase
            case Done(Replied(r)) =>
              r.error.None? ==> exists k :: ExactReply(service, b.client, b.server.dispatched, id, r, k)
            case _ => true)
  {
    hide LinkRun, Execute, InStep, ExactReply, Readable;
    var moves := BytesRefinePackets(codec, service, budget, linkMoves);
    EndToEnd(service, budget, moves, id);
  }

  /** If all headers sent are at most 127036 bytes long, no read overflows a buffer or ends in a protocol error: neither
      side ever stops of itself. */
  lemma ReadsNeverStop(codec: HeaderCodec, service: Server.Service, budget: nat, linkMoves: seq<LinkMove>, n: nat)
    requires
      var b := LinkRun(codec, service, budget, linkMoves);
      GoodTraffic(codec, service, b.client.requests, b.server.dispatched)
    ensures
      var b := LinkRun(codec, service, budget, linkMoves);
      var toServer := Chunk(Stream(codec, b.client.queue), b.serverRead, n);
      var toClient := Chunk(Stream(codec, b.server.wire), b.clientRead, n);
      && (b.open && toServer.Some? ==>
            |b.serverBuf + toServer.value| <= BUFFER_CAP && Drain(codec, b.serverBuf + toServer.value).fatal.None?)
      && (b.client.reading && toClient.Some? ==>
            |b.clientBuf + toClient.value| <= BUFFER_CAP && Drain(codec, b.clientBuf + toClient.value).fatal.None?)
  {
    hide LinkRun, Execute, InStep, Deliverable, Stream, Drain, GoodTraffic;
    var b := LinkRun(codec, service, budget, linkMoves);
    GoodIsReadable(codec, service, b.client.requests, b.server.dispatched);
    var moves := BytesRefinePackets(codec, service, budget, linkMoves);
    AllDeliverable(codec, service, budget, moves);
    var s := Execute(service, budget, moves);
    if b.open && Chunk(Stream(codec, b.client.queue), b.serverRead, n).Some? {
      ReadFits(codec, b.client.queue, b.serverRead, b.serverBuf, s.serverGot, n);
    }
    if b.client.reading && Chunk(Stream(codec, b.server.wire), b.clientRead, n).Some? {
      ReadFits(codec, b.server.wire, b.clientRead, b.clientBuf, s.clientGot, n);
    }
  }

  lemma GoodIsReadable(codec: HeaderCodec, service: Server.Service, requests: seq<Message>,
                       dispatched: seq<Server.Dispatch>)
    requires GoodTraffic(codec, service, requests, dispatched)
    ensures Readable(codec, service, requests, dispatched)
  {
  }
}
