/** Exactly which bytes the packet parser takes for a packet, and with which error it refuses which others. */
module PacketGrammar {
  import opened Wrappers
  import opened Text
  import opened Packets

  /** The first CR LF pair that begins and ends within the first 80 bytes is at `cut`. */
  predicate LineEnds(buf: seq<Byte>, cut: nat) {
    && cut + 2 <= |buf| && cut + 2 <= 80 && buf[cut] == 13 && buf[cut + 1] == 10
    && forall j :: 0 <= j < cut ==> !(buf[j] == 13 && buf[j + 1] == 10)
  }

  predicate NoLineEnd(buf: seq<Byte>) {
    forall j :: 0 <= j && j + 2 <= |buf| && j + 2 <= 80 ==> !(buf[j] == 13 && buf[j + 1] == 10)
  }

  predicate Named(t: PacketType, name: string) {
    match t
    case Header => name == "HEADER"
    case Data => name == "DATA"
    case Eof => name == "EOF"
    case Txerr => name == "TXERR"
    case Ack => name == "ACK"
    case Ping => name == "PING"
    case Pong => name == "PONG"
  }

  /** The header line is UTF-8 and these three words. */
  predicate Words(line: seq<Byte>, command: string, msgNo: string, size: string) {
    DecodeUtf8(line).Some? && SplitWhitespace(DecodeUtf8(line).value) == [command, msgNo, size]
  }

  /** The pieces of a buffer: where its header line ends, the words of the line, and the numbers among them. */
  datatype Pieces = Pieces(cut: nat, command: string, msgNo: string, size: string, m: nat, n: nat)

  predicate Spelled(buf: seq<Byte>, x: Pieces) {
    LineEnds(buf, x.cut) && Words(buf[..x.cut], x.command, x.msgNo, x.size)
  }

  predicate Numbered(buf: seq<Byte>, x: Pieces) {
    && Spelled(buf, x)
    && ParseUnsigned(x.msgNo, U64_BOUND) == Some(x.m) && ParseUnsigned(x.size, U64_BOUND) == Some(x.n)
  }

  /** All bytes are there, of no more than the parser allows. */
  predicate Arrived(buf: seq<Byte>, x: Pieces) {
    Numbered(buf, x) && x.n <= 131072 && x.cut + 2 + x.n + 5 <= |buf|
  }

  /** After the payload come `END` and a line end. */
  predicate Closed(buf: seq<Byte>, x: Pieces) {
    Arrived(buf, x) && buf[x.cut + 2 + x.n..x.cut + 2 + x.n + 5] == [69, 78, 68, 13, 10]
  }

  function PayloadIn(buf: seq<Byte>, x: Pieces): seq<Byte>
    requires x.cut + 2 + x.n <= |buf|
  {
    buf[x.cut + 2..x.cut + 2 + x.n]
  }

  /** The payload makes this packet: a header read by the codec, or a body. */
  predicate Carries(codec: HeaderCodec, p: Packet, payload: seq<Byte>) {
    if p.packetType == Header then p.body == [] && p.header.Some? && codec.dec(payload) == p.header
    else p.header == None && p.body == payload
  }

  predicate FrameOf(codec: HeaderCodec, buf: seq<Byte>, x: Pieces, p: Packet, used: nat) {
    && Closed(buf, x) && used == x.cut + 2 + x.n + 5
    && p.msgNo == x.m && Named(p.packetType, x.command) && Carries(codec, p, PayloadIn(buf, x))
  }

  // ---------------------------------------------------------------- the line end

  lemma PairAt(buf: seq<Byte>, j: nat)
    ensures CrlfAt(buf[..ScanLength(buf)], j) <==> j + 2 <= |buf| && j + 2 <= 80 && buf[j] == 13 && buf[j + 1] == 10
  {
    var scan := buf[..ScanLength(buf)];
    if j + 2 <= |scan| {
      assert scan[j] == buf[j] && scan[j + 1] == buf[j + 1];
    }
  }

  lemma CutFound(buf: seq<Byte>, cut: nat)
    ensures FindCrlf(buf[..ScanLength(buf)], 0) == Some(cut) <==> LineEnds(buf, cut)
  {
    hide CrlfAt, FindCrlf;
    var scan := buf[..ScanLength(buf)];
    PairAt(buf, cut);
    if LineEnds(buf, cut) {
      assert FindCrlf(scan, 0).Some?;
      var found := FindCrlf(scan, 0).value;
      PairAt(buf, found);
      assert found >= cut;
    } else if FindCrlf(scan, 0) == Some(cut) {
      forall j | 0 <= j < cut ensures !(buf[j] == 13 && buf[j + 1] == 10) {
        PairAt(buf, j);
        assert !CrlfAt(scan, j);
      }
    }
  }

  lemma NoCutFound(buf: seq<Byte>)
    ensures FindCrlf(buf[..ScanLength(buf)], 0).None? <==> NoLineEnd(buf)
  {
    hide CrlfAt, FindCrlf;
    var scan := buf[..ScanLength(buf)];
    if FindCrlf(scan, 0).Some? {
      var j := FindCrlf(scan, 0).value;
      PairAt(buf, j);
    } else {
      forall j | 0 <= j && j + 2 <= |buf| && j + 2 <= 80 ensures !(buf[j] == 13 && buf[j + 1] == 10) {
        PairAt(buf, j);
        assert !CrlfAt(scan, j);
      }
    }
  }

  // ---------------------------------------------------------------- what the parser may say

  /** What is wrong with a buffer, for each error of the parser. */
  ghost predicate Wrong(codec: HeaderCodec, buf: seq<Byte>, e: FatalError) {
    match e
    case BareNewline => NoLineEnd(buf) && exists i :: 0 <= i < |buf| && i < 80 && buf[i] == 10
    case OverlongHeaderLine => NoLineEnd(buf) && |buf| >= 80 && forall i :: 0 <= i < 80 ==> buf[i] != 10
    case InvalidUtf8 => exists cut: nat :: LineEnds(buf, cut) && DecodeUtf8(buf[..cut]).None?
    case MalformedHeaderLine => exists cut: nat ::
      LineEnds(buf, cut) && DecodeUtf8(buf[..cut]).Some? && |SplitWhitespace(DecodeUtf8(buf[..cut]).value)| != 3
    case InvalidMessageNumber => exists x :: Spelled(buf, x) && ParseUnsigned(x.msgNo, U64_BOUND).None?
    case InvalidPacketSize => exists x ::
      Spelled(buf, x) && ParseUnsigned(x.msgNo, U64_BOUND).Some? && ParseUnsigned(x.size, U64_BOUND).None?
    case UnreasonablyLarge => exists x :: Numbered(buf, x) && x.n > 131072
    case MalformedTrailer => exists x :: Arrived(buf, x) && !Closed(buf, x)
    case UnexpectedType => exists x :: Closed(buf, x) && forall t :: !Named(t, x.command)
    case MalformedHeaderJson => exists x ::
      Closed(buf, x) && x.command == "HEADER" && codec.dec(PayloadIn(buf, x)).None?
  }

  /** What the parser says is so. */
  ghost predicate Sound(codec: HeaderCodec, buf: seq<Byte>, r: ParseResult) {
    match r
    case Success(p, used) => exists x :: FrameOf(codec, buf, x, p, used)
    case Fatal(e) => Wrong(codec, buf, e)
    case NeedBytes(bytes) => exists x ::
      Numbered(buf, x) && x.n <= 131072 && bytes > 0 && x.cut + 2 + x.n + 5 == |buf| + bytes
    case TooShort => |buf| < 80 && NoLineEnd(buf) && 10 !in buf
    case Drop(_) => false
  }

  lemma TypeNamed(command: string)
    ensures TypeOfName(command).Some? ==> Named(TypeOfName(command).value, command)
    ensures TypeOfName(command).None? ==> forall t :: !Named(t, command)
  {
  }

  lemma NamedType(t: PacketType, command: string)
    requires Named(t, command)
    ensures TypeOfName(command) == Some(t)
  {
  }

  lemma HeaderNamed(command: string)
    ensures Named(Header, command) <==> command == "HEADER"
  {
  }

  // ---------------------------------------------------------------- it says only what is so

  lemma LineSound(codec: HeaderCodec, buf: seq<Byte>, cut: nat)
    requires LineEnds(buf, cut)
    ensures ParseLine(buf[..cut]).Err? ==> Wrong(codec, buf, ParseLine(buf[..cut]).error)
    ensures ParseLine(buf[..cut]).Ok? ==>
              var line := ParseLine(buf[..cut]).value;
              line.size <= 131072 && exists msgNo, size ::
                Numbered(buf, Pieces(cut, line.command, msgNo, size, line.msgNo, line.size))
  {
    hide DecodeUtf8, SplitWhitespace, ParseUnsigned;
    var bytes := buf[..cut];
    if DecodeUtf8(bytes).Some? {
      var parts := SplitWhitespace(DecodeUtf8(bytes).value);
      if |parts| == 3 {
        assert parts == [parts[0], parts[1], parts[2]];
        var m, n := ParseUnsigned(parts[1], U64_BOUND), ParseUnsigned(parts[2], U64_BOUND);
        var x := Pieces(cut, parts[0], parts[1], parts[2],
                        if m.Some? then m.value else 0, if n.Some? then n.value else 0);
        assert Spelled(buf, x);
        assert m.Some? && n.Some? ==> Numbered(buf, x);
      }
    }
  }

  lemma AfterLineSound(codec: HeaderCodec, buf: seq<Byte>, cut: nat)
    requires LineEnds(buf, cut)
    ensures Sound(codec, buf, ParseAfterLine(codec, buf, cut))
  {
    hide ParseLine, Spelled, ParseUnsigned, TypeOfName, Named;
    LineSound(codec, buf, cut);
    var r := ParseAfterLine(codec, buf, cut);
    if ParseLine(buf[..cut]).Ok? {
      var line := ParseLine(buf[..cut]).value;
      var msgNo, size :| Numbered(buf, Pieces(cut, line.command, msgNo, size, line.msgNo, line.size));
      var x := Pieces(cut, line.command, msgNo, size, line.msgNo, line.size);
      assert TRAILER == [69, 78, 68, 13, 10];
      if Closed(buf, x) {
        TypeNamed(line.command);
        HeaderNamed(line.command);
        assert r.Success? ==> FrameOf(codec, buf, x, r.packet, r.bytesUsed);
      } else {
        assert Numbered(buf, x);
      }
    }
  }

  lemma ParseSound(codec: HeaderCodec, buf: seq<Byte>)
    ensures Sound(codec, buf, Parse(codec, buf))
  {
    hide ParseAfterLine, FindCrlf, LineEnds, NoLineEnd, FrameOf, Numbered;
    NoCutFound(buf);
    var scan := buf[..ScanLength(buf)];
    if FindCrlf(scan, 0).Some? {
      CutFound(buf, FindCrlf(scan, 0).value);
      AfterLineSound(codec, buf, FindCrlf(scan, 0).value);
    } else {
      assert forall i :: 0 <= i < |scan| ==> buf[i] == scan[i] && scan[i] in scan;
      assert |buf| < 80 ==> scan == buf;
    }
  }

  // ---------------------------------------------------------------- and nothing else is

  lemma LineParsed(codec: HeaderCodec, buf: seq<Byte>, cut: nat)
    requires LineEnds(buf, cut)
    ensures cut + 2 <= |buf| && Parse(codec, buf) == ParseAfterLine(codec, buf, cut)
  {
    hide ParseAfterLine, FindCrlf;
    CutFound(buf, cut);
  }

  /** The words of the line decide what its parser makes of it. */
  lemma SpelledParsed(codec: HeaderCodec, buf: seq<Byte>, x: Pieces)
    requires Spelled(buf, x)
    ensures x.cut + 2 <= |buf| && Parse(codec, buf) == ParseAfterLine(codec, buf, x.cut)
    ensures ParseLine(buf[..x.cut]) ==
            if ParseUnsigned(x.msgNo, U64_BOUND).None? then Err(InvalidMessageNumber)
            else if ParseUnsigned(x.size, U64_BOUND).None? then Err(InvalidPacketSize)
            else if ParseUnsigned(x.size, U64_BOUND).value > 131072 then Err(UnreasonablyLarge)
            else Ok(Line(x.command, ParseUnsigned(x.msgNo, U64_BOUND).value, ParseUnsigned(x.size, U64_BOUND).value))
  {
    hide DecodeUtf8, SplitWhitespace, ParseUnsigned, Parse;
    LineParsed(codec, buf, x.cut);
  }

  /** So do the pieces of the buffer once all of it is there. */
  lemma NumberedParsed(codec: HeaderCodec, buf: seq<Byte>, x: Pieces)
    requires Numbered(buf, x)
    ensures x.cut + 2 <= |buf| && x.n <= 131072 ==>
              Parse(codec, buf) ==
              if x.cut + 2 + x.n + 5 > |buf| then NeedBytes(x.cut + 2 + x.n + 5 - |buf|)
              else if !Closed(buf, x) then Fatal(MalformedTrailer)
              else
                match MakePacket(codec, Line(x.command, x.m, x.n), PayloadIn(buf, x))
                case Err(e) => Fatal(e)
                case Ok(p) => Success(p, x.cut + 2 + x.n + 5)
    ensures x.cut + 2 <= |buf| && (x.n > 131072 ==> Parse(codec, buf) == Fatal(UnreasonablyLarge))
  {
    hide Spelled, ParseUnsigned, Parse, ParseLine, MakePacket;
    SpelledParsed(codec, buf, x);
    assert TRAILER == [69, 78, 68, 13, 10];
  }

  lemma FrameParsed(codec: HeaderCodec, buf: seq<Byte>, x: Pieces, p: Packet, used: nat)
    requires FrameOf(codec, buf, x, p, used)
    ensures Parse(codec, buf) == Success(p, used)
  {
    hide Numbered, Named, TypeOfName, Parse;
    NumberedParsed(codec, buf, x);
    NamedType(p.packetType, x.command);
    assert p == Packet(p.packetType, p.msgNo, p.header, p.body);
  }

  lemma NoLineParsed(codec: HeaderCodec, buf: seq<Byte>)
    requires NoLineEnd(buf)
    ensures Parse(codec, buf) ==
            if exists i :: 0 <= i < |buf| && i < 80 && buf[i] == 10 then Fatal(BareNewline)
            else if |buf| >= 80 then Fatal(OverlongHeaderLine)
            else TooShort
  {
    hide FindCrlf, NoLineEnd;
    NoCutFound(buf);
    var scan := buf[..ScanLength(buf)];
    assert forall i :: 0 <= i < |scan| ==> buf[i] == scan[i];
    if i :| 0 <= i < |buf| && i < 80 && buf[i] == 10 {
      assert scan[i] == 10;
    }
  }

  lemma WrongParsed(codec: HeaderCodec, buf: seq<Byte>, e: FatalError)
    requires Wrong(codec, buf, e)
    ensures Parse(codec, buf) == Fatal(e)
  {
    hide NoLineEnd, Spelled, ParseUnsigned, Parse, Named, TypeOfName, DecodeUtf8, SplitWhitespace;
    match e {
      case BareNewline => NoLineParsed(codec, buf);
      case OverlongHeaderLine => NoLineParsed(codec, buf);
      case InvalidUtf8 =>
        var cut: nat :| LineEnds(buf, cut) && DecodeUtf8(buf[..cut]).None?;
        LineParsed(codec, buf, cut);
      case MalformedHeaderLine =>
        var cut: nat :| LineEnds(buf, cut) && DecodeUtf8(buf[..cut]).Some?
                        && |SplitWhitespace(DecodeUtf8(buf[..cut]).value)| != 3;
        LineParsed(codec, buf, cut);
      case InvalidMessageNumber =>
        var x :| Spelled(buf, x) && ParseUnsigned(x.msgNo, U64_BOUND).None?;
        SpelledParsed(codec, buf, x);
      case InvalidPacketSize =>
        var x :| Spelled(buf, x) && ParseUnsigned(x.msgNo, U64_BOUND).Some? && ParseUnsigned(x.size, U64_BOUND).None?;
        SpelledParsed(codec, buf, x);
      case UnreasonablyLarge =>
        var x :| Numbered(buf, x) && x.n > 131072;
        NumberedParsed(codec, buf, x);
      case MalformedTrailer =>
        var x :| Arrived(buf, x) && !Closed(buf, x);
        NumberedParsed(codec, buf, x);
      case UnexpectedType =>
        var x :| Closed(buf, x) && forall t :: !Named(t, x.command);
        NumberedParsed(codec, buf, x);
        TypeNamed(x.command);
      case MalformedHeaderJson =>
        var x :| Closed(buf, x) && x.command == "HEADER" && codec.dec(PayloadIn(buf, x)).None?;
        NumberedParsed(codec, buf, x);
        HeaderNamed(x.command);
        NamedType(Header, x.command);
    }
  }

  /** The parser says of a buffer what is so, and there is only one thing that is: a packet and its length, exactly when
      the buffer begins with a header line of three words within 80 bytes, a payload of the size the line gives,
      at most 131072 bytes, that makes the packet, and the trailer; an error, exactly for its reason; the exact
      number of bytes missing once the line is complete; or that the line is not. */
  lemma ParseExactly(codec: HeaderCodec, buf: seq<Byte>, r: ParseResult)
    ensures Parse(codec, buf) == r <==> Sound(codec, buf, r)
  {
    hide Parse, FrameOf, Numbered, NoLineEnd, Wrong;
    ParseSound(codec, buf);
    if Sound(codec, buf, r) {
      match r {
        case Success(p, used) =>
          var x :| FrameOf(codec, buf, x, p, used);
          FrameParsed(codec, buf, x, p, used);
        case Fatal(e) => WrongParsed(codec, buf, e);
        case NeedBytes(bytes) =>
          var x :| Numbered(buf, x) && x.n <= 131072 && bytes > 0 && x.cut + 2 + x.n + 5 == |buf| + bytes;
          NumberedParsed(codec, buf, x);
        case TooShort =>
          NoLineParsed(codec, buf);
          assert forall i :: 0 <= i < |buf| && buf[i] == 10 ==> buf[i] in buf;
      }
    }
  }
}
