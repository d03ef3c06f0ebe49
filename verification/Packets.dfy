/**
 Packet framing (proto/packet.rs): `TYPE MSGNO SIZE\r\n<payload>END\r\n`.
 The JSON text of a HEADER payload is produced and read by an abstract codec.
 */
module Packets {
  import opened Wrappers
  import opened Text

  const MAX_PACKET_SIZE: nat := 131072
  const DATA_CHUNK_SIZE: nat := 2048
  const HEADER_LINE_LIMIT: nat := 80

  datatype PacketType = Header | Data | Eof | Txerr | Ack | Ping | Pong

  datatype EnvelopeFormat = Json | JsonStore | Other(name: string)

  datatype MessageType = Request | Reply

  /** `errorData` is the text of the JSON value the source keeps there. */
  datatype PacketHeader = PacketHeader(
    action: string, envelope: EnvelopeFormat,
    error: Option<string>, errorCode: Option<string>, errorData: Option<string>,
    requestId: int, clientId: int, ticket: string, identifyingToken: string,
    messageType: MessageType, version: int)

  datatype Packet = Packet(packetType: PacketType, msgNo: nat, header: Option<PacketHeader>, body: seq<Byte>)

  datatype FatalError =
    | BareNewline | OverlongHeaderLine | InvalidUtf8 | MalformedHeaderLine | InvalidMessageNumber
    | InvalidPacketSize | UnreasonablyLarge | MalformedTrailer | UnexpectedType | MalformedHeaderJson

  datatype ParseResult =
    | TooShort
    | NeedBytes(bytes: nat)
    | Success(packet: Packet, bytesUsed: nat)
    | Drop(bytesUsed: nat)
    | Fatal(error: FatalError)

  /** The JSON reader and writer of header payloads. */
  datatype HeaderCodec = HeaderCodec(enc: PacketHeader -> seq<Byte>, dec: seq<Byte> -> Option<PacketHeader>)

  // ---------------------------------------------------------------- writing

  function TypeName(t: PacketType): (s: string)
    ensures s != "" && NoWhitespace(s) && Ascii(s) && |s| <= 6
  {
    match t
    case Header => "HEADER"
    case Data => "DATA"
    case Eof => "EOF"
    case Txerr => "TXERR"
    case Ack => "ACK"
    case Ping => "PING"
    case Pong => "PONG"
  }

  function TypeOfName(s: string): Option<PacketType> {
    if s == "HEADER" then Some(Header)
    else if s == "DATA" then Some(Data)
    else if s == "EOF" then Some(Eof)
    else if s == "TXERR" then Some(Txerr)
    else if s == "ACK" then Some(Ack)
    else if s == "PING" then Some(Ping)
    else if s == "PONG" then Some(Pong)
    else None
  }

  const CRLF: seq<Byte> := [13, 10]
  const TRAILER: seq<Byte> := [69, 78, 68, 13, 10]

  /** What goes between the header line and the trailer. */
  function PayloadOf(codec: HeaderCodec, p: Packet): seq<Byte> {
    match p.header
    case Some(h) => codec.enc(h)
    case None => p.body
  }

  /** The header line without its line end. */
  function LineText(p: Packet, size: nat): (s: string)
    ensures Ascii(s)
  {
    TypeName(p.packetType) + " " + Decimal(p.msgNo) + " " + Decimal(size)
  }

  function HeaderLine(p: Packet, size: nat): seq<Byte> {
    Encode(LineText(p, size)) + CRLF
  }

  /** The bytes of a packet on the wire. */
  function Framed(codec: HeaderCodec, p: Packet): seq<Byte> {
    var payload := PayloadOf(codec, p);
    HeaderLine(p, |payload|) + payload + TRAILER
  }

  /** The byte stream a packet is written to. */
  class ByteSink {
    var bytes: seq<Byte>

    constructor ()
      ensures bytes == []
    {
      bytes := [];
    }

    method WriteAll(b: seq<Byte>)
      modifies this
      ensures bytes == old(bytes) + b
    {
      bytes := bytes + b;
    }
  }

  /** `Packet::write` */
  method WritePacket(codec: HeaderCodec, p: Packet, writer: ByteSink) returns (written: nat)
    modifies writer
    ensures writer.bytes == old(writer.bytes) + Framed(codec, p)
    ensures written == |Framed(codec, p)|
  {
    var bodyBuf: seq<Byte> := [];
    match p.header {
      case Some(h) => bodyBuf := bodyBuf + codec.enc(h);
      case None => bodyBuf := bodyBuf + p.body;
    }
    var headerLine := HeaderLine(p, |bodyBuf|);
    writer.WriteAll(headerLine);
    writer.WriteAll(bodyBuf);
    writer.WriteAll(TRAILER);
    return |headerLine| + |bodyBuf| + 5;
  }

  // ---------------------------------------------------------------- parsing

  predicate CrlfAt(buf: seq<Byte>, i: nat) {
    i + 1 < |buf| && buf[i] == 13 && buf[i + 1] == 10
  }

  /** The first CR LF pair of `buf` at `from` or later. */
  function FindCrlf(buf: seq<Byte>, from: nat): (r: Option<nat>)
    ensures r.Some? ==> from <= r.value && CrlfAt(buf, r.value)
    ensures r.Some? ==> forall j :: from <= j < r.value ==> !CrlfAt(buf, j)
    ensures r.None? ==> forall j :: from <= j ==> !CrlfAt(buf, j)
    decreases |buf| - from
  {
    if from + 1 >= |buf| then None
    else if CrlfAt(buf, from) then Some(from)
    else FindCrlf(buf, from + 1)
  }

  datatype Line = Line(command: string, msgNo: nat, size: nat)

  /** The fields of a header line (without its line end). */
  function ParseLine(bytes: seq<Byte>): Result<Line, FatalError> {
    match DecodeUtf8(bytes)
    case None => Err(InvalidUtf8)
    case Some(text) =>
      var parts := SplitWhitespace(text);
      if |parts| != 3 then Err(MalformedHeaderLine)
      else
        match ParseUnsigned(parts[1], U64_BOUND)
        case None => Err(InvalidMessageNumber)
        case Some(msgNo) =>
          match ParseUnsigned(parts[2], U64_BOUND)
          case None => Err(InvalidPacketSize)
          case Some(size) =>
            if size > MAX_PACKET_SIZE then Err(UnreasonablyLarge) else Ok(Line(parts[0], msgNo, size))
  }

  /** The packet made of a header line and a complete payload. */
  function MakePacket(codec: HeaderCodec, line: Line, payload: seq<Byte>): Result<Packet, FatalError> {
    match TypeOfName(line.command)
    case None => Err(UnexpectedType)
    case Some(Header) =>
      (match codec.dec(payload)
       case None => Err(MalformedHeaderJson)
       case Some(h) => Ok(Packet(Header, line.msgNo, Some(h), [])))
    case Some(t) => Ok(Packet(t, line.msgNo, None, payload))
  }

  /** What `Packet::parse` does once the header line is known to end at `cut`. */
  function ParseAfterLine(codec: HeaderCodec, buf: seq<Byte>, cut: nat): (r: ParseResult)
    requires cut + 2 <= |buf|
    ensures r.Success? ==> 0 < r.bytesUsed <= |buf|
    ensures r.NeedBytes? ==> r.bytes > 0
    ensures !r.TooShort? && !r.Drop?
  {
    match ParseLine(buf[..cut])
    case Err(e) => Fatal(e)
    case Ok(line) =>
      var start := cut + 2;
      var end := start + line.size;
      if end + 5 > |buf| then NeedBytes(end + 5 - |buf|)
      else if buf[end..end + 5] != TRAILER then Fatal(MalformedTrailer)
      else
        match MakePacket(codec, line, buf[start..end])
        case Err(e) => Fatal(e)
        case Ok(p) => Success(p, end + 5)
  }

  function ScanLength(buf: seq<Byte>): nat {
    if |buf| < HEADER_LINE_LIMIT then |buf| else HEADER_LINE_LIMIT
  }

  /** `Packet::parse` */
  function Parse(codec: HeaderCodec, buf: seq<Byte>): (r: ParseResult)
    ensures r.Success? ==> 0 < r.bytesUsed <= |buf|
    ensures r.NeedBytes? ==> r.bytes > 0
    ensures !r.Drop?
  {
    if buf == [] then TooShort
    else
      var scan := buf[..ScanLength(buf)];
      match FindCrlf(scan, 0)
      case Some(cut) => ParseAfterLine(codec, buf, cut)
      case None =>
        if 10 in scan then Fatal(BareNewline)
        else if |scan| >= HEADER_LINE_LIMIT then Fatal(OverlongHeaderLine)
        else TooShort
  }

  // ---------------------------------------------------------------- more bytes arriving

  /** A line end found in a buffer is the one found in every longer buffer. */
  lemma FindCrlfExtends(buf: seq<Byte>, ext: seq<Byte>)
    requires FindCrlf(buf[..ScanLength(buf)], 0).Some?
    ensures FindCrlf((buf + ext)[..ScanLength(buf + ext)], 0) == FindCrlf(buf[..ScanLength(buf)], 0)
  {
    var scan := buf[..ScanLength(buf)];
    var longer := (buf + ext)[..ScanLength(buf + ext)];
    var cut := FindCrlf(scan, 0).value;
    assert scan == longer[..|scan|];
    assert CrlfAt(longer, cut);
    assert forall j :: 0 <= j < cut ==> CrlfAt(longer, j) == CrlfAt(scan, j);
  }

  lemma ParseAfterLineExtends(codec: HeaderCodec, buf: seq<Byte>, ext: seq<Byte>, cut: nat)
    requires cut + 2 <= |buf|
    ensures
      var r, s := ParseAfterLine(codec, buf, cut), ParseAfterLine(codec, buf + ext, cut);
      if r.NeedBytes? then
        (if |ext| < r.bytes then s == NeedBytes(r.bytes - |ext|) else !s.NeedBytes?)
      else s == r
  {
    hide ParseLine, MakePacket;
    assert (buf + ext)[..cut] == buf[..cut];
    match ParseLine(buf[..cut]) {
      case Err(_) =>
      case Ok(line) =>
        var start := cut + 2;
        var end := start + line.size;
        if end + 5 <= |buf| {
          assert (buf + ext)[start..end] == buf[start..end];
          assert (buf + ext)[end..end + 5] == buf[end..end + 5];
        }
    }
  }

  /** A packet found at the front of a buffer is found there whatever follows. */
  lemma SuccessExtends(codec: HeaderCodec, buf: seq<Byte>, ext: seq<Byte>)
    requires Parse(codec, buf).Success?
    ensures Parse(codec, buf + ext) == Parse(codec, buf)
  {
    hide ParseAfterLine, FindCrlf;
    FindCrlfExtends(buf, ext);
    ParseAfterLineExtends(codec, buf, ext, FindCrlf(buf[..ScanLength(buf)], 0).value);
  }

  /** A shortfall is exact: it shrinks by each byte that arrives, and when it is met
      the parser decides. */
  lemma NeedBytesExtends(codec: HeaderCodec, buf: seq<Byte>, ext: seq<Byte>)
    requires Parse(codec, buf).NeedBytes?
    ensures
      var missing, r := Parse(codec, buf).bytes, Parse(codec, buf + ext);
      if |ext| < missing then r == NeedBytes(missing - |ext|) else r.Success? || r.Fatal?
  {
    hide ParseAfterLine, FindCrlf;
    FindCrlfExtends(buf, ext);
    ParseAfterLineExtends(codec, buf, ext, FindCrlf(buf[..ScanLength(buf)], 0).value);
  }

  /** A bare line feed is final once a carriage return can no longer be what comes next to it in the bytes looked at:
      the buffer fills them, or lacks one byte and does not end in a carriage return. */
  predicate Final(codec: HeaderCodec, buf: seq<Byte>) {
    Parse(codec, buf) == Fatal(BareNewline) ==>
      |buf| >= HEADER_LINE_LIMIT || (|buf| == HEADER_LINE_LIMIT - 1 && buf[HEADER_LINE_LIMIT - 2] != 13)
  }

  lemma FinalExtends(codec: HeaderCodec, buf: seq<Byte>, ext: seq<Byte>)
    requires Parse(codec, buf).Fatal? && Final(codec, buf)
    ensures Parse(codec, buf + ext) == Parse(codec, buf)
  {
    hide ParseAfterLine;
    var scan := buf[..ScanLength(buf)];
    var longer := (buf + ext)[..ScanLength(buf + ext)];
    if FindCrlf(scan, 0).Some? {
      FindCrlfExtends(buf, ext);
      ParseAfterLineExtends(codec, buf, ext, FindCrlf(scan, 0).value);
    } else if |buf| >= HEADER_LINE_LIMIT {
      assert longer == scan;
    } else if ext == [] {
      assert buf + ext == buf;
    } else {
      assert scan == buf && longer == buf + [ext[0]];
      assert forall j :: 0 <= j ==> !CrlfAt(buf, j);
      assert forall j :: 0 <= j < |buf| - 1 ==> CrlfAt(longer, j) == CrlfAt(buf, j);
      assert FindCrlf(longer, 0).None?;
      var k :| 0 <= k < |buf| && buf[k] == 10;
      assert longer[k] == 10;
    }
  }

  /** Bytes that undo a bare line feed that is not final. */
  lemma BareNewlineUndone(codec: HeaderCodec, buf: seq<Byte>) returns (ext: seq<Byte>)
    requires Parse(codec, buf).Fatal? && !Final(codec, buf)
    ensures Parse(codec, buf + ext) != Parse(codec, buf)
  {
    hide ParseAfterLine;
    ext := if |buf| <= HEADER_LINE_LIMIT - 2 then [13, 10] else [10];
    var longer := buf + ext;
    assert longer[..ScanLength(longer)] == longer;
    assert CrlfAt(longer, |longer| - 2);
    assert FindCrlf(longer, 0).Some?;
    AfterLineNotBare(codec, longer, FindCrlf(longer, 0).value);
  }

  lemma AfterLineNotBare(codec: HeaderCodec, buf: seq<Byte>, cut: nat)
    requires cut + 2 <= |buf|
    ensures ParseAfterLine(codec, buf, cut) != Fatal(BareNewline)
  {
    hide DecodeUtf8, SplitWhitespace, ParseUnsigned;
  }

  /** An error stands whatever follows exactly if it is final. */
  lemma FatalExtends(codec: HeaderCodec, buf: seq<Byte>)
    requires Parse(codec, buf).Fatal?
    ensures (forall ext :: Parse(codec, buf + ext) == Parse(codec, buf)) <==> Final(codec, buf)
  {
    hide Parse, Final;
    if Final(codec, buf) {
      forall ext ensures Parse(codec, buf + ext) == Parse(codec, buf) {
        FinalExtends(codec, buf, ext);
      }
    } else {
      var ext := BareNewlineUndone(codec, buf);
    }
  }

  // ---------------------------------------------------------------- reading back what was written

  /** The packets that survive the trip over the wire: a header exactly on HEADER packets, which
      then have no body, a message number of 64 bits, a payload the parser allows, and a header
      the codec reads back. */
  ghost predicate Sendable(codec: HeaderCodec, p: Packet) {
    && (p.header.Some? <==> p.packetType == Header)
    && (p.header.Some? ==> p.body == [] && codec.dec(codec.enc(p.header.value)) == Some(p.header.value))
    && p.msgNo < U64_BOUND
    && |PayloadOf(codec, p)| <= MAX_PACKET_SIZE
  }

  lemma NoWhitespaceDecimal(n: nat)
    ensures NoWhitespace(Decimal(n))
  {
    assert AllDigits(Decimal(n));
  }

  lemma SplitLineText(p: Packet, size: nat)
    ensures SplitWhitespace(LineText(p, size)) == [TypeName(p.packetType), Decimal(p.msgNo), Decimal(size)]
  {
    hide TypeName, Decimal, SplitWhitespace, NoWhitespace;
    var t, m, z := TypeName(p.packetType), Decimal(p.msgNo), Decimal(size);
    NoWhitespaceDecimal(p.msgNo);
    NoWhitespaceDecimal(size);
    assert LineText(p, size) == t + (" " + (m + (" " + z)));
    SplitWhitespaceToken(t, " " + (m + (" " + z)));
    SplitWhitespaceSpace(m + (" " + z));
    SplitWhitespaceToken(m, " " + z);
    SplitWhitespaceSpace(z);
    SplitWhitespaceLast(z);
  }

  /** The header line parser inverts the header line printer. */
  lemma ParseLineText(p: Packet, size: nat)
    requires p.msgNo < U64_BOUND && size <= MAX_PACKET_SIZE
    ensures ParseLine(Encode(LineText(p, size))) == Ok(Line(TypeName(p.packetType), p.msgNo, size))
  {
    hide SplitWhitespace, LineText, TypeName, Decimal;
    DecodeEncode(LineText(p, size));
    SplitLineText(p, size);
    ParseDecimal(p.msgNo, U64_BOUND);
    ParseDecimal(size, U64_BOUND);
  }

  /** A header line of a packet the parser allows fits the 80 bytes it looks at. */
  lemma LineFits(p: Packet, size: nat)
    requires p.msgNo < U64_BOUND && size <= MAX_PACKET_SIZE
    ensures |LineText(p, size)| <= 34
  {
    assert Pow10(6) == 1000000;
    assert Pow10(10) == 1_0000000000;
    assert Pow10(15) == 1_000000000000000;
    assert Pow10(20) == 1_00000000000000000000;
    DecimalLength(size, 6, 1000000);
    DecimalLength(p.msgNo, 20, Pow10(20));
  }

  lemma LineBytesPlain(p: Packet, size: nat)
    ensures forall b | b in Encode(LineText(p, size)) :: b != 10 && b != 13
  {
    var s := LineText(p, size);
    assert forall i :: 0 <= i < |TypeName(p.packetType)| ==> !IsWhitespace(TypeName(p.packetType)[i]);
    assert forall i :: 0 <= i < |s| ==> s[i] == ' ' || !IsWhitespace(s[i]);
    assert forall i :: 0 <= i < |s| ==> Encode(s)[i] == s[i] as int;
  }

  /** The line end of a written packet is found where the printer put it. */
  lemma FindCrlfWritten(line: seq<Byte>, tail: seq<Byte>)
    requires forall b | b in line :: b != 10 && b != 13
    requires |line| + 2 <= HEADER_LINE_LIMIT
    ensures
      var buf := line + CRLF + tail;
      FindCrlf(buf[..ScanLength(buf)], 0) == Some(|line|)
  {
    var buf := line + CRLF + tail;
    var scan := buf[..ScanLength(buf)];
    assert CrlfAt(scan, |line|);
    assert forall j :: 0 <= j < |line| ==> scan[j] == line[j] && line[j] in line;
    assert forall j :: 0 <= j < |line| ==> !CrlfAt(scan, j);
  }

  /** With the header line behind it, the parser takes payload and trailer apart again. */
  lemma ParseAfterLineFramed(codec: HeaderCodec, p: Packet, line: seq<Byte>, rest: seq<Byte>)
    requires Sendable(codec, p)
    requires ParseLine(line) == Ok(Line(TypeName(p.packetType), p.msgNo, |PayloadOf(codec, p)|))
    ensures
      var size := |line| + 2 + |PayloadOf(codec, p)| + 5;
      ParseAfterLine(codec, line + CRLF + PayloadOf(codec, p) + TRAILER + rest, |line|) == Success(p, size)
  {
    hide ParseLine;
    var payload := PayloadOf(codec, p);
    var buf := line + CRLF + payload + TRAILER + rest;
    var start := |line| + 2;
    var end := start + |payload|;
    assert buf[..|line|] == line;
    assert buf[start..end] == payload;
    assert buf[end..end + 5] == TRAILER;
    assert TypeOfName(TypeName(p.packetType)) == Some(p.packetType);
    assert MakePacket(codec, Line(TypeName(p.packetType), p.msgNo, |payload|), payload) == Ok(p);
  }

  /** Reading a written packet gives the packet and uses exactly its bytes, whatever follows it. */
  lemma ParseFramed(codec: HeaderCodec, p: Packet, rest: seq<Byte>)
    requires Sendable(codec, p)
    ensures Parse(codec, Framed(codec, p) + rest) == Success(p, |Framed(codec, p)|)
  {
    hide ParseLine, MakePacket, LineText, ParseAfterLine;
    var payload := PayloadOf(codec, p);
    var line := Encode(LineText(p, |payload|));
    LineFits(p, |payload|);
    LineBytesPlain(p, |payload|);
    assert Framed(codec, p) + rest == line + CRLF + payload + TRAILER + rest;
    assert Framed(codec, p) + rest == line + CRLF + (payload + TRAILER + rest);
    FindCrlfWritten(line, payload + TRAILER + rest);
    ParseLineText(p, |payload|);
    ParseAfterLineFramed(codec, p, line, rest);
  }

  /** A packet cut short is never mistaken for anything else, and once its header line has
      arrived the shortfall reported is the exact number of bytes missing. */
  lemma ParseTruncated(codec: HeaderCodec, p: Packet, n: nat)
    requires Sendable(codec, p) && n < |Framed(codec, p)|
    ensures Parse(codec, Framed(codec, p)[..n]) ==
            if n < |HeaderLine(p, |PayloadOf(codec, p)|)| then TooShort else NeedBytes(|Framed(codec, p)| - n)
  {
    hide ParseLine, MakePacket, LineText;
    var payload := PayloadOf(codec, p);
    var line := Encode(LineText(p, |payload|));
    var whole := Framed(codec, p);
    var buf := whole[..n];
    LineFits(p, |payload|);
    LineBytesPlain(p, |payload|);
    assert whole == line + CRLF + (payload + TRAILER);
    if n < |line| + 2 {
      assert forall j :: 0 <= j < n ==> buf[j] == (line + CRLF)[j];
      assert forall j :: 0 <= j < n && j < |line| ==> buf[j] == line[j] && line[j] in line;
      assert forall j :: 0 <= j < n ==> buf[j] != 10;
      assert buf[..ScanLength(buf)] == buf;
    } else {
      assert buf == line + CRLF + (payload + TRAILER)[..n - |line| - 2];
      FindCrlfWritten(line, (payload + TRAILER)[..n - |line| - 2]);
      assert buf[..|line|] == line;
      ParseLineText(p, |payload|);
    }
  }

  // ---------------------------------------------------------------- packets that are not accepted

  /** A packet as the code makes it, with a header the codec reads back; its number and size may be beyond what the
      parser takes. */
  ghost predicate Honest(codec: HeaderCodec, p: Packet) {
    && (p.header.Some? <==> p.packetType == Header)
    && (p.header.Some? ==> p.body == [] && codec.dec(codec.enc(p.header.value)) == Some(p.header.value))
  }

  lemma HonestSendable(codec: HeaderCodec, p: Packet)
    ensures Sendable(codec, p)
        <==> Honest(codec, p) && p.msgNo < U64_BOUND && |PayloadOf(codec, p)| <= MAX_PACKET_SIZE
  {
  }

  /** A header line with a number or a size out of range is an error. */
  lemma LineRefused(p: Packet, size: nat)
    requires p.msgNo >= U64_BOUND || size > MAX_PACKET_SIZE
    ensures ParseLine(Encode(LineText(p, size))).Err?
  {
    hide SplitWhitespace, LineText, TypeName, Decimal;
    DecodeEncode(LineText(p, size));
    SplitLineText(p, size);
    ParseDecimal(p.msgNo, U64_BOUND);
    ParseDecimal(size, U64_BOUND);
  }

  /** The parser never takes anything for the beginning of a packet it would not accept: it waits for the header line
      and then stops. */
  lemma OutsizedRefused(codec: HeaderCodec, p: Packet, rest: seq<Byte>, n: nat)
    requires p.msgNo >= U64_BOUND || |PayloadOf(codec, p)| > MAX_PACKET_SIZE
    requires n <= |Framed(codec, p) + rest|
    ensures
      var r := Parse(codec, (Framed(codec, p) + rest)[..n]);
      r.Fatal? || (r.TooShort? && n < |Framed(codec, p)|)
  {
    hide ParseLine, LineText, MakePacket;
    var size := |PayloadOf(codec, p)|;
    var line := Encode(LineText(p, size));
    var tail := PayloadOf(codec, p) + TRAILER + rest;
    var whole := Framed(codec, p) + rest;
    assert whole == line + CRLF + tail;
    LineBytesPlain(p, size);
    LineRefused(p, size);
    OutsizedLine(codec, line, tail, n);
  }

  lemma OutsizedLine(codec: HeaderCodec, line: seq<Byte>, tail: seq<Byte>, n: nat)
    requires (forall b | b in line :: b != 10 && b != 13) && ParseLine(line).Err?
    requires n <= |line + CRLF + tail|
    ensures
      var r := Parse(codec, (line + CRLF + tail)[..n]);
      r.Fatal? || (r.TooShort? && n < |line| + 2)
  {
    hide ParseLine, MakePacket;
    var whole := line + CRLF + tail;
    var buf := whole[..n];
    var scan := buf[..ScanLength(buf)];
    assert forall j :: 0 <= j < |scan| ==> scan[j] == whole[j];
    assert forall j :: 0 <= j < |line| ==> whole[j] == line[j] && line[j] in line;
    assert whole[|line|] == 13 && whole[|line| + 1] == 10;
    if |scan| >= |line| + 2 {
      assert CrlfAt(scan, |line|);
      assert forall j :: 0 <= j < |line| ==> !CrlfAt(scan, j);
      assert FindCrlf(scan, 0) == Some(|line|);
      assert buf[..|line|] == line;
    } else {
      assert forall j :: 0 <= j < |scan| ==> scan[j] != 10;
      assert forall j :: 0 <= j ==> !CrlfAt(scan, j);
      assert FindCrlf(scan, 0).None?;
    }
  }
}
