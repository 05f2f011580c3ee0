/** The wire format of IPv4 datagrams (section 3.1 of RFC 791). */
module DatagramFormat {
  import opened Wrappers
  import opened Wrapping
  import opened Datagrams
  import opened Checksums
  import opened Parsing

  const LENGTH: nat := 20

  const DEFAULT: IPv4Header := IPv4Header(4, 5, 0, 0, 0, true, false, 0, 128, 6, 0, 0, 0)

  /** The length of the payload, in 16 bits. */
  function PayloadLength(h: IPv4Header): u16 { (h.len - 4 * h.hlen) % U16 }

  function FirstByte(h: IPv4Header): Byte { h.ver * 16 % 256 + h.hlen % 16 }

  function Fragment(h: IPv4Header): u16 {
    (if h.df then 0x4000 else 0) + (if h.mf then 0x2000 else 0) + h.offset % 0x2000
  }

  function Front(b0: Byte, tos: Byte, len: u16, id: u16, fo: u16, rest: seq<Byte>): seq<Byte> {
    BigEndian(b0, 1) + (BigEndian(tos, 1) + (BigEndian(len, 2) + (BigEndian(id, 2) + (BigEndian(fo, 2) + rest))))
  }

  function Back(ttl: Byte, proto: Byte, cksum: u16, src: u32, dst: u32, rest: seq<Byte>): seq<Byte> {
    BigEndian(ttl, 1) + (BigEndian(proto, 1) + (BigEndian(cksum, 2) + (BigEndian(src, 4) + (BigEndian(dst, 4) + rest))))
  }

  /** The twenty bytes of the fields, then `rest`. */
  function Fields(h: IPv4Header, rest: seq<Byte>): seq<Byte> {
    Front(FirstByte(h), h.tos, h.len, h.id, Fragment(h), Back(h.ttl, h.proto, h.cksum, h.src, h.dst, rest))
  }

  function SerializeHeader(h: IPv4Header): seq<Byte>
    requires h.ver == 4 && h.hlen >= 5
  {
    Fields(h, Zeros(4 * h.hlen - LENGTH))
  }

  datatype FrontParsed = FrontParsed(b0: Byte, tos: Byte, len: u16, id: u16, fo: u16, parser: Parser)

  function ParseFront(p0: Parser): FrontParsed {
    var p1 := Skip(p0, 1);
    var p2 := Skip(p1, 1);
    var p3 := Skip(p2, 2);
    var p4 := Skip(p3, 2);
    FrontParsed(U8(p0), U8(p1), U16At(p2), U16At(p3), U16At(p4), Skip(p4, 2))
  }

  datatype BackParsed = BackParsed(ttl: Byte, proto: Byte, cksum: u16, src: u32, dst: u32, parser: Parser)

  function ParseBack(p0: Parser): BackParsed {
    var p1 := Skip(p0, 1);
    var p2 := Skip(p1, 1);
    var p3 := Skip(p2, 2);
    var p4 := Skip(p3, 4);
    BackParsed(U8(p0), U8(p1), U16At(p2), U32At(p3), U32At(p4), Skip(p4, 4))
  }

  function Assemble(f: FrontParsed, b: BackParsed): IPv4Header {
    IPv4Header(f.b0 / 16, f.b0 % 16, f.tos, f.len, f.id, f.fo / 0x4000 % 2 == 1, f.fo / 0x2000 % 2 == 1, f.fo % 0x2000,
               b.ttl, b.proto, b.cksum, b.src, b.dst)
  }

  datatype Parsed = Parsed(header: IPv4Header, parser: Parser, result: ParseResult)

  /** The checks behind the fields; the first that fails leaves the parser right behind the twenty bytes. */
  function CheckHeader(h: IPv4Header, p: Parser, bytes: seq<Byte>): Parsed {
    if |bytes| < 4 * h.hlen then Parsed(h, p, PacketTooShort)
    else if h.ver != 4 then Parsed(h, p, WrongIPVersion)
    else if h.hlen < 5 then Parsed(h, p, HeaderTooShort)
    else if |bytes| != h.len then Parsed(h, p, TruncatedPacket)
    else
      var p1 := Skip(p, h.hlen * 4 - LENGTH);
      if p1.error != NoError then Parsed(h, p1, p1.error)
      else Parsed(h, p1, if Checksum(0, bytes[..4 * h.hlen]) != 0 then BadChecksum else NoError)
  }

  function ParseHeader(p: Parser): Parsed {
    if |p.buf| < LENGTH then Parsed(DEFAULT, p, PacketTooShort) else
    var f := ParseFront(p);
    var b := ParseBack(f.parser);
    CheckHeader(Assemble(f, b), b.parser, p.buf)
  }

  // ---------- Datagrams ----------

  ghost predicate WellFormed(d: Datagram)
  {
    && d.header.ver == 4 && 5 <= d.header.hlen <= 15 && d.header.offset < 0x2000
    && d.header.len == 4 * d.header.hlen + |d.payload|
  }

  function HeaderChecksum(h: IPv4Header): u16
    requires h.ver == 4 && h.hlen >= 5
  {
    Checksum(0, SerializeHeader(h.(cksum := 0)))
  }

  function Serialize(d: Datagram): seq<Byte>
    requires d.header.ver == 4 && d.header.hlen >= 5 && |d.payload| == PayloadLength(d.header)
  {
    SerializeHeader(d.header.(cksum := HeaderChecksum(d.header))) + d.payload
  }

  /** The header parser's own result is not looked at. */
  function Finish(r: Parsed): (ParseResult, Datagram) {
    var d := Datagram(r.header, r.parser.buf);
    (if |d.payload| != PayloadLength(d.header) then PacketTooShort else r.parser.error, d)
  }

  function Parse(bytes: seq<Byte>): (ParseResult, Datagram) { Finish(ParseHeader(Parser(bytes, NoError))) }

  /** What the datagram adds to the checksum of the segment inside it. */
  function PseudoChecksum(h: IPv4Header): (sum: u32)
    ensures sum < 0x100_0000
  {
    h.src / U16 + h.src % U16 + h.dst / U16 + h.dst % U16 + h.proto + PayloadLength(h)
  }

  /** The twelve bytes of which the pseudo-header consists: addresses, zero, protocol, payload length. */
  function PseudoHeader(h: IPv4Header): seq<Byte> {
    BigEndian(h.src, 4) + (BigEndian(h.dst, 4) + (BigEndian(h.proto, 2) + BigEndian(PayloadLength(h), 2)))
  }

  lemma SumFour(v: u32, rest: seq<Byte>)
    ensures Sum(BigEndian(v, 4) + rest, false) == v / U16 + v % U16 + Sum(rest, false)
  {
    var hi, lo := v / U16, v % U16;
    assert v / 256 / 256 == hi && v / 256 % 256 == lo / 256 && v % 256 == lo % 256;
    assert BigEndian(lo, 2) == BigEndian(lo / 256, 1) + [lo % 256] == [lo / 256, lo % 256];
    assert BigEndian(v, 4) == BigEndian(hi, 2) + BigEndian(lo, 2);
    assert BigEndian(v, 4) + rest == BigEndian(hi, 2) + (BigEndian(lo, 2) + rest);
    SumTwo(hi, BigEndian(lo, 2) + rest);
    SumTwo(lo, rest);
  }

  /** Starting a checksum from this sum is the same as running it over the pseudo-header first. */
  lemma PseudoHeaderSum(h: IPv4Header)
    ensures PseudoChecksum(h) == Sum(PseudoHeader(h), false)
  {
    var len := BigEndian(PayloadLength(h), 2);
    SumFour(h.src, BigEndian(h.dst, 4) + (BigEndian(h.proto, 2) + len));
    SumFour(h.dst, BigEndian(h.proto, 2) + len);
    SumTwo(h.proto, len);
    SumTwo(PayloadLength(h), []);
    assert len + [] == len;
  }

  // ---------- Round trip ----------

  lemma FrontBack(b0: Byte, tos: Byte, len: u16, id: u16, fo: u16, rest: seq<Byte>)
    ensures ParseFront(Parser(Front(b0, tos, len, id, fo, rest), NoError))
         == FrontParsed(b0, tos, len, id, fo, Parser(rest, NoError))
  {
    Bases();
    var r4 := BigEndian(fo, 2) + rest;
    var r3 := BigEndian(id, 2) + r4;
    var r2 := BigEndian(len, 2) + r3;
    var r1 := BigEndian(tos, 1) + r2;
    TakeBack(b0, 1, r1);
    TakeBack(tos, 1, r2);
    TakeBack(len, 2, r3);
    TakeBack(id, 2, r4);
    TakeBack(fo, 2, rest);
  }

  lemma BackBack(ttl: Byte, proto: Byte, cksum: u16, src: u32, dst: u32, rest: seq<Byte>)
    ensures ParseBack(Parser(Back(ttl, proto, cksum, src, dst, rest), NoError))
         == BackParsed(ttl, proto, cksum, src, dst, Parser(rest, NoError))
  {
    Bases();
    var r4 := BigEndian(dst, 4) + rest;
    var r3 := BigEndian(src, 4) + r4;
    var r2 := BigEndian(cksum, 2) + r3;
    var r1 := BigEndian(proto, 1) + r2;
    TakeBack(ttl, 1, r1);
    TakeBack(proto, 1, r2);
    TakeBack(cksum, 2, r3);
    TakeBack(src, 4, r4);
    TakeBack(dst, 4, rest);
  }

  ghost predicate Carries(b0: Byte, fo: u16, h: IPv4Header)
  {
    && b0 / 16 == h.ver && b0 % 16 == h.hlen
    && (fo / 0x4000 % 2 == 1) == h.df && (fo / 0x2000 % 2 == 1) == h.mf && fo % 0x2000 == h.offset
  }

  lemma PackedBack(h: IPv4Header)
    requires h.ver == 4 && h.hlen <= 15 && h.offset < 0x2000
    ensures Carries(FirstByte(h), Fragment(h), h)
  {
  }

  lemma BytesBack(h: IPv4Header, b0: Byte, fo: u16, rest: seq<Byte>) returns (r: Parsed)
    requires Carries(b0, fo, h)
    ensures var bytes := Front(b0, h.tos, h.len, h.id, fo, Back(h.ttl, h.proto, h.cksum, h.src, h.dst, rest));
      && r == ParseHeader(Parser(bytes, NoError)) && |bytes| == LENGTH + |rest|
      && r == CheckHeader(h, Parser(rest, NoError), bytes)
  {
    var back := Back(h.ttl, h.proto, h.cksum, h.src, h.dst, rest);
    FrontBack(b0, h.tos, h.len, h.id, fo, back);
    BackBack(h.ttl, h.proto, h.cksum, h.src, h.dst, rest);
    r := CheckHeader(h, Parser(rest, NoError), Front(b0, h.tos, h.len, h.id, fo, back));
  }

  lemma FieldsAppend(h: IPv4Header, rest: seq<Byte>, more: seq<Byte>)
    ensures Fields(h, rest) + more == Fields(h, rest + more)
    ensures |Fields(h, rest)| == LENGTH + |rest|
  {
  }

  // ---------- The checksum of a header ----------

  /** The bytes in front of the checksum field. */
  function Before(h: IPv4Header): seq<Byte> {
    Front(FirstByte(h), h.tos, h.len, h.id, Fragment(h), BigEndian(h.ttl, 1) + BigEndian(h.proto, 1))
  }

  function Behind(h: IPv4Header, rest: seq<Byte>): seq<Byte> { BigEndian(h.src, 4) + (BigEndian(h.dst, 4) + rest) }

  lemma FieldsSplit(h: IPv4Header, rest: seq<Byte>)
    ensures Fields(h, rest) == Before(h) + (BigEndian(h.cksum, 2) + Behind(h, rest)) && |Before(h)| == 10
  {
  }

  lemma SumFields(h: IPv4Header, c: u16, rest: seq<Byte>)
    ensures Sum(Fields(h.(cksum := c), rest), false) == Sum(Fields(h.(cksum := 0), rest), false) + c
  {
    forall x: u16
      ensures Sum(Fields(h.(cksum := x), rest), false) == Sum(Before(h), false) + x + Sum(Behind(h, rest), false)
    {
      FieldsSplit(h.(cksum := x), rest);
      assert Before(h.(cksum := x)) == Before(h);
      SumEvenPrefix(Before(h), BigEndian(x, 2) + Behind(h, rest));
      SumTwo(x, Behind(h, rest));
    }
  }

  lemma HeaderChecksumZero(h: IPv4Header)
    requires h.ver == 4 && 5 <= h.hlen <= 15
    ensures var bytes := SerializeHeader(h.(cksum := HeaderChecksum(h)));
      Checksum(0, bytes) == 0 && |bytes| == 4 * h.hlen
  {
    var c := HeaderChecksum(h);
    var zeros := Zeros(4 * h.hlen - LENGTH);
    FieldsAppend(h.(cksum := 0), zeros, []);
    FieldsAppend(h.(cksum := c), zeros, []);
    SumFields(h, c, zeros);
    CompletedChecksum(0, SerializeHeader(h.(cksum := 0)), SerializeHeader(h.(cksum := c)));
  }

  lemma SerializeBytes(d: Datagram, h: IPv4Header) returns (rest: seq<Byte>)
    requires WellFormed(d) && h == d.header.(cksum := HeaderChecksum(d.header))
    ensures Serialize(d) == Fields(h, rest) && |Serialize(d)| == h.len
    ensures |rest| == h.len - LENGTH && rest[4 * h.hlen - LENGTH..] == d.payload
    ensures Checksum(0, Serialize(d)[..4 * h.hlen]) == 0
  {
    var zeros := Zeros(4 * h.hlen - LENGTH);
    rest := zeros + d.payload;
    HeaderChecksumZero(d.header);
    FieldsAppend(h, zeros, d.payload);
    assert Serialize(d)[..4 * h.hlen] == SerializeHeader(h);
  }

  lemma HeaderBack(d: Datagram, h: IPv4Header) returns (r: Parsed)
    requires WellFormed(d) && h == d.header.(cksum := HeaderChecksum(d.header))
    ensures r == ParseHeader(Parser(Serialize(d), NoError))
    ensures r == Parsed(h, Parser(d.payload, NoError), NoError)
  {
    var rest := SerializeBytes(d, h);
    r := FieldsBack(h, rest, Serialize(d));
    ChecksPass(h, rest, Serialize(d), d.payload);
  }

  lemma FieldsBack(h: IPv4Header, rest: seq<Byte>, bytes: seq<Byte>) returns (r: Parsed)
    requires h.ver == 4 && h.hlen <= 15 && h.offset < 0x2000 && bytes == Fields(h, rest)
    ensures r == ParseHeader(Parser(bytes, NoError)) && r == CheckHeader(h, Parser(rest, NoError), bytes)
  {
    PackedBack(h);
    r := BytesBack(h, FirstByte(h), Fragment(h), rest);
  }

  lemma ChecksPass(h: IPv4Header, rest: seq<Byte>, bytes: seq<Byte>, payload: seq<Byte>)
    requires h.ver == 4 && h.hlen >= 5 && |bytes| == h.len && 4 * h.hlen <= h.len
    requires |rest| == h.len - LENGTH && rest[4 * h.hlen - LENGTH..] == payload
    requires Checksum(0, bytes[..4 * h.hlen]) == 0
    ensures CheckHeader(h, Parser(rest, NoError), bytes) == Parsed(h, Parser(payload, NoError), NoError)
  {
  }

  lemma ParsedBack(bytes: seq<Byte>, r: Parsed, h: IPv4Header, payload: seq<Byte>)
    requires r == ParseHeader(Parser(bytes, NoError))
    requires r == Parsed(h, Parser(payload, NoError), NoError) && |payload| == PayloadLength(h)
    ensures Parse(bytes) == (NoError, Datagram(h, payload)) && ParseHeader(Parser(bytes, NoError)).result == NoError
  {
  }

  /** Parsing what was serialized succeeds, header checks included, and returns every field but the checksum. */
  lemma RoundTrip(d: Datagram)
    requires WellFormed(d)
    ensures var d' := d.(header := d.header.(cksum := HeaderChecksum(d.header)));
      && Parse(Serialize(d)) == (NoError, d')
      && ParseHeader(Parser(Serialize(d), NoError)).result == NoError
  {
    assert |d.payload| == PayloadLength(d.header);
    var bytes := Serialize(d);
    var h := d.header.(cksum := HeaderChecksum(d.header));
    var r := HeaderBack(d, h);
    ParsedBack(bytes, r, h, d.payload);
  }

  // ---------- What is accepted ----------

  /** The fields that decide, read from their places. */
  function HlenAt(bytes: seq<Byte>): nat
    requires |bytes| >= LENGTH
  {
    bytes[0] % 16
  }

  function LenAt(bytes: seq<Byte>): nat
    requires |bytes| >= LENGTH
  {
    Word(bytes[2], bytes[3])
  }

  lemma FrontAt(bytes: seq<Byte>) returns (f: FrontParsed)
    requires |bytes| >= LENGTH
    ensures f == ParseFront(Parser(bytes, NoError))
    ensures f.b0 == bytes[0] && f.len == LenAt(bytes) && f.parser == Parser(bytes[8..], NoError)
  {
    assert bytes[0..] == bytes && bytes[0..1] == [bytes[0]] && bytes[2..4] == [bytes[2], bytes[3]];
    SkipSmall(bytes, 0, 1);
    SkipSmall(bytes, 1, 1);
    SkipSmall(bytes, 2, 2);
    SkipSmall(bytes, 4, 2);
    SkipSmall(bytes, 6, 2);
    ValueOne(bytes[0]);
    ValueTwo(bytes[2], bytes[3]);
    f := ParseFront(Parser(bytes, NoError));
  }

  lemma BackAt(bytes: seq<Byte>)
    requires |bytes| >= LENGTH
    ensures ParseBack(Parser(bytes[8..], NoError)).parser == Parser(bytes[20..], NoError)
  {
    SkipSmall(bytes, 8, 1);
    SkipSmall(bytes, 9, 1);
    SkipSmall(bytes, 10, 2);
    SkipSmall(bytes, 12, 4);
    SkipSmall(bytes, 16, 4);
  }

  /** The header's own checks on version and lengths. */
  predicate Shaped(bytes: seq<Byte>)
    requires |bytes| >= LENGTH
  {
    4 * HlenAt(bytes) <= |bytes| && bytes[0] / 16 == 4 && HlenAt(bytes) >= 5 && |bytes| == LenAt(bytes)
  }

  lemma HeaderAt(bytes: seq<Byte>) returns (r: Parsed)
    requires |bytes| >= LENGTH
    ensures r == ParseHeader(Parser(bytes, NoError))
    ensures r == CheckHeader(r.header, Parser(bytes[20..], NoError), bytes)
    ensures r.header.ver == bytes[0] / 16 && r.header.hlen == HlenAt(bytes) && r.header.len == LenAt(bytes)
  {
    var f := FrontAt(bytes);
    BackAt(bytes);
    r := ParseHeader(Parser(bytes, NoError));
  }

  lemma CheckHeaderCases(h: IPv4Header, bytes: seq<Byte>)
    requires |bytes| >= LENGTH && h.ver == bytes[0] / 16 && h.hlen == HlenAt(bytes) && h.len == LenAt(bytes)
    ensures var r := CheckHeader(h, Parser(bytes[20..], NoError), bytes);
      && r.parser == Parser(bytes[if Shaped(bytes) then 4 * h.hlen else 20..], NoError) && r.header == h
      && (Shaped(bytes) ==> r.result == if Checksum(0, bytes[..4 * h.hlen]) != 0 then BadChecksum else NoError)
  {
    if Shaped(bytes) {
      SkipSmall(bytes, 20, 4 * h.hlen - LENGTH);
    }
  }

  /**
   The header parser's verdict on version, lengths and checksum is ignored. So a datagram is accepted exactly if its
   header passes the checks on version and lengths, or the lengths happen to fit a header of twenty bytes.
   */
  lemma AcceptedIff(bytes: seq<Byte>)
    ensures Parse(bytes).0 == NoError <==>
      |bytes| >= LENGTH && (Shaped(bytes) || |bytes| - LENGTH == (LenAt(bytes) - 4 * HlenAt(bytes)) % U16)
  {
    if |bytes| >= LENGTH {
      LongAcceptedIff(bytes);
    } else {
      assert PayloadLength(DEFAULT) == 65516;
    }
  }

  lemma LongAcceptedIff(bytes: seq<Byte>)
    requires |bytes| >= LENGTH
    ensures Parse(bytes).0 == NoError <==>
      Shaped(bytes) || |bytes| - LENGTH == (LenAt(bytes) - 4 * HlenAt(bytes)) % U16
  {
    var r := HeaderAt(bytes);
    CheckHeaderCases(r.header, bytes);
    FinishIff(bytes, r);
    if Shaped(bytes) {
      ShapedLength(bytes);
    }
  }

  lemma FinishIff(bytes: seq<Byte>, r: Parsed)
    requires r == ParseHeader(Parser(bytes, NoError)) && r.parser.error == NoError
    ensures Parse(bytes).0 == NoError <==> |r.parser.buf| == (r.header.len - 4 * r.header.hlen) % U16
  {
  }

  lemma ShapedLength(bytes: seq<Byte>)
    requires |bytes| >= LENGTH && Shaped(bytes)
    ensures |bytes| - 4 * HlenAt(bytes) == (LenAt(bytes) - 4 * HlenAt(bytes)) % U16
  {
  }

  /** A corrupted header is accepted although its checksum is found to be wrong. */
  lemma HeaderCorruptionAccepted(d: Datagram, k: nat, b: Byte)
    requires WellFormed(d) && 4 <= k < 4 * d.header.hlen
    requires |Serialize(d)| > k && b != Serialize(d)[k]
    ensures var bytes := Serialize(d)[k := b];
      Parse(bytes).0 == NoError && ParseHeader(Parser(bytes, NoError)).result == BadChecksum
  {
    var bytes := Serialize(d);
    var h := d.header.(cksum := HeaderChecksum(d.header));
    var rest := SerializeBytes(d, h);
    var r0 := HeaderBack(d, h);
    var r1 := HeaderAt(bytes);
    CorruptedShape(bytes, k, b, h.hlen);
  }

  lemma CorruptedShape(bytes: seq<Byte>, k: nat, b: Byte, hlen: nat)
    requires |bytes| >= LENGTH && Shaped(bytes) && HlenAt(bytes) == hlen && 4 <= k < 4 * hlen && b != bytes[k]
    requires Checksum(0, bytes[..4 * hlen]) == 0
    ensures Parse(bytes[k := b]).0 == NoError && ParseHeader(Parser(bytes[k := b], NoError)).result == BadChecksum
  {
    var bytes' := bytes[k := b];
    assert Shaped(bytes');
    AcceptedIff(bytes');
    ByteChangeDetected(0, bytes[..4 * hlen], k, b);
    assert bytes'[..4 * hlen] == bytes[..4 * hlen][k := b];
    var r := HeaderAt(bytes');
    CheckHeaderCases(r.header, bytes');
  }

  // ---------- Step by step ----------

  method ReadFront(p: NetParser) returns (f: FrontParsed)
    modifies p
    ensures f == ParseFront(old(p.State())) && p.State() == f.parser
  {
    ghost var p0 := p.State();
    ghost var p1 := Skip(p0, 1);
    ghost var p2 := Skip(p1, 1);
    ghost var p3 := Skip(p2, 2);
    ghost var p4 := Skip(p3, 2);
    ValueFits(p0, 1);
    ValueFits(p1, 1);
    ValueFits(p2, 2);
    ValueFits(p3, 2);
    ValueFits(p4, 2);
    var b0 := p.ParseInt(1);
    var tos := p.ParseInt(1);
    var len := p.ParseInt(2);
    var id := p.ParseInt(2);
    var fo := p.ParseInt(2);
    f := FrontParsed(b0, tos, len, id, fo, Parser(p.buffer, p.error));
  }

  method ReadBack(p: NetParser) returns (b: BackParsed)
    modifies p
    ensures b == ParseBack(old(p.State())) && p.State() == b.parser
  {
    ghost var p0 := p.State();
    ghost var p1 := Skip(p0, 1);
    ghost var p2 := Skip(p1, 1);
    ghost var p3 := Skip(p2, 2);
    ghost var p4 := Skip(p3, 4);
    ValueFits(p0, 1);
    ValueFits(p1, 1);
    ValueFits(p2, 2);
    ValueFits(p3, 4);
    ValueFits(p4, 4);
    var ttl := p.ParseInt(1);
    var proto := p.ParseInt(1);
    var cksum := p.ParseInt(2);
    var src := p.ParseInt(4);
    var dst := p.ParseInt(4);
    b := BackParsed(ttl, proto, cksum, src, dst, Parser(p.buffer, p.error));
  }

  method CheckFields(h: IPv4Header, p: NetParser, bytes: seq<Byte>) returns (result: ParseResult)
    modifies p
    ensures Parsed(h, p.State(), result) == CheckHeader(h, old(p.State()), bytes)
  {
    if |bytes| < 4 * h.hlen {
      return PacketTooShort;
    }
    if h.ver != 4 {
      return WrongIPVersion;
    }
    if h.hlen < 5 {
      return HeaderTooShort;
    }
    if |bytes| != h.len {
      return TruncatedPacket;
    }
    p.RemovePrefix(h.hlen * 4 - LENGTH);
    if p.error != NoError {
      return p.error;
    }
    var value := ChecksumOf(0, bytes[..4 * h.hlen], []);
    assert bytes[..4 * h.hlen] + [] == bytes[..4 * h.hlen];
    if value != 0 {
      return BadChecksum;
    }
    return NoError;
  }

  /** Assigns the fields while consuming the parser, then checks them. */
  method ReadHeader(p: NetParser) returns (h: IPv4Header, result: ParseResult)
    modifies p
    ensures Parsed(h, p.State(), result) == ParseHeader(old(p.State()))
  {
    var original := p.buffer;
    if |original| < LENGTH {
      return DEFAULT, PacketTooShort;
    }
    var f := ReadFront(p);
    var b := ReadBack(p);
    h := Assemble(f, b);
    result := CheckFields(h, p, original);
  }

  /** Refuses a header of another version, or shorter than its fields. */
  method WriteHeader(h: IPv4Header) returns (res: Option<seq<Byte>>)
    ensures res == if h.ver == 4 && h.hlen >= 5 then Some(SerializeHeader(h)) else None
  {
    if h.ver != 4 || h.hlen < 5 {
      return None;
    }
    var ret := WriteFront(FirstByte(h), h.tos, h.len, h.id, Fragment(h));
    var back := WriteBack(h.ttl, h.proto, h.cksum, h.src, h.dst);
    ret := ret + back;
    FieldsJoin(h);
    ret := ret + Zeros(4 * h.hlen - |ret|);
    FieldsAppend(h, [], Zeros(4 * h.hlen - LENGTH));
    assert [] + Zeros(4 * h.hlen - LENGTH) == Zeros(4 * h.hlen - LENGTH);
    res := Some(ret);
  }

  method WriteFront(b0: Byte, tos: Byte, len: u16, id: u16, fo: u16) returns (ret: seq<Byte>)
    ensures ret == Front(b0, tos, len, id, fo, [])
  {
    ret := UnparseInt([], b0, 1);
    ret := UnparseInt(ret, tos, 1);
    ret := UnparseInt(ret, len, 2);
    ret := UnparseInt(ret, id, 2);
    ret := UnparseInt(ret, fo, 2);
  }

  method WriteBack(ttl: Byte, proto: Byte, cksum: u16, src: u32, dst: u32) returns (ret: seq<Byte>)
    ensures ret == Back(ttl, proto, cksum, src, dst, [])
  {
    ret := UnparseInt([], ttl, 1);
    ret := UnparseInt(ret, proto, 1);
    ret := UnparseInt(ret, cksum, 2);
    ret := UnparseInt(ret, src, 4);
    ret := UnparseInt(ret, dst, 4);
  }

  lemma FieldsJoin(h: IPv4Header)
    ensures Front(FirstByte(h), h.tos, h.len, h.id, Fragment(h), []) + Back(h.ttl, h.proto, h.cksum, h.src, h.dst, [])
         == Fields(h, [])
  {
  }

  /** Refuses a datagram whose header cannot be written or does not announce its payload's size. */
  method WriteDatagram(d: Datagram) returns (res: Option<seq<Byte>>)
    ensures res == if d.header.ver == 4 && d.header.hlen >= 5 && |d.payload| == PayloadLength(d.header)
                   then Some(Serialize(d)) else None
  {
    if |d.payload| != PayloadLength(d.header) {
      return None;
    }
    var headerOut := d.header.(cksum := 0);
    res := WriteHeader(headerOut);
    if res == None {
      return;
    }
    var cksum := ChecksumOf(0, res.value, []);
    assert res.value + [] == res.value;
    headerOut := headerOut.(cksum := cksum);
    res := WriteHeader(headerOut);
    res := Some(res.value + d.payload);
  }

  method ReadDatagram(bytes: seq<Byte>) returns (result: ParseResult, d: Datagram)
    ensures (result, d) == Parse(bytes)
  {
    var p := new NetParser(bytes);
    var h, _ := ReadHeader(p);
    d := Datagram(h, p.buffer);
    if |d.payload| != PayloadLength(h) {
      return PacketTooShort, d;
    }
    result := p.error;
  }
}
