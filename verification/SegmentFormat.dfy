/** The wire format of TCP segments (section 3.1 of RFC 793). */
module SegmentFormat {
  import opened Wrappers
  import opened Wrapping
  import opened Segments
  import opened Checksums
  import opened Parsing

  const LENGTH: nat := 20

  function Flag(b: bool, weight: nat): nat { if b then weight else 0 }

  function Flags(h: Header): Byte {
    Flag(h.urg, 32) + Flag(h.ack, 16) + Flag(h.psh, 8) + Flag(h.rst, 4) + Flag(h.syn, 2) + Flag(h.fin, 1)
  }

  predicate IsSet(flags: Byte, weight: nat)
    requires weight > 0
  {
    flags / weight % 2 == 1
  }

  /** The twenty bytes of the fields, then `rest`. */
  function Fields(h: Header, rest: seq<Byte>): seq<Byte> {
    Front(h.sport, h.dport, h.seqno, h.ackno, Back(h.doff * 16 % 256, Flags(h), h.win, h.cksum, h.uptr, rest))
  }

  function Front(sport: u16, dport: u16, seqno: u32, ackno: u32, rest: seq<Byte>): seq<Byte> {
    BigEndian(sport, 2) + (BigEndian(dport, 2) + (BigEndian(seqno, 4) + (BigEndian(ackno, 4) + rest)))
  }

  function Back(doffByte: Byte, flags: Byte, win: u16, cksum: u16, uptr: u16, rest: seq<Byte>): seq<Byte> {
    BigEndian(doffByte, 1) + (BigEndian(flags, 1) + (BigEndian(win, 2) +
    (BigEndian(cksum, 2) + (BigEndian(uptr, 2) + rest))))
  }

  function SerializeHeader(h: Header): seq<Byte>
    requires h.doff >= 5
  {
    Fields(h, Zeros(4 * h.doff - LENGTH))
  }

  datatype FrontParsed = FrontParsed(sport: u16, dport: u16, seqno: u32, ackno: u32, parser: Parser)

  function ParseFront(p0: Parser): FrontParsed {
    var p1 := Skip(p0, 2);
    var p2 := Skip(p1, 2);
    var p3 := Skip(p2, 4);
    FrontParsed(U16At(p0), U16At(p1), U32At(p2), U32At(p3), Skip(p3, 4))
  }

  datatype BackParsed = BackParsed(doffByte: Byte, flags: Byte, win: u16, cksum: u16, uptr: u16, parser: Parser)

  function ParseBack(p0: Parser): BackParsed {
    var p1 := Skip(p0, 1);
    var p2 := Skip(p1, 1);
    var p3 := Skip(p2, 2);
    var p4 := Skip(p3, 2);
    BackParsed(U8(p0), U8(p1), U16At(p2), U16At(p3), U16At(p4), Skip(p4, 2))
  }

  datatype Parsed = Parsed(header: Header, parser: Parser, result: ParseResult)

  function Assemble(f: FrontParsed, b: BackParsed): Parsed {
    var doff, fl := b.doffByte / 16, b.flags;
    var h := Header(f.sport, f.dport, f.seqno, f.ackno, doff,
                    IsSet(fl, 32), IsSet(fl, 16), IsSet(fl, 8), IsSet(fl, 4), IsSet(fl, 2), IsSet(fl, 1),
                    b.win, b.cksum, b.uptr);
    if doff < 5 then Parsed(h, b.parser, HeaderTooShort)
    else var p := Skip(b.parser, doff * 4 - LENGTH); Parsed(h, p, p.error)
  }

  function ParseHeader(p: Parser): Parsed {
    var f := ParseFront(p);
    Assemble(f, ParseBack(f.parser))
  }

  // ---------- Segments ----------

  /** The checksum is taken over the whole segment with a zero in its place. */
  function SegmentChecksum(seg: Segment, pseudo: u32): u16
    requires seg.header.doff >= 5
  {
    Checksum(pseudo, SerializeHeader(seg.header.(cksum := 0)) + seg.payload)
  }

  function Serialize(seg: Segment, pseudo: u32): seq<Byte>
    requires seg.header.doff >= 5
  {
    SerializeHeader(seg.header.(cksum := SegmentChecksum(seg, pseudo))) + seg.payload
  }

  /** The header parser's own result is not looked at: only the state of the parser is. */
  function Parse(bytes: seq<Byte>, pseudo: u32): (ParseResult, Segment) {
    if Checksum(pseudo, bytes) != 0 then (BadChecksum, Segment(BLANK, [])) else
    var r := ParseHeader(Parser(bytes, NoError));
    (r.parser.error, Segment(r.header, r.parser.buf))
  }

  // ---------- Round trip ----------

  ghost predicate Carries(fl: Byte, h: Header)
  {
    && IsSet(fl, 32) == h.urg && IsSet(fl, 16) == h.ack && IsSet(fl, 8) == h.psh
    && IsSet(fl, 4) == h.rst && IsSet(fl, 2) == h.syn && IsSet(fl, 1) == h.fin
  }

  lemma FlagsBack(h: Header)
    ensures Carries(Flags(h), h)
  {
  }

  lemma FrontBack(sport: u16, dport: u16, seqno: u32, ackno: u32, rest: seq<Byte>)
    ensures ParseFront(Parser(Front(sport, dport, seqno, ackno, rest), NoError))
         == FrontParsed(sport, dport, seqno, ackno, Parser(rest, NoError))
  {
    Bases();
    var r3 := BigEndian(ackno, 4) + rest;
    var r2 := BigEndian(seqno, 4) + r3;
    var r1 := BigEndian(dport, 2) + r2;
    TakeBack(sport, 2, r1);
    TakeBack(dport, 2, r2);
    TakeBack(seqno, 4, r3);
    TakeBack(ackno, 4, rest);
  }

  lemma BackBack(doffByte: Byte, flags: Byte, win: u16, cksum: u16, uptr: u16, rest: seq<Byte>)
    ensures ParseBack(Parser(Back(doffByte, flags, win, cksum, uptr, rest), NoError))
         == BackParsed(doffByte, flags, win, cksum, uptr, Parser(rest, NoError))
  {
    Bases();
    var r4 := BigEndian(uptr, 2) + rest;
    var r3 := BigEndian(cksum, 2) + r4;
    var r2 := BigEndian(win, 2) + r3;
    var r1 := BigEndian(flags, 1) + r2;
    TakeBack(doffByte, 1, r1);
    TakeBack(flags, 1, r2);
    TakeBack(win, 2, r3);
    TakeBack(cksum, 2, r4);
    TakeBack(uptr, 2, rest);
  }

  lemma AssembleBack(h: Header, f: FrontParsed, b: BackParsed)
    requires h.doff >= 5 && b.doffByte / 16 == h.doff && Carries(b.flags, h)
    requires f == FrontParsed(h.sport, h.dport, h.seqno, h.ackno, f.parser)
    requires b == BackParsed(b.doffByte, b.flags, h.win, h.cksum, h.uptr, b.parser)
    ensures Assemble(f, b).header == h && Assemble(f, b).parser == Skip(b.parser, h.doff * 4 - LENGTH)
  {
  }

  lemma BytesBack(h: Header, d: Byte, fl: Byte, rest: seq<Byte>) returns (r: Parsed)
    requires h.doff >= 5 && d / 16 == h.doff && Carries(fl, h)
    ensures var bytes := Front(h.sport, h.dport, h.seqno, h.ackno, Back(d, fl, h.win, h.cksum, h.uptr, rest));
      r == ParseHeader(Parser(bytes, NoError))
    ensures r.header == h && r.parser == Skip(Parser(rest, NoError), h.doff * 4 - LENGTH)
  {
    var back := Back(d, fl, h.win, h.cksum, h.uptr, rest);
    FrontBack(h.sport, h.dport, h.seqno, h.ackno, back);
    BackBack(d, fl, h.win, h.cksum, h.uptr, rest);
    var f := FrontParsed(h.sport, h.dport, h.seqno, h.ackno, Parser(back, NoError));
    var b := BackParsed(d, fl, h.win, h.cksum, h.uptr, Parser(rest, NoError));
    AssembleBack(h, f, b);
    r := Assemble(f, b);
  }

  /** Parsing undoes writing, field by field, and skips the rest of the header. */
  lemma FieldsBack(h: Header, rest: seq<Byte>) returns (r: Parsed)
    requires 5 <= h.doff <= 15
    ensures r == ParseHeader(Parser(Fields(h, rest), NoError))
    ensures r.header == h && r.parser == Skip(Parser(rest, NoError), h.doff * 4 - LENGTH)
  {
    FlagsBack(h);
    r := BytesBack(h, h.doff * 16 % 256, Flags(h), rest);
  }

  lemma FieldsAppend(h: Header, rest: seq<Byte>, more: seq<Byte>)
    ensures Fields(h, rest) + more == Fields(h, rest + more)
    ensures |Fields(h, rest)| == LENGTH + |rest|
  {
  }

  // ---------- The checksum of a segment ----------

  lemma SumBackIs(d: Byte, fl: Byte, win: u16, c: u16, uptr: u16, rest: seq<Byte>)
    ensures Sum(Back(d, fl, win, c, uptr, rest), false)
         == Sum(BigEndian(d, 1) + BigEndian(fl, 1), false) + win + c + Sum(BigEndian(uptr, 2) + rest, false)
  {
    var r3 := BigEndian(uptr, 2) + rest;
    var r2 := BigEndian(c, 2) + r3;
    var r1 := BigEndian(win, 2) + r2;
    SumTwo(c, r3);
    SumTwo(win, r2);
    SumTwoBytes(d, fl, r1);
  }

  lemma SumTwoBytes(d: Byte, fl: Byte, rest: seq<Byte>)
    ensures Sum(BigEndian(d, 1) + (BigEndian(fl, 1) + rest), false)
         == Sum(BigEndian(d, 1) + BigEndian(fl, 1), false) + Sum(rest, false)
  {
    var two := BigEndian(d, 1) + BigEndian(fl, 1);
    SumEvenPrefix(two, rest);
    assert BigEndian(d, 1) + (BigEndian(fl, 1) + rest) == two + rest;
  }

  lemma SumBack(d: Byte, fl: Byte, win: u16, c: u16, uptr: u16, rest: seq<Byte>)
    ensures Sum(Back(d, fl, win, c, uptr, rest), false) == Sum(Back(d, fl, win, 0, uptr, rest), false) + c
  {
    SumBackIs(d, fl, win, c, uptr, rest);
    SumBackIs(d, fl, win, 0, uptr, rest);
  }

  lemma SumFront(sport: u16, dport: u16, seqno: u32, ackno: u32, rest: seq<Byte>)
    ensures Sum(Front(sport, dport, seqno, ackno, rest), false)
         == Sum(Front(sport, dport, seqno, ackno, []), false) + Sum(rest, false)
  {
    SumEvenPrefix(Front(sport, dport, seqno, ackno, []), rest);
    assert Front(sport, dport, seqno, ackno, []) + rest == Front(sport, dport, seqno, ackno, rest);
  }

  /** The checksum field sits at an even offset, so it adds itself to the sum. */
  lemma SumFields(h: Header, c: u16, rest: seq<Byte>)
    ensures Sum(Fields(h.(cksum := c), rest), false) == Sum(Fields(h.(cksum := 0), rest), false) + c
  {
    var d, fl := h.doff * 16 % 256, Flags(h);
    assert Flags(h.(cksum := c)) == fl && Flags(h.(cksum := 0)) == fl;
    SumFront(h.sport, h.dport, h.seqno, h.ackno, Back(d, fl, h.win, c, h.uptr, rest));
    SumFront(h.sport, h.dport, h.seqno, h.ackno, Back(d, fl, h.win, 0, h.uptr, rest));
    SumBack(d, fl, h.win, c, h.uptr, rest);
  }

  /** Fits an IPv4 datagram, with a pseudo-header sum, without overflowing the 32-bit sum. */
  ghost predicate Small(seg: Segment, pseudo: u32)
  {
    4 * seg.header.doff + |seg.payload| < U16 && pseudo < 0x100_0000
  }

  lemma SerializeBytes(seg: Segment, c: u16) returns (rest: seq<Byte>)
    requires seg.header.doff >= 5
    ensures rest == Zeros(4 * seg.header.doff - LENGTH) + seg.payload
    ensures SerializeHeader(seg.header.(cksum := c)) + seg.payload == Fields(seg.header.(cksum := c), rest)
    ensures |Fields(seg.header.(cksum := c), rest)| == 4 * seg.header.doff + |seg.payload|
  {
    rest := Zeros(4 * seg.header.doff - LENGTH) + seg.payload;
    FieldsAppend(seg.header.(cksum := c), Zeros(4 * seg.header.doff - LENGTH), seg.payload);
    FieldsAppend(seg.header.(cksum := c), rest, []);
  }

  lemma SerializedChecksum(seg: Segment, pseudo: u32)
    requires seg.header.doff >= 5 && Small(seg, pseudo)
    ensures Checksum(pseudo, Serialize(seg, pseudo)) == 0
    ensures pseudo + 65280 * |Serialize(seg, pseudo)| < U32
  {
    var c := SegmentChecksum(seg, pseudo);
    var rest := SerializeBytes(seg, 0);
    var rest' := SerializeBytes(seg, c);
    SumFields(seg.header, c, rest);
    CompletedChecksum(pseudo, Fields(seg.header.(cksum := 0), rest), Fields(seg.header.(cksum := c), rest));
  }

  /** Parsing what was serialized succeeds and returns every field but the recomputed checksum. */
  lemma RoundTrip(seg: Segment, pseudo: u32)
    requires 5 <= seg.header.doff <= 15 && Small(seg, pseudo)
    ensures Parse(Serialize(seg, pseudo), pseudo)
         == (NoError, seg.(header := seg.header.(cksum := SegmentChecksum(seg, pseudo))))
  {
    var bytes := Serialize(seg, pseudo);
    var h := seg.header.(cksum := SegmentChecksum(seg, pseudo));
    SerializedChecksum(seg, pseudo);
    var r := HeaderBack(seg, h, bytes);
    ParsedBack(bytes, pseudo, r, h, seg.payload);
  }

  lemma HeaderBack(seg: Segment, h: Header, bytes: seq<Byte>) returns (r: Parsed)
    requires 5 <= h.doff <= 15 && h == seg.header.(cksum := h.cksum)
    requires bytes == SerializeHeader(h) + seg.payload
    ensures r == ParseHeader(Parser(bytes, NoError))
    ensures r.header == h && r.parser == Parser(seg.payload, NoError)
  {
    var rest := SerializeBytes(seg, h.cksum);
    r := FieldsBack(h, rest);
    assert rest[4 * h.doff - LENGTH..] == seg.payload;
  }

  lemma ParsedBack(bytes: seq<Byte>, pseudo: u32, r: Parsed, h: Header, payload: seq<Byte>)
    requires Checksum(pseudo, bytes) == 0 && r == ParseHeader(Parser(bytes, NoError))
    requires r.header == h && r.parser == Parser(payload, NoError)
    ensures Parse(bytes, pseudo) == (NoError, Segment(h, payload))
  {
  }

  /** Any change of a single byte of a serialized segment, and so of a single bit, is reported as a bad checksum. */
  lemma CorruptionDetected(seg: Segment, pseudo: u32, k: nat, b: Byte)
    requires seg.header.doff >= 5 && Small(seg, pseudo)
    requires k < |Serialize(seg, pseudo)| && b != Serialize(seg, pseudo)[k]
    ensures Parse(Serialize(seg, pseudo)[k := b], pseudo).0 == BadChecksum
  {
    SerializedChecksum(seg, pseudo);
    ByteChangeDetected(pseudo, Serialize(seg, pseudo), k, b);
  }

  // ---------- What is accepted ----------

  function DoffAt(bytes: seq<Byte>): nat
    requires |bytes| >= LENGTH
  {
    bytes[12] / 16
  }

  lemma FrontLeaves(bytes: seq<Byte>)
    requires |bytes| >= LENGTH
    ensures ParseFront(Parser(bytes, NoError)).parser == Parser(bytes[12..], NoError)
  {
    assert bytes[0..] == bytes;
    SkipSmall(bytes, 0, 2);
    SkipSmall(bytes, 2, 2);
    SkipSmall(bytes, 4, 4);
    SkipSmall(bytes, 8, 4);
  }

  lemma BackLeaves(bytes: seq<Byte>)
    requires |bytes| >= LENGTH
    ensures var b := ParseBack(Parser(bytes[12..], NoError));
      b.parser == Parser(bytes[20..], NoError) && b.doffByte == bytes[12]
  {
    assert bytes[12..13] == [bytes[12]];
    ValueOne(bytes[12]);
    SkipSmall(bytes, 12, 1);
    SkipSmall(bytes, 13, 1);
    SkipSmall(bytes, 14, 2);
    SkipSmall(bytes, 16, 2);
    SkipSmall(bytes, 18, 2);
  }

  /** The header parser's verdict, and what it leaves behind. */
  lemma LongHeader(bytes: seq<Byte>) returns (r: Parsed)
    requires |bytes| >= LENGTH
    ensures r == ParseHeader(Parser(bytes, NoError))
    ensures if DoffAt(bytes) < 5 then r.result == HeaderTooShort && r.parser == Parser(bytes[20..], NoError)
            else r.result == r.parser.error == if 4 * DoffAt(bytes) <= |bytes| then NoError else PacketTooShort
  {
    FrontLeaves(bytes);
    BackLeaves(bytes);
    r := ParseHeader(Parser(bytes, NoError));
    if 5 <= DoffAt(bytes) && 4 * DoffAt(bytes) <= |bytes| {
      SkipSmall(bytes, 20, 4 * DoffAt(bytes) - LENGTH);
    }
  }

  lemma SkipCounts(p: Parser, n: nat)
    ensures Skip(p, n).error == NoError <==> p.error == NoError && n <= |p.buf|
    ensures Skip(p, n).error == NoError ==> |Skip(p, n).buf| == |p.buf| - n
  {
  }

  lemma FrontCounts(p: Parser)
    ensures var q := ParseFront(p).parser;
      q.error == NoError ==> p.error == NoError && |q.buf| == |p.buf| - 12
  {
    SkipCounts(p, 2);
    SkipCounts(Skip(p, 2), 2);
    SkipCounts(Skip(Skip(p, 2), 2), 4);
    SkipCounts(Skip(Skip(Skip(p, 2), 2), 4), 4);
  }

  lemma BackCounts(p: Parser)
    ensures var q := ParseBack(p).parser;
      q.error == NoError ==> p.error == NoError && |p.buf| >= 8
  {
    var p1 := Skip(p, 1);
    var p2 := Skip(p1, 1);
    var p3 := Skip(p2, 2);
    SkipCounts(p, 1);
    SkipCounts(p1, 1);
    SkipCounts(p2, 2);
    SkipCounts(p3, 2);
    SkipCounts(Skip(p3, 2), 2);
  }

  lemma ShortHeader(bytes: seq<Byte>)
    requires |bytes| < LENGTH
    ensures ParseHeader(Parser(bytes, NoError)).parser.error != NoError
  {
    var f := ParseFront(Parser(bytes, NoError));
    FrontCounts(Parser(bytes, NoError));
    BackCounts(f.parser);
    var b := ParseBack(f.parser);
    if b.doffByte / 16 >= 5 {
      SkipCounts(b.parser, b.doffByte / 16 * 4 - LENGTH);
    }
  }

  /**
   The header parser's verdict is ignored, and a data offset that is too small leaves the parser without an error. So
   a segment is accepted exactly if its checksum is right and it has a header's twenty bytes and, unless the offset is
   too small, as many as that announces.
   */
  lemma AcceptedIff(bytes: seq<Byte>, pseudo: u32)
    ensures Parse(bytes, pseudo).0 == NoError <==>
      && Checksum(pseudo, bytes) == 0 && |bytes| >= LENGTH
      && (DoffAt(bytes) < 5 || 4 * DoffAt(bytes) <= |bytes|)
  {
    if |bytes| >= LENGTH {
      var r := LongHeader(bytes);
    } else {
      ShortHeader(bytes);
    }
  }

  /** So a header that is too short is accepted as if it had twenty bytes, */
  lemma ShortOffsetAccepted(bytes: seq<Byte>, pseudo: u32)
    requires Checksum(pseudo, bytes) == 0 && |bytes| >= LENGTH && DoffAt(bytes) < 5
    ensures Parse(bytes, pseudo).0 == NoError && Parse(bytes, pseudo).1.payload == bytes[20..]
    ensures ParseHeader(Parser(bytes, NoError)).result == HeaderTooShort
  {
    var r := LongHeader(bytes);
  }

  lemma {:induction false} SumZeros(n: nat, parity: bool)
    ensures Sum(Zeros(n), parity) == 0
  {
    if n > 0 {
      assert Zeros(n)[1..] == Zeros(n - 1);
      SumZeros(n - 1, !parity);
    }
  }

  /** for instance one of twenty zeros, if its pseudo-header sums to 0xffff. */
  lemma ZerosAccepted()
    ensures Parse(Zeros(20), 0xffff).0 == NoError
    ensures ParseHeader(Parser(Zeros(20), NoError)).result == HeaderTooShort
  {
    SumZeros(20, false);
    assert Zeros(20)[12] == 0;
    ZeroIff(0xffff, Zeros(20));
    ShortOffsetAccepted(Zeros(20), 0xffff);
  }

  // ---------- Step by step ----------

  method ReadFront(p: NetParser) returns (f: FrontParsed)
    modifies p
    ensures f == ParseFront(old(p.State())) && p.State() == f.parser
  {
    ghost var p0 := p.State();
    ghost var p1, p2, p3 := Skip(p0, 2), Skip(Skip(p0, 2), 2), Skip(Skip(Skip(p0, 2), 2), 4);
    ValueFits(p0, 2);
    ValueFits(p1, 2);
    ValueFits(p2, 4);
    ValueFits(p3, 4);
    var sport := p.ParseInt(2);
    var dport := p.ParseInt(2);
    var seqno := p.ParseInt(4);
    var ackno := p.ParseInt(4);
    f := FrontParsed(sport, dport, seqno, ackno, Parser(p.buffer, p.error));
  }

  method ReadBack(p: NetParser) returns (b: BackParsed)
    modifies p
    ensures b == ParseBack(old(p.State())) && p.State() == b.parser
  {
    ghost var p0 := p.State();
    ghost var p1 := Skip(p0, 1);
    ghost var p2 := Skip(p1, 1);
    ghost var p3 := Skip(p2, 2);
    ghost var p4 := Skip(p3, 2);
    ValueFits(p0, 1);
    ValueFits(p1, 1);
    ValueFits(p2, 2);
    ValueFits(p3, 2);
    ValueFits(p4, 2);
    var doffByte := p.ParseInt(1);
    var flags := p.ParseInt(1);
    var win := p.ParseInt(2);
    var cksum := p.ParseInt(2);
    var uptr := p.ParseInt(2);
    b := BackParsed(doffByte, flags, win, cksum, uptr, Parser(p.buffer, p.error));
  }

  /** Assigns the fields while consuming the parser. */
  method ReadHeader(p: NetParser) returns (h: Header, result: ParseResult)
    modifies p
    ensures Parsed(h, p.State(), result) == ParseHeader(old(p.State()))
  {
    var f := ReadFront(p);
    var b := ReadBack(p);
    var doff, fl := b.doffByte / 16, b.flags;
    h := Header(f.sport, f.dport, f.seqno, f.ackno, doff,
                IsSet(fl, 32), IsSet(fl, 16), IsSet(fl, 8), IsSet(fl, 4), IsSet(fl, 2), IsSet(fl, 1),
                b.win, b.cksum, b.uptr);
    if doff < 5 {
      return h, HeaderTooShort;
    }
    p.RemovePrefix(doff * 4 - LENGTH);
    result := p.error;
  }

  method WriteFront(h: Header) returns (ret: seq<Byte>)
    ensures ret == Front(h.sport, h.dport, h.seqno, h.ackno, [])
  {
    ret := UnparseInt([], h.sport, 2);
    ret := UnparseInt(ret, h.dport, 2);
    ret := UnparseInt(ret, h.seqno, 4);
    ret := UnparseInt(ret, h.ackno, 4);
  }

  method WriteBack(d: Byte, fl: Byte, win: u16, cksum: u16, uptr: u16) returns (ret: seq<Byte>)
    ensures ret == Back(d, fl, win, cksum, uptr, [])
  {
    ret := UnparseInt([], d, 1);
    ret := UnparseInt(ret, fl, 1);
    ret := UnparseInt(ret, win, 2);
    ret := UnparseInt(ret, cksum, 2);
    ret := UnparseInt(ret, uptr, 2);
  }

  lemma FieldsSplit(h: Header)
    ensures Front(h.sport, h.dport, h.seqno, h.ackno, []) +
            Back(h.doff * 16 % 256, Flags(h), h.win, h.cksum, h.uptr, [])
         == Fields(h, [])
  {
  }

  /** Appends field after field, then zeros up to the advertised size. Refuses a header shorter than its fields. */
  method WriteHeader(h: Header) returns (res: Option<seq<Byte>>)
    ensures res == if h.doff >= 5 then Some(SerializeHeader(h)) else None
  {
    if h.doff < 5 {
      return None;
    }
    var ret := WriteFront(h);
    var back := WriteBack(h.doff * 16 % 256, Flags(h), h.win, h.cksum, h.uptr);
    ret := ret + back;
    FieldsSplit(h);
    ret := ret + Zeros(4 * h.doff - |ret|);
    FieldsAppend(h, [], Zeros(4 * h.doff - LENGTH));
    assert [] + Zeros(4 * h.doff - LENGTH) == Zeros(4 * h.doff - LENGTH);
    res := Some(ret);
  }

  method WriteSegment(seg: Segment, pseudo: u32) returns (res: Option<seq<Byte>>)
    ensures res == if seg.header.doff >= 5 then Some(Serialize(seg, pseudo)) else None
  {
    var headerOut := seg.header.(cksum := 0);
    res := WriteHeader(headerOut);
    if res == None {
      return;
    }
    var cksum := ChecksumOf(pseudo, res.value, seg.payload);
    headerOut := headerOut.(cksum := cksum);
    res := WriteHeader(headerOut);
    res := Some(res.value + seg.payload);
  }

  method ReadSegment(bytes: seq<Byte>, pseudo: u32) returns (result: ParseResult, seg: Segment)
    ensures (result, seg) == Parse(bytes, pseudo)
  {
    seg := Segment(BLANK, []);
    var value := ChecksumOf(pseudo, bytes, []);
    assert bytes + [] == bytes;
    if value != 0 {
      return BadChecksum, seg;
    }
    var p := new NetParser(bytes);
    var h, _ := ReadHeader(p);
    seg := Segment(h, p.buffer);
    result := p.error;
  }
}
