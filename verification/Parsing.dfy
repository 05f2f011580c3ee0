/** Reading and writing integers in network byte order. */
module Parsing {
  import opened Wrapping
  import opened Checksums

  datatype ParseResult = NoError | BadChecksum | PacketTooShort | WrongIPVersion | HeaderTooShort | TruncatedPacket

  datatype Parser = Parser(buf: seq<Byte>, error: ParseResult)

  function Base(n: nat): nat { if n == 0 then 1 else 256 * Base(n - 1) }

  /** The value of big-endian bytes. */
  function Value(bytes: seq<Byte>): nat {
    if bytes == [] then 0 else Value(bytes[..|bytes|-1]) * 256 + bytes[|bytes|-1]
  }

  /** The low `n` bytes of `v`, highest first. */
  function BigEndian(v: nat, n: nat): (bytes: seq<Byte>)
    ensures |bytes| == n
  {
    if n == 0 then [] else BigEndian(v / 256, n - 1) + [v % 256]
  }

  lemma {:induction false} ValueBigEndian(v: nat, n: nat)
    requires v < Base(n)
    ensures Value(BigEndian(v, n)) == v
  {
    if n > 0 {
      ValueBigEndian(v / 256, n - 1);
      var bytes := BigEndian(v, n);
      assert bytes[..|bytes|-1] == BigEndian(v / 256, n - 1);
    }
  }

  lemma {:induction false} ValueBound(bytes: seq<Byte>)
    ensures Value(bytes) < Base(|bytes|)
  {
    if bytes != [] {
      ValueBound(bytes[..|bytes|-1]);
    }
  }

  /** Once there has been an error, nothing is read any more. */
  function Sized(p: Parser, n: nat): Parser { if n > |p.buf| then p.(error := PacketTooShort) else p }

  function Skip(p: Parser, n: nat): Parser {
    var p1 := Sized(p, n);
    if p1.error != NoError || n > |p.buf| then p1 else p1.(buf := p1.buf[n..])
  }

  function IntAt(p: Parser, n: nat): nat {
    if Sized(p, n).error != NoError || n > |p.buf| then 0 else Value(p.buf[..n])
  }

  function U8(p: Parser): Byte { var v := IntAt(p, 1); ValueFits(p, 1); v }

  function U16At(p: Parser): u16 { var v := IntAt(p, 2); ValueFits(p, 2); v }

  function U32At(p: Parser): u32 { var v := IntAt(p, 4); ValueFits(p, 4); v }

  lemma ValueFits(p: Parser, n: nat)
    ensures IntAt(p, n) < Base(n)
    ensures Base(1) == 0x100 && Base(2) == 0x1_0000 && Base(4) == 0x1_0000_0000
  {
    BasePositive(n);
    assert Base(4) == 256 * (256 * (256 * (256 * 1)));
    if n <= |p.buf| {
      ValueBound(p.buf[..n]);
    }
  }

  lemma {:induction false} BasePositive(n: nat)
    ensures Base(n) > 0
  {
    if n > 0 {
      BasePositive(n - 1);
    }
  }

  /** What was written comes back, and the parser stands behind it. */
  lemma TakeBack(v: nat, n: nat, rest: seq<Byte>)
    requires v < Base(n)
    ensures var p := Parser(BigEndian(v, n) + rest, NoError);
      IntAt(p, n) == v && Skip(p, n) == Parser(rest, NoError)
  {
    ValueBigEndian(v, n);
    var buf := BigEndian(v, n) + rest;
    assert buf[..n] == BigEndian(v, n) && buf[n..] == rest;
  }

  /** A two-byte field adds itself to the checksum. */
  lemma SumTwo(v: u16, rest: seq<Byte>)
    ensures Sum(BigEndian(v, 2) + rest, false) == v + Sum(rest, false)
  {
    var bytes := BigEndian(v, 2);
    assert BigEndian(v / 256, 1) == BigEndian(v / 256 / 256, 0) + [v / 256 % 256];
    assert bytes == [v / 256, v % 256];
    SumEvenPrefix(bytes, rest);
    assert bytes[1..] == [v % 256] && bytes[1..][1..] == [];
  }

  lemma Bases()
    ensures Base(1) == 0x100 && Base(2) == 0x1_0000 && Base(4) == 0x1_0000_0000
  {
    ValueFits(Parser([], NoError), 1);
  }

  lemma ValueOne(b: Byte)
    ensures Value([b]) == b
  {
    assert [b][..0] == [];
  }

  lemma ValueTwo(a: Byte, b: Byte)
    ensures Value([a, b]) == Word(a, b)
  {
    assert [a, b][..1] == [a];
    ValueOne(a);
  }

  /** Reading at position `k` of enough bytes. */
  lemma SkipSmall(bytes: seq<Byte>, k: nat, n: nat)
    requires k + n <= |bytes|
    ensures Skip(Parser(bytes[k..], NoError), n) == Parser(bytes[k + n..], NoError)
    ensures IntAt(Parser(bytes[k..], NoError), n) == Value(bytes[k..k + n])
  {
    assert bytes[k..][n..] == bytes[k + n..];
    assert bytes[k..][..n] == bytes[k..k + n];
  }

  function Zeros(n: nat): seq<Byte> { seq(n, _ => 0) }

  // ---------- The parser as an object ----------

  class NetParser {
    var buffer: seq<Byte>
    var error: ParseResult

    function State(): Parser
      reads this
    {
      Parser(buffer, error)
    }

    constructor (buffer: seq<Byte>)
      ensures State() == Parser(buffer, NoError)
    {
      this.buffer, this.error := buffer, NoError;
    }

    method CheckSize(size: nat)
      modifies this`error
      ensures State() == Sized(old(State()), size)
    {
      if size > |buffer| {
        error := PacketTooShort;
      }
    }

    method RemovePrefix(n: nat)
      modifies this
      ensures State() == Skip(old(State()), n)
    {
      CheckSize(n);
      if error != NoError {
        return;
      }
      buffer := buffer[n..];
    }

    method ParseInt(len: nat) returns (ret: nat)
      modifies this
      ensures ret == IntAt(old(State()), len)
      ensures State() == Skip(old(State()), len)
    {
      CheckSize(len);
      if error != NoError {
        return 0;
      }
      ret := 0;
      for i := 0 to len
        invariant ret == Value(buffer[..i])
      {
        assert buffer[..i + 1][..i] == buffer[..i];
        ret := ret * 256 + buffer[i];
      }
      buffer := buffer[len..];
    }
  }

  /** Writing: the bytes from the highest down. */
  method UnparseInt(s: seq<Byte>, val: nat, len: nat) returns (ret: seq<Byte>)
    ensures ret == s + BigEndian(val, len)
  {
    ret := s;
    for i := 0 to len
      invariant ret == s + BigEndian(Shifted(val, len - i), i)
    {
      var theByte := Shifted(val, len - i - 1) % 256;
      ShiftedStep(val, len - i - 1);
      ret := ret + [theByte];
    }
  }

  /** `val` shifted right by `n` bytes. */
  function Shifted(val: nat, n: nat): nat { if n == 0 then val else Shifted(val / 256, n - 1) }

  lemma {:induction false} ShiftedStep(val: nat, n: nat)
    ensures Shifted(val, n + 1) == Shifted(val, n) / 256
  {
    if n > 0 {
      ShiftedStep(val / 256, n - 1);
    }
  }
}
