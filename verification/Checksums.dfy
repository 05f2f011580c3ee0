/** The Internet checksum (section 1 of RFC 1071). */
module Checksums {
  import opened Wrapping

  const ONES: nat := 0xffff

  /** The sum of the 16-bit words of `data`; with `parity` the first byte is the low half of a word. */
  function Sum(data: seq<Byte>, parity: bool): nat {
    if data == [] then 0 else (if parity then data[0] else data[0] * 256) + Sum(data[1..], !parity)
  }

  /** Adding the carries back in until 16 bits are left. */
  function Fold(x: nat): nat {
    if x > ONES then Fold(x / U16 + x % U16) else x
  }

  function Checksum(initial: u32, data: seq<Byte>): u16 {
    FoldExact((initial + Sum(data, false)) % U32);
    ONES - Fold((initial + Sum(data, false)) % U32)
  }

  /** Folding is the remainder modulo 65535, with 65535 for zero unless the sum itself is zero. */
  lemma {:induction false} FoldExact(x: nat)
    ensures Fold(x) == if x == 0 then 0 else (x - 1) % ONES + 1
  {
    if x > ONES {
      var y := x / U16 + x % U16;
      FoldExact(y);
      assert x == y + ONES * (x / U16);
      assert (x - 1) % ONES == (y - 1) % ONES by { ModPlus(y - 1, x / U16); }
    }
  }

  lemma {:induction false} ModPlus(a: nat, k: nat)
    ensures (a + ONES * k) % ONES == a % ONES
  {
    if k > 0 {
      ModPlus(a, k - 1);
      assert (a + ONES * (k - 1) + ONES) % ONES == (a + ONES * (k - 1)) % ONES;
    }
  }

  lemma FoldIsOnesIff(x: nat)
    ensures Fold(x) == ONES <==> x > 0 && x % ONES == 0
  {
    FoldExact(x);
  }

  function Flip(parity: bool, n: nat): bool { if n % 2 == 0 then parity else !parity }

  lemma {:induction false} SumConcat(a: seq<Byte>, b: seq<Byte>, parity: bool)
    ensures Sum(a + b, parity) == Sum(a, parity) + Sum(b, Flip(parity, |a|))
  {
    if a == [] {
      assert a + b == b;
    } else {
      assert (a + b)[1..] == a[1..] + b;
      SumConcat(a[1..], b, !parity);
    }
  }

  lemma SumEvenPrefix(a: seq<Byte>, b: seq<Byte>)
    requires |a| % 2 == 0
    ensures Sum(a + b, false) == Sum(a, false) + Sum(b, false)
  {
    SumConcat(a, b, false);
  }

  lemma {:induction false} SumBound(data: seq<Byte>, parity: bool)
    ensures Sum(data, parity) <= 65280 * |data|
  {
    if data != [] {
      SumBound(data[1..], !parity);
    }
  }

  /** The checksum is zero exactly for a positive multiple of 65535, as long as the 32-bit sum does not overflow. */
  lemma ZeroIff(initial: u32, data: seq<Byte>)
    requires initial + 65280 * |data| < U32
    ensures var s := initial + Sum(data, false);
      Checksum(initial, data) == 0 <==> s > 0 && s % ONES == 0
  {
    var s := initial + Sum(data, false);
    SumBound(data, false);
    assert s % U32 == s;
    FoldIsOnesIff(s);
    assert Checksum(initial, data) == ONES - Fold(s);
  }

  /** Changing one byte changes the sum by its weight. */
  lemma {:induction false} SumUpdate(data: seq<Byte>, k: nat, b: Byte, parity: bool)
    requires k < |data|
    ensures Sum(data[k := b], parity) == Sum(data, parity) + (b - data[k]) * (if Flip(parity, k) then 1 else 256)
  {
    if k == 0 {
      assert data[0 := b][1..] == data[1..];
    } else {
      assert data[k := b][1..] == data[1..][k - 1 := b];
      SumUpdate(data[1..], k - 1, b, !parity);
    }
  }

  lemma MultiplesApart(s: nat, t: nat)
    requires s % ONES == 0 && t % ONES == 0 && s != t
    ensures Distance(s, t) >= ONES
  {
    assert s == ONES * (s / ONES) && t == ONES * (t / ONES);
  }

  /** No checksum error goes unnoticed if it is confined to a single byte. */
  lemma ByteChangeDetected(initial: u32, data: seq<Byte>, k: nat, b: Byte)
    requires initial + 65280 * |data| < U32 && k < |data| && b != data[k]
    requires Checksum(initial, data) == 0
    ensures Checksum(initial, data[k := b]) != 0
  {
    SumUpdate(data, k, b, false);
    ZeroIff(initial, data);
    ZeroIff(initial, data[k := b]);
    if Checksum(initial, data[k := b]) == 0 {
      MultiplesApart(initial + Sum(data, false), initial + Sum(data[k := b], false));
    }
  }

  function Word(hi: int, lo: int): int { hi * 256 + lo }

  lemma NextMultiple(s: nat, t: nat)
    requires s > 0 && s % ONES == 0 && Distance(s, t) <= ONES
    ensures t > 0 && t % ONES == 0 <==> t == s || t == s + ONES || (s == t + ONES && s > ONES)
  {
    if t % ONES == 0 && s != t {
      MultiplesApart(s, t);
    }
    if t == s + ONES {
      ModPlus(s, 1);
    } else if s == t + ONES {
      ModPlus(t, 1);
    }
  }

  lemma SumWordUpdate(data: seq<Byte>, k: nat, hi: Byte, lo: Byte)
    requires k % 2 == 0 && k + 1 < |data|
    ensures Sum(data[k := hi][k + 1 := lo], false) == Sum(data, false) + Word(hi, lo) - Word(data[k], data[k + 1])
  {
    SumUpdate(data, k, hi, false);
    SumUpdate(data[k := hi], k + 1, lo, false);
  }

  /** An error confined to one aligned word goes unnoticed only if it swaps 0x0000 and 0xffff. */
  lemma WordChangeUndetectedIff(initial: u32, data: seq<Byte>, k: nat, hi: Byte, lo: Byte)
    requires initial + 65280 * |data| < U32 && k % 2 == 0 && k + 1 < |data|
    requires Checksum(initial, data) == 0
    ensures var w := Word(data[k], data[k + 1]); var w' := Word(hi, lo);
      Checksum(initial, data[k := hi][k + 1 := lo]) == 0 <==>
      w' == w || (w == 0 && w' == ONES) || (w == ONES && w' == 0 && initial + Sum(data, false) > ONES)
  {
    var data' := data[k := hi][k + 1 := lo];
    SumWordUpdate(data, k, hi, lo);
    ZeroIff(initial, data);
    ZeroIff(initial, data');
    NextMultiple(initial + Sum(data, false), initial + Sum(data', false));
  }

  /** What completes a sum to a positive multiple of 65535. */
  lemma Completes(t: nat)
    ensures var c := ONES - Fold(t); t + c > 0 && (t + c) % ONES == 0
  {
    FoldExact(t);
    if t > 0 {
      var q := (t - 1) / ONES;
      assert t - 1 == ONES * q + (t - 1) % ONES;
      ModPlus(0, q + 1);
      assert t + (ONES - Fold(t)) == ONES * (q + 1);
    }
  }

  /** Bytes whose zero checksum field has been replaced by their checksum have the checksum zero. */
  lemma CompletedChecksum(initial: u32, zeroed: seq<Byte>, full: seq<Byte>)
    requires |zeroed| == |full| && initial + 65280 * |full| < U32
    requires Sum(full, false) == Sum(zeroed, false) + Checksum(initial, zeroed)
    ensures Checksum(initial, full) == 0
  {
    SumBound(zeroed, false);
    Completes(initial + Sum(zeroed, false));
    ZeroIff(initial, full);
  }

  // ---------- The checksum as an object ----------

  class InternetChecksum {
    var sum: u32
    var parity: bool

    constructor (initial: u32)
      ensures sum == initial && !parity
    {
      sum, parity := initial, false;
    }

    method Add(data: seq<Byte>)
      modifies this
      ensures sum == (old(sum) + Sum(data, old(parity))) % U32
      ensures parity == Flip(old(parity), |data|)
    {
      ghost var total: nat := sum;
      for i := 0 to |data|
        invariant sum == total % U32 && total + Sum(data[i..], parity) == old(sum) + Sum(data, old(parity))
        invariant parity == Flip(old(parity), i)
      {
        var val: nat := data[i];
        if !parity {
          val := val * 256;
        }
        assert data[i..][1..] == data[i + 1..];
        AddMod(total, val);
        sum := (sum + val) % U32;
        total := total + val;
        parity := !parity;
      }
    }

    method Value() returns (value: u16)
      ensures value == ONES - Fold(sum)
    {
      var ret: nat := sum;
      while ret > ONES
        invariant Fold(ret) == Fold(sum)
        decreases ret
      {
        ret := ret / U16 + ret % U16;
      }
      value := ONES - ret;
    }
  }

  /** Adding in two pieces is adding the whole. */
  method ChecksumOf(initial: u32, data: seq<Byte>, more: seq<Byte>) returns (value: u16)
    ensures value == Checksum(initial, data + more)
  {
    var check := new InternetChecksum(initial);
    check.Add(data);
    check.Add(more);
    SumConcat(data, more, false);
    AddMod(initial + Sum(data, false), Sum(more, Flip(false, |data|)));
    value := check.Value();
  }

  lemma AddMod(a: nat, b: nat)
    ensures (a % U32 + b) % U32 == (a + b) % U32
  {
  }
}
