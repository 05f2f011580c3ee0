/**
 The 32-bit wrapping sequence numbers of TCP and their 64-bit absolute counterparts
 (section 3.3 of RFC 793).
 */
module Wrapping {

  const U16: nat := 0x1_0000
  const U32: nat := 0x1_0000_0000
  const U64: nat := 0x1_0000_0000_0000_0000
  const HALF: nat := 0x8000_0000

  type Byte = x: int | 0 <= x < 0x100
  type u16 = x: int | 0 <= x < 0x1_0000
  type u32 = x: int | 0 <= x < 0x1_0000_0000

  function Min(a: int, b: int): int { if a <= b then a else b }

  function Max(a: int, b: int): int { if a <= b then b else a }

  function Pow2(n: nat): nat { if n == 0 then 1 else 2 * Pow2(n - 1) }

  lemma {:induction false} Pow2Monotone(m: nat, n: nat)
    requires m <= n
    ensures Pow2(m) <= Pow2(n)
    decreases n - m
  {
    if m < n {
      Pow2Monotone(m, n - 1);
    }
  }

  /** The offset of `n` from `isn`, as 32-bit unsigned subtraction gives it. */
  function Offset(n: u32, isn: u32): u32 { (n - isn) % U32 }

  function Wrap(n: nat, isn: u32): u32 { (isn + n % U32) % U32 }

  /** Follows the 64-bit arithmetic; only the last sum can pass 2^64. */
  function Unwrap(n: u32, isn: u32, checkpoint: nat): nat
  {
    var mod0 := checkpoint % U32;
    var base0 := checkpoint - mod0;
    var shift := mod0 == 0 && base0 >= U32;
    var cpMod := if shift then mod0 + U32 else mod0;
    var cpBase := if shift then base0 - U32 else base0;
    var nMod := Offset(n, isn);
    if nMod > cpMod then
      if cpBase >= U32 && U32 - nMod + cpMod <= nMod - cpMod then cpBase - U32 + nMod
      else cpBase + nMod
    else if cpMod - nMod <= nMod + U32 - cpMod then cpBase + nMod
    else (cpBase + U32 + nMod) % U64
  }

  function Distance(a: int, b: int): nat { if a <= b then b - a else a - b }

  /** `v` is the non-negative number closest to `checkpoint` that wraps to `n`; of two, the lower. */
  ghost predicate IsNearest(v: nat, n: u32, isn: u32, checkpoint: nat)
  {
    && Wrap(v, isn) == n
    && forall w: nat | Wrap(w, isn) == n ::
         || Distance(v, checkpoint) < Distance(w, checkpoint)
         || (Distance(v, checkpoint) == Distance(w, checkpoint) && v <= w)
  }

  /** No value is more than half the ring below the checkpoint or, if a lower one exists, half the ring above. */
  ghost predicate WithinHalf(v: nat, checkpoint: nat)
  {
    checkpoint <= v + HALF && (v < checkpoint + HALF || v < U32)
  }

  lemma WrapNeighbours(v: nat, isn: u32)
    ensures Wrap(v + U32, isn) == Wrap(v, isn)
    ensures v >= U32 ==> Wrap(v - U32, isn) == Wrap(v, isn)
  {
    assert (v + U32) % U32 == v % U32;
    assert v >= U32 ==> (v - U32) % U32 == v % U32;
  }

  lemma SameWrapApart(v: nat, w: nat, isn: u32)
    requires Wrap(v, isn) == Wrap(w, isn)
    ensures w == v || w >= v + U32 || v >= w + U32
  {
    assert v % U32 == w % U32;
  }

  lemma NearestIffWithinHalf(v: nat, n: u32, isn: u32, checkpoint: nat)
    ensures IsNearest(v, n, isn, checkpoint) <==> Wrap(v, isn) == n && WithinHalf(v, checkpoint)
  {
    WrapNeighbours(v, isn);
    if Wrap(v, isn) == n && WithinHalf(v, checkpoint) {
      forall w: nat | Wrap(w, isn) == n
        ensures Distance(v, checkpoint) < Distance(w, checkpoint) ||
                (Distance(v, checkpoint) == Distance(w, checkpoint) && v <= w)
      {
        SameWrapApart(v, w, isn);
      }
    }
  }

  /** The checkpoints near 2^64 for which the last sum of `Unwrap` passes 2^64. */
  predicate Overflows(n: u32, isn: u32, checkpoint: nat)
  {
    checkpoint > U64 - U32 && checkpoint % U32 > Offset(n, isn) + HALF
  }

  lemma MultiplePlus(q: nat, n: u32)
    ensures (q * U32 + n) % U32 == n
  {
  }

  lemma ModU64(x: nat)
    ensures x % U64 % U32 == x % U32
  {
  }

  lemma UnwrapCongruent(n: u32, isn: u32, checkpoint: nat)
    ensures Wrap(Unwrap(n, isn, checkpoint), isn) == n
  {
    var q, o := checkpoint / U32, Offset(n, isn);
    assert checkpoint - checkpoint % U32 == q * U32;
    MultiplePlus(q, o);
    MultiplePlus(q + 1, o);
    ModU64(q * U32 + U32 + o);
    ModU64(q * U32 + o);
    if q >= 1 {
      MultiplePlus(q - 1, o);
    }
    if q >= 2 {
      MultiplePlus(q - 2, o);
    }
    assert Unwrap(n, isn, checkpoint) % U32 == o;
  }

  lemma UnwrapWithinHalf(n: u32, isn: u32, checkpoint: nat)
    requires checkpoint < U64
    ensures WithinHalf(Unwrap(n, isn, checkpoint), checkpoint) <==> !Overflows(n, isn, checkpoint)
    ensures checkpoint < U64 - HALF ==> !Overflows(n, isn, checkpoint)
    ensures Unwrap(n, isn, checkpoint) < U64
  {
    var q := checkpoint / U32;
    assert checkpoint == q * U32 + checkpoint % U32 && q < U32;
  }

  /** `Unwrap` is the nearest number that wraps to `n` exactly when its last sum stays below 2^64. */
  lemma UnwrapNearestIff(n: u32, isn: u32, checkpoint: nat)
    requires checkpoint < U64
    ensures IsNearest(Unwrap(n, isn, checkpoint), n, isn, checkpoint) <==> !Overflows(n, isn, checkpoint)
    ensures checkpoint < U64 - HALF ==> !Overflows(n, isn, checkpoint)
    ensures Unwrap(n, isn, checkpoint) < U64
  {
    UnwrapCongruent(n, isn, checkpoint);
    UnwrapWithinHalf(n, isn, checkpoint);
    NearestIffWithinHalf(Unwrap(n, isn, checkpoint), n, isn, checkpoint);
  }

  /** Near 2^64 the nearest number would not fit, and the result is far off: 0 for a checkpoint of 2^64 - 1. */
  lemma UnwrapOverflows(isn: u32)
    ensures Overflows(isn, isn, U64 - 1) && Unwrap(isn, isn, U64 - 1) == 0
    ensures !IsNearest(0, isn, isn, U64 - 1)
  {
    UnwrapNearestIff(isn, isn, U64 - 1);
  }

  /** Unwrapping undoes wrapping for exactly the numbers within half the ring of the checkpoint. */
  lemma UnwrapWrapIff(v: nat, isn: u32, checkpoint: nat)
    requires checkpoint < U64 - HALF
    ensures Unwrap(Wrap(v, isn), isn, checkpoint) == v <==> WithinHalf(v, checkpoint)
  {
    var n := Wrap(v, isn);
    UnwrapNearestIff(n, isn, checkpoint);
    NearestIffWithinHalf(v, n, isn, checkpoint);
  }

  lemma UnwrapWrap(v: nat, isn: u32, checkpoint: nat)
    requires checkpoint < U64 - HALF
    requires v < checkpoint + HALF && checkpoint <= v + HALF
    ensures Unwrap(Wrap(v, isn), isn, checkpoint) == v
  {
    UnwrapWrapIff(v, isn, checkpoint);
  }

  /** No number but the first wraps to the first, for a whole turn. */
  lemma WrapMoves(v: nat, isn: u32)
    requires 0 < v < U32
    ensures Wrap(v, isn) != isn
  {
  }

  /** Stepping a wrapped number back by one is wrapping the predecessor. */
  lemma WrapPredecessor(v: nat, isn: u32)
    requires v >= 1
    ensures (Wrap(v, isn) - 1) % U32 == Wrap(v - 1, isn)
  {
    assert v % U32 == 0 ==> (v - 1) % U32 == U32 - 1;
    assert v % U32 > 0 ==> (v - 1) % U32 == v % U32 - 1;
  }
}
