/** The 64-bit pattern masks of ac.c: bit p of a mask stands for pattern id p.
    Machine words are reasoned about one halving at a time; `hide` keeps the bit-level
    definitions out of every proof that does not need them. */
module PatternMasks {

  const MAX_BITMASK: nat := 64

  predicate Odd(m: bv64) { m & 1 == 1 }

  function Half(m: bv64): bv64 { m >> 1 }

  function Twice(m: bv64): bv64 { m << 1 }

  /** Bit `p` of `m` is set. */
  predicate Has(m: bv64, p: nat) {
    if p == 0 then Odd(m) else Has(Half(m), p - 1)
  }

  function Union(a: bv64, b: bv64): bv64 { a | b }

  function Without(a: bv64, b: bv64): bv64 { a & !b }

  /** The mask `1ULL << p`. */
  function PatternBit(p: nat): bv64 {
    if p == 0 then 1 else Twice(PatternBit(p - 1))
  }

  /** `__builtin_ctzll`: the number of the lowest set bit. */
  function LowestBit(m: bv64): nat
    requires m != 0
    decreases m
  {
    if Odd(m) then 0 else HalfSmaller(m); 1 + LowestBit(Half(m))
  }

  /** `b & (b - 1)`: the mask without its lowest set bit. */
  function ClearLowest(m: bv64): bv64 { m & (m - 1) }

  // Facts about one halving.

  lemma HalfSmaller(m: bv64)
    requires m != 0
    ensures Half(m) < m
    ensures !Odd(m) ==> Half(m) != 0
  {}

  lemma HalfOfZero()
    ensures Half(0) == 0 && !Odd(0)
    ensures Half(1) == 0 && Odd(1)
  {}

  lemma HalfUnion(a: bv64, b: bv64)
    ensures Half(Union(a, b)) == Union(Half(a), Half(b))
  {}

  lemma OddUnion(a: bv64, b: bv64)
    ensures Odd(Union(a, b)) <==> Odd(a) || Odd(b)
  {}

  lemma HalfWithout(a: bv64, b: bv64)
    ensures Half(Without(a, b)) == Without(Half(a), Half(b))
    ensures Odd(Without(a, b)) <==> Odd(a) && !Odd(b)
  {}

  lemma HalfClearLowest(m: bv64)
    ensures !Odd(ClearLowest(m))
    ensures Half(ClearLowest(m)) == if Odd(m) then Half(m) else ClearLowest(Half(m))
  {}

  lemma HalfTwice(m: bv64)
    ensures !Odd(Twice(m))
    ensures Half(Twice(m)) == m & 0x7FFF_FFFF_FFFF_FFFF
  {}

  function Drop4(m: bv64): bv64 { m >> 4 }

  function Drop16(m: bv64): bv64 { m >> 16 }

  lemma FourHalves(m: bv64)
    ensures Half(Half(Half(Half(m)))) == Drop4(m)
  {}

  lemma SixteenHalves(m: bv64)
    ensures Drop4(Drop4(Drop4(Drop4(m)))) == Drop16(m)
  {}

  lemma AllDropped(m: bv64)
    ensures Drop16(Drop16(Drop16(Drop16(m)))) == 0
    ensures Odd(Half(Half(Half(Drop4(Drop4(Drop4(Drop16(Drop16(Drop16(m))))))))))
            <==> m & 0x7FFF_FFFF_FFFF_FFFF != m
  {}

  // The meaning of the word operations, bit by bit.

  lemma {:induction false} HasZero(p: nat)
    ensures !Has(0, p)
  {
    hide Half, Odd;
    HalfOfZero();
    if p > 0 { HasZero(p - 1); }
  }

  lemma {:induction false} HasUnion(a: bv64, b: bv64, p: nat)
    ensures Has(Union(a, b), p) <==> Has(a, p) || Has(b, p)
    decreases p
  {
    hide Half, Odd, Union;
    HalfUnion(a, b);
    OddUnion(a, b);
    if p > 0 { HasUnion(Half(a), Half(b), p - 1); }
  }

  lemma {:induction false} HasWithout(a: bv64, b: bv64, p: nat)
    ensures Has(Without(a, b), p) <==> Has(a, p) && !Has(b, p)
    decreases p
  {
    hide Half, Odd, Without;
    HalfWithout(a, b);
    if p > 0 { HasWithout(Half(a), Half(b), p - 1); }
  }

  lemma HasFourUp(m: bv64, p: nat)
    ensures Has(m, p + 4) == Has(Drop4(m), p)
  {
    hide Half, Odd, Drop4;
    FourHalves(m);
    assert Has(m, p + 4) == Has(Half(m), p + 3) == Has(Half(Half(m)), p + 2);
    assert Has(Half(Half(m)), p + 2) == Has(Half(Half(Half(m))), p + 1);
  }

  lemma HasSixteenUp(m: bv64, p: nat)
    ensures Has(m, p + 16) == Has(Drop16(m), p)
  {
    hide Half, Odd, Drop4, Drop16, Has;
    SixteenHalves(m);
    HasFourUp(m, p + 12);
    HasFourUp(Drop4(m), p + 8);
    HasFourUp(Drop4(Drop4(m)), p + 4);
    HasFourUp(Drop4(Drop4(Drop4(m))), p);
  }

  /** Bit 63 is what one doubling would lose. */
  lemma TopBit(m: bv64)
    ensures Has(m, 63) <==> m & 0x7FFF_FFFF_FFFF_FFFF != m
  {
    hide Half, Odd, Drop4, Drop16, Has;
    AllDropped(m);
    HasSixteenUp(m, 47);
    HasSixteenUp(Drop16(m), 31);
    HasSixteenUp(Drop16(Drop16(m)), 15);
    var t := Drop16(Drop16(Drop16(m)));
    HasFourUp(t, 11);
    HasFourUp(Drop4(t), 7);
    HasFourUp(Drop4(Drop4(t)), 3);
    HasThree(Drop4(Drop4(Drop4(t))));
  }

  lemma HasThree(m: bv64)
    ensures Has(m, 3) == Odd(Half(Half(Half(m))))
  {
    hide Half, Odd;
    assert Has(m, 3) == Has(Half(m), 2) == Has(Half(Half(m)), 1) == Has(Half(Half(Half(m))), 0);
  }

  /** Below 64, `1 << q` has bit q and no other. */
  lemma {:induction false} HasPatternBit(q: nat, p: nat)
    requires q < MAX_BITMASK
    ensures Has(PatternBit(q), p) <==> p == q
    decreases q
  {
    hide Half, Odd, Twice;
    if q == 0 {
      HalfOfZero();
      if p > 0 { HasZero(p - 1); }
    } else {
      var m := PatternBit(q - 1);
      HasPatternBit(q - 1, 63);
      TopBit(m);
      HalfTwice(m);
      if p > 0 { HasPatternBit(q - 1, p - 1); }
    }
  }

  lemma LowestBitStep(m: bv64)
    requires m != 0
    ensures !Odd(m) ==> Half(m) != 0
    ensures LowestBit(m) == if Odd(m) then 0 else 1 + LowestBit(Half(m))
  {
    hide Half, Odd;
    HalfSmaller(m);
  }

  lemma HasStep(m: bv64, p: nat)
    ensures Has(m, p) == if p == 0 then Odd(m) else Has(Half(m), p - 1)
  {
    hide Half, Odd;
  }

  /** The lowest set bit is set, and nothing below it is. */
  lemma {:induction false} LowestBitIsLowest(m: bv64, p: nat)
    requires m != 0
    ensures Has(m, LowestBit(m))
    ensures p < LowestBit(m) ==> !Has(m, p)
    decreases LowestBit(m)
  {
    hide Half, Odd, LowestBit, Has;
    LowestBitStep(m);
    HasStep(m, p);
    HasStep(m, LowestBit(m));
    if !Odd(m) {
      LowestBitIsLowest(Half(m), if p == 0 then 0 else p - 1);
    }
  }

  /** `b & (b - 1)` removes exactly the lowest set bit. */
  lemma {:induction false} HasClearLowest(m: bv64, p: nat)
    requires m != 0
    ensures Has(ClearLowest(m), p) <==> Has(m, p) && p != LowestBit(m)
    decreases LowestBit(m)
  {
    hide Half, Odd, ClearLowest, LowestBit, Has;
    HalfClearLowest(m);
    LowestBitStep(m);
    HasStep(m, p);
    HasStep(ClearLowest(m), p);
    if !Odd(m) {
      if p > 0 { HasClearLowest(Half(m), p - 1); }
    }
  }

  /** No bit at or above 64 is ever set. */
  lemma HasBelow64(m: bv64, p: nat)
    requires Has(m, p)
    ensures p < MAX_BITMASK
  {
    hide Half, Odd, Drop4, Drop16, Has;
    if p >= MAX_BITMASK {
      var q := p - MAX_BITMASK;
      HasSixteenUp(m, q + 48);
      HasSixteenUp(Drop16(m), q + 32);
      HasSixteenUp(Drop16(Drop16(m)), q + 16);
      HasSixteenUp(Drop16(Drop16(Drop16(m))), q);
      AllDropped(m);
      HasZero(q);
    }
  }

  /** A mask without bits is zero. */
  lemma NonzeroHasBit(m: bv64)
    ensures m != 0 <==> exists p :: Has(m, p)
  {
    hide Half, Odd, Has;
    if m == 0 {
      forall p ensures !Has(m, p) { HasZero(p); }
    } else {
      LowestBitIsLowest(m, 0);
      assert Has(m, LowestBit(m));
    }
  }
}
