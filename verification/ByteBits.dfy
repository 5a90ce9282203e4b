/** Bits of a byte, and the byte masks of dtls1_hm_fragment_mark. */
module ByteBits {
  /** `1u << i` for the shift amounts that occur. */
  function Power(i: nat): bv32
    requires i <= 8
  {
    if i == 0 then 1 else Power(i - 1) * 2
  }

  predicate Bit(b: bv8, i: nat)
    requires i < 8
  {
    b as bv32 & Power(i) != 0
  }

  /** bit_range: the byte with bits `start` (inclusive) to `end` (exclusive) set. */
  function BitRange(start: nat, end: nat): bv8
    requires start <= 8 && end <= 8
  {
    ((!(Power(start) - 1) & (Power(end) - 1)) & 0xFF) as bv8
  }

  lemma Powers()
    ensures Power(0) == 1 && Power(1) == 2 && Power(2) == 4 && Power(3) == 8 && Power(4) == 16
    ensures Power(5) == 32 && Power(6) == 64 && Power(7) == 128 && Power(8) == 256
  {
    assert Power(2) == 4;
    assert Power(4) == 16;
    assert Power(6) == 64;
  }

  lemma BitOfRange(start: nat, end: nat, i: nat)
    requires start <= 8 && end <= 8 && i < 8
    ensures Bit(BitRange(start, end), i) <==> start <= i < end
  {
    Powers();
  }

  lemma BitOr(a: bv8, b: bv8, i: nat)
    requires i < 8
    ensures Bit(a | b, i) <==> Bit(a, i) || Bit(b, i)
  {
    Powers();
  }

  lemma SameBits(a: bv8, b: bv8)
    requires forall i :: 0 <= i < 8 ==> (Bit(a, i) <==> Bit(b, i))
    ensures a == b
  {
    Powers();
    assert Bit(a, 0) == Bit(b, 0) && Bit(a, 1) == Bit(b, 1) && Bit(a, 2) == Bit(b, 2) && Bit(a, 3) == Bit(b, 3);
    assert Bit(a, 4) == Bit(b, 4) && Bit(a, 5) == Bit(b, 5) && Bit(a, 6) == Bit(b, 6) && Bit(a, 7) == Bit(b, 7);
  }
}
