/** The branch-free word operations of crypto/internal.h, on a 64-bit `crypto_word_t`.

    Every definition below is the C expression; every lemma says which mask it yields. */
module ConstantTime {
  const TRUE_W: bv64 := 0xFFFF_FFFF_FFFF_FFFF
  const TRUE_8: bv8 := 0xFF

  function MsbW(a: bv64): bv64 {
    0 - (a >> 63)
  }

  function LtW(a: bv64, b: bv64): bv64 {
    MsbW(a ^ ((a ^ b) | ((a - b) ^ a)))
  }

  function GeW(a: bv64, b: bv64): bv64 {
    !LtW(a, b)
  }

  function IsZeroW(a: bv64): bv64 {
    MsbW(!a & (a - 1))
  }

  function EqW(a: bv64, b: bv64): bv64 {
    IsZeroW(a ^ b)
  }

  function SelectW(mask: bv64, a: bv64, b: bv64): bv64 {
    (mask & a) | (!mask & b)
  }

  /** The C cast `(uint8_t)w`. */
  function Low8(w: bv64): bv8 {
    (w & 0xFF) as bv8
  }

  function Lt8(a: bv64, b: bv64): bv8 {
    Low8(LtW(a, b))
  }

  function Ge8(a: bv64, b: bv64): bv8 {
    Low8(GeW(a, b))
  }

  function IsZero8(a: bv64): bv8 {
    Low8(IsZeroW(a))
  }

  function Eq8(a: bv64, b: bv64): bv8 {
    Low8(EqW(a, b))
  }

  function Select8(mask: bv8, a: bv8, b: bv8): bv8 {
    Low8(SelectW(mask as bv64, a as bv64, b as bv64))
  }

  lemma MsbWCopiesTopBit(a: bv64)
    ensures MsbW(a) == if a >= 0x8000_0000_0000_0000 then TRUE_W else 0
  {
  }

  predicate TopBit(a: bv64) {
    a >= 0x8000_0000_0000_0000
  }

  /** Adding and comparing is easier to check than subtracting and comparing: `a` is the sum of `b` and `d`. */
  predicate IsSum(a: bv64, b: bv64, d: bv64) {
    b + d == a
  }

  lemma LtWIsLess(a: bv64, b: bv64)
    ensures LtW(a, b) == if a < b then TRUE_W else 0
    ensures GeW(a, b) == if a >= b then TRUE_W else 0
  {
    hide LtW, IsSum;
    var d := Difference(a, b);
    LtWOfSum(a, b, d);
  }

  lemma Difference(a: bv64, b: bv64) returns (d: bv64)
    ensures IsSum(a, b, d)
  {
    hide IsSum;
    d := a - b;
    DifferenceAdds(a, b);
  }

  lemma DifferenceAdds(a: bv64, b: bv64)
    ensures IsSum(a, b, a - b)
  {
  }

  predicate Less(a: bv64, b: bv64) {
    a < b
  }

  lemma LtWOfSum(a: bv64, b: bv64, d: bv64)
    requires IsSum(a, b, d)
    ensures LtW(a, b) == if Less(a, b) then TRUE_W else 0
  {
    hide LtW, Less;
    SumIsLess(b, d);
  }

  lemma SumIsLess(b: bv64, d: bv64)
    ensures LtW(b + d, b) == if Less(b + d, b) then TRUE_W else 0
  {
    hide MsbW, LtW, TopBit;
    LtWOf(b, d);
    TopBitOfSum(b, d);
    MsbWIsTopBit((b + d) ^ (((b + d) ^ b) | (d ^ (b + d))));
  }

  lemma LtWOf(b: bv64, d: bv64)
    ensures LtW(b + d, b) == MsbW((b + d) ^ (((b + d) ^ b) | (d ^ (b + d))))
  {
    hide MsbW;
  }

  lemma MsbWIsTopBit(a: bv64)
    ensures MsbW(a) == if TopBit(a) then TRUE_W else 0
  {
  }

  /** The expression of constant_time_lt_w has its top bit set exactly when the addition wraps around. */
  lemma TopBitOfSum(b: bv64, d: bv64)
    ensures TopBit((b + d) ^ (((b + d) ^ b) | (d ^ (b + d)))) <==> b + d < b
  {
  }

  lemma IsZeroWIsZero(a: bv64)
    ensures IsZeroW(a) == if a == 0 then TRUE_W else 0
  {
    MsbWCopiesTopBit(!a & (a - 1));
  }

  lemma EqWIsEqual(a: bv64, b: bv64)
    ensures EqW(a, b) == if a == b then TRUE_W else 0
  {
    IsZeroWIsZero(a ^ b);
    assert (a ^ b == 0) == (a == b);
  }

  lemma SelectWSelects(mask: bv64, a: bv64, b: bv64)
    requires mask == TRUE_W || mask == 0
    ensures SelectW(mask, a, b) == if mask == TRUE_W then a else b
  {
    if mask == TRUE_W {
      assert SelectW(TRUE_W, a, b) == a;
    } else {
      assert SelectW(0, a, b) == b;
    }
  }

  lemma Mask8(a: bv64, b: bv64)
    ensures IsZero8(a) == if a == 0 then TRUE_8 else 0
    ensures Eq8(a, b) == if a == b then TRUE_8 else 0
  {
    IsZeroWIsZero(a);
    EqWIsEqual(a, b);
  }

  lemma Lt8IsLess(a: bv64, b: bv64)
    ensures Lt8(a, b) == if a < b then TRUE_8 else 0
    ensures Ge8(a, b) == if a >= b then TRUE_8 else 0
  {
    hide LtW, GeW;
    LtWIsLess(a, b);
  }

  /** On an all-ones or all-zeros byte mask the 8-bit form selects a whole byte. */
  lemma Select8Selects(mask: bv8, a: bv8, b: bv8)
    requires mask == TRUE_8 || mask == 0
    ensures Select8(mask, a, b) == if mask == TRUE_8 then a else b
  {
  }
}
