/** Base 128 varints, ZigZag and little-endian integers (pb_encode.c, pb_decode.c). */
module PbVarint {
  import opened Octets
  import opened Wrappers

  const P28: nat := 0x1000_0000
  const P31: nat := 0x8000_0000
  const P32: nat := 0x1_0000_0000
  const P35: nat := 0x8_0000_0000
  const MIN64: int := -0x8000_0000_0000_0000
  const P63: nat := 0x8000_0000_0000_0000
  const P64: nat := 0x1_0000_0000_0000_0000

  function Pow2(n: nat): (r: nat)
    ensures r > 0
  {
    if n == 0 then 1 else 2 * Pow2(n - 1)
  }

  /** The canonical encoding: seven bits a byte, least significant first, the top bit set on all but the last. */
  function Varint(v: nat): (r: Bytes)
    ensures r != []
  {
    if v < 128 then [v] else [128 + v % 128] + Varint(v / 128)
  }

  lemma {:induction false} VarintIsShort(v: nat)
    ensures |Varint(v)| <= 1 + v / 128
  {
    if v < 128 {
    } else {
      VarintIsShort(v / 128);
    }
  }

  /** pb_decode_varint from some byte on: `result` holds the bits below `bitpos`. The new bits do not overlap it, so
      `|=` on uint64_t is addition, less what falls off the top. */
  function Decode64(s: Bytes, bitpos: nat, result: nat): (r: Option<(nat, Bytes)>)
    ensures r.Some? ==> r.value.0 < P64 && |r.value.1| < |s|
    decreases |s|
  {
    if bitpos >= 64 || s == [] then None
    else
      var sum := (result + (s[0] % 128) * Pow2(bitpos)) % P64;
      if s[0] >= 128 then Decode64(s[1..], bitpos + 7, sum) else Some((sum, s[1..]))
  }

  /** `|` on unsigned integers. */
  function Or(a: nat, b: nat): nat {
    if a == 0 then b
    else if b == 0 then a
    else 2 * Or(a / 2, b / 2) + if a % 2 == 1 || b % 2 == 1 then 1 else 0
  }

  /** pb_decode_varint32_eof from the second byte on. `bitpos` is an 8-bit counter: after 37 bytes it starts over, and
      new bits may fall on old ones. */
  function Decode32From(s: Bytes, bitpos: nat, result: nat): (r: Option<(nat, Bytes)>)
    ensures r.Some? ==> |r.value.1| < |s|
    decreases |s|
  {
    if s == [] then None
    else
      var byte: nat := s[0];
      if bitpos >= 32 && !ExtensionByte(byte, bitpos, result) then None
      else
        var result' := if bitpos >= 32 then result else Or(result, (byte % 128) * Pow2(bitpos)) % P32;
        var bitpos' := (bitpos + 7) % 256;
        if byte >= 128 then Decode32From(s[1..], bitpos', result')
        else if bitpos' == 35 && (byte / 16) % 8 != 0 then None
        else Some((result', s[1..]))
  }

  /** A byte past bit 32 must carry nothing, or the sign of a negative 32-bit value. */
  predicate ExtensionByte(byte: nat, bitpos: nat, result: nat) {
    var sign := if bitpos < 63 then 0xFF else 0x01;
    byte % 128 == 0 || (result >= P31 && byte == sign)
  }

  /** pb_decode_varint32. */
  function Decode32(s: Bytes): (r: Option<(nat, Bytes)>)
    ensures r.Some? ==> |r.value.1| < |s|
  {
    if s == [] then None
    else if s[0] < 128 then Some((s[0], s[1..]))
    else Decode32From(s[1..], 7, s[0] % 128)
  }

  lemma Pow2Seven(n: nat)
    ensures Pow2(n + 7) == 128 * Pow2(n)
  {
    assert Pow2(n + 1) == 2 * Pow2(n);
    assert Pow2(n + 2) == 4 * Pow2(n);
    assert Pow2(n + 3) == 8 * Pow2(n);
    assert Pow2(n + 4) == 16 * Pow2(n);
    assert Pow2(n + 5) == 32 * Pow2(n);
    assert Pow2(n + 6) == 64 * Pow2(n);
  }

  lemma Pow2Values()
    ensures Pow2(0) == 1 && Pow2(7) == 0x80 && Pow2(14) == 0x4000 && Pow2(21) == 0x20_0000 && Pow2(28) == P28
    ensures Pow2(35) == P35 && Pow2(63) == P63 && Pow2(64) == P64
  {
    Pow2Seven(0);
    Pow2Seven(7);
    Pow2Seven(14);
    Pow2Seven(21);
    Pow2Seven(28);
    Pow2Seven(35);
    Pow2Seven(42);
    Pow2Seven(49);
    Pow2Seven(56);
  }

  lemma {:induction false} Pow2Add(a: nat, b: nat)
    ensures Pow2(a + b) == Pow2(a) * Pow2(b)
  {
    if b == 0 {
    } else {
      Pow2Add(a, b - 1);
    }
  }

  lemma {:induction false} Pow2Monotone(a: nat, b: nat)
    requires a <= b
    ensures Pow2(a) <= Pow2(b)
    decreases b
  {
    if a >= b {
    } else {
      Pow2Monotone(a, b - 1);
    }
  }

  /** One more group of seven bits. */
  lemma SplitGroup(v: nat, p: nat)
    ensures v * p == (v % 128) * p + (v / 128) * (128 * p)
  {
    assert v == v % 128 + 128 * (v / 128);
    assert (v % 128 + 128 * (v / 128)) * p == (v % 128) * p + 128 * (v / 128) * p;
  }

  /** One byte of the 64-bit decoder, carrying the seven bits `g`, when nothing overflows. */
  lemma Decode64Step(g: nat, more: bool, tail: Bytes, bitpos: nat, result: nat, sum: nat)
    requires g < 128 && bitpos < 64 && sum == result + g * Pow2(bitpos) && sum < P64
    ensures Decode64([if more then 128 + g else g] + tail, bitpos, result)
         == if more then Decode64(tail, bitpos + 7, sum) else Some((sum, tail))
  {
    hide Pow2;
    var byte: Byte := if more then 128 + g else g;
    assert ([byte] + tail)[1..] == tail;
    assert byte % 128 == g;
    assert (result + (byte % 128) * Pow2(bitpos)) % P64 == sum;
  }

  lemma VarintUnfolds(v: nat, rest: Bytes)
    requires v >= 128
    ensures Varint(v) + rest == [128 + v % 128] + (Varint(v / 128) + rest)
  {
  }

  /** The arithmetic of one group: what is read plus what is left stays the same. */
  lemma GroupRead(v: nat, bitpos: nat, result: nat, sum: nat)
    requires v >= 128 && bitpos < 64 && result < Pow2(bitpos) && v * Pow2(bitpos) < P64
    requires sum == result + (v % 128) * Pow2(bitpos)
    ensures bitpos + 7 < 64 && sum < Pow2(bitpos + 7) && sum < P64
    ensures (v / 128) * Pow2(bitpos + 7) < P64
    ensures sum + (v / 128) * Pow2(bitpos + 7) == result + v * Pow2(bitpos)
  {
    hide Pow2;
    var p := Pow2(bitpos);
    SumBelow(v, bitpos, result);
    SplitGroup(v, p);
    Pow2Seven(bitpos);
    LowGroupBelow(v % 128, p, result);
    NextGroupFits(v / 128, bitpos + 7);
  }

  lemma {:induction false} Decode64Canonical(v: nat, rest: Bytes, bitpos: nat, result: nat)
    requires bitpos < 64 && result < Pow2(bitpos) && (v > 0 || bitpos == 0)
    requires v * Pow2(bitpos) < P64
    ensures Decode64(Varint(v) + rest, bitpos, result) == Some((result + v * Pow2(bitpos), rest))
    decreases v
  {
    hide Pow2, Decode64, Varint;
    if v < 128 {
      SumBelow(v, bitpos, result);
      VarintOfSmall(v);
      assert Varint(v) + rest == [v] + rest;
      Decode64Step(v, false, rest, bitpos, result, result + v * Pow2(bitpos));
    } else {
      var sum := result + (v % 128) * Pow2(bitpos);
      GroupRead(v, bitpos, result, sum);
      VarintUnfolds(v, rest);
      Decode64Step(v % 128, true, Varint(v / 128) + rest, bitpos, result, sum);
      Decode64Canonical(v / 128, rest, bitpos + 7, sum);
    }
  }

  lemma VarintOfSmall(v: nat)
    requires v < 128
    ensures Varint(v) == [v]
  {
  }

  /** If something is left above `bitpos`, `bitpos` is below 64. */
  lemma NextGroupFits(w: nat, bitpos: nat)
    requires w >= 1 && w * Pow2(bitpos) < P64
    ensures bitpos < 64
  {
    hide Pow2;
    MulMonotone(1, w, Pow2(bitpos));
    if bitpos >= 64 {
      Pow2Values();
      Pow2Monotone(64, bitpos);
    }
  }

  lemma LowGroupBelow(g: nat, p: nat, result: nat)
    requires g < 128 && result < p
    ensures result + g * p < 128 * p
  {
    MulMonotone(g, 127, p);
  }

  /** The sum stays below 2^64, because both parts are multiples or remainders of a power of two. */
  lemma SumBelow(v: nat, bitpos: nat, result: nat)
    requires bitpos < 64 && result < Pow2(bitpos) && v * Pow2(bitpos) < P64
    ensures result + v * Pow2(bitpos) < P64
  {
    hide Pow2;
    Pow2Add(64 - bitpos, bitpos);
    Pow2Values();
    MultiplesApart(v, Pow2(64 - bitpos), Pow2(bitpos), result);
  }

  lemma MultiplesApart(v: nat, q: nat, p: nat, result: nat)
    requires result < p && v * p < q * p
    ensures result + v * p < q * p
  {
    if v >= q { MulMonotone(q, v, p); }
    MulMonotone(v + 1, q, p);
    assert (v + 1) * p == v * p + p;
  }

  lemma MulMonotone(a: nat, b: nat, p: nat)
    requires a <= b
    ensures a * p <= b * p
  {
  }

  /** The 64-bit decoder inverts the encoder on every 64-bit value, whatever follows. */
  lemma Varint64RoundTrip(v: nat, rest: Bytes)
    requires v < P64
    ensures Decode64(Varint(v) + rest, 0, 0) == Some((v, rest))
  {
    Decode64Canonical(v, rest, 0, 0);
  }

  // The 32-bit decoder.

  /** Seven bits that extend a 32-bit value: none set, or all. */
  predicate Extends(bits: nat) {
    bits % 128 == 0 || bits % 128 == 127
  }

  /** Exactly these 64-bit values, in canonical form, get through the 32-bit decoder. Bits 32 to 34 of a longer value
      are never looked at. */
  predicate Accepted32(v: nat) {
    v < P32 || (v >= P63 && v % P32 >= P31 && ExtendedAbove(v / P35))
  }

  predicate ExtendedAbove(h: nat) {
    Extends(h) && Extends(h / 0x80) && Extends(h / 0x4000) && Extends(h / 0x20_0000)
  }

  lemma OrUnfolds(a: nat, b: nat)
    ensures Or(0, b) == b && Or(a, 0) == a
    ensures a > 0 && b > 0 ==>
              Or(a, b) == 2 * Or(a / 2, b / 2) + if a % 2 == 1 || b % 2 == 1 then 1 else 0
  {
  }

  lemma OrShifted(a: nat, b: nat)
    ensures Or(a, 2 * b) == 2 * Or(a / 2, b) + a % 2
  {
    hide Or;
    OrUnfolds(a, 2 * b);
    OrUnfolds(a / 2, b);
    assert (2 * b) / 2 == b && (2 * b) % 2 == 0;
  }

  lemma TwicePow(g: nat, n: nat)
    requires n > 0
    ensures g * Pow2(n) == 2 * (g * Pow2(n - 1)) && Pow2(n) == 2 * Pow2(n - 1)
  {
  }

  /** Bits that do not overlap are added. */
  lemma {:induction false} OrDisjoint(a: nat, g: nat, n: nat)
    requires a < Pow2(n)
    ensures Or(a, g * Pow2(n)) == a + g * Pow2(n)
  {
    if n == 0 {
      assert g * Pow2(0) == g;
      OrUnfolds(a, g);
    } else {
      hide Or, Pow2;
      TwicePow(g, n);
      OrShifted(a, g * Pow2(n - 1));
      OrDisjoint(a / 2, g, n - 1);
    }
  }

  /** One byte of the 32-bit decoder below bit 32, carrying the seven bits `g`. */
  lemma Decode32Step(g: nat, more: bool, tail: Bytes, bitpos: nat, result: nat, sum: nat)
    requires g < 128 && bitpos < 32 && result < Pow2(bitpos) && sum == (result + g * Pow2(bitpos)) % P32
    ensures Decode32From([if more then 128 + g else g] + tail, bitpos, result)
         == if more then Decode32From(tail, bitpos + 7, sum)
            else if bitpos == 28 && g >= 16 then None else Some((sum, tail))
  {
    hide Pow2, Or;
    OrDisjoint(result, g, bitpos);
    var byte: Byte := if more then 128 + g else g;
    assert ([byte] + tail)[1..] == tail;
    assert byte % 128 == g;
    assert (g / 16) % 8 == 0 <==> g < 16;
  }

  /** A middle byte, at bit 7, 14 or 21: either the value ends here or seven more bits are known. */
  lemma Decode32Middle(w: nat, bitpos: nat, p: nat, result: nat, rest: Bytes)
    requires (bitpos == 7 && p == 0x80) || (bitpos == 14 && p == 0x4000) || (bitpos == 21 && p == 0x20_0000)
    requires result < p
    ensures var sum := result + (w % 128) * p;
            && sum < 128 * p
            && Decode32From(Varint(w) + rest, bitpos, result)
               == if w < 128 then Some((sum, rest)) else Decode32From(Varint(w / 128) + rest, bitpos + 7, sum)
  {
    Pow2Values();
    hide Pow2, Decode32From, Varint;
    var sum := result + (w % 128) * p;
    LowGroupBelow(w % 128, p, result);
    if w < 128 {
      VarintOfSmall(w);
      assert Varint(w) + rest == [w] + rest;
      Decode32Step(w, false, rest, bitpos, result, sum);
    } else {
      VarintUnfolds(w, rest);
      Decode32Step(w % 128, true, Varint(w / 128) + rest, bitpos, result, sum);
    }
  }

  lemma Mod32(x: nat, q: nat, r: nat)
    requires x == q * P32 + r && r < P32
    ensures x % P32 == r
  {
  }

  lemma TopSum(w: nat, result: nat)
    requires result < P28
    ensures (result + (w % 128) * P28) % P32 == result + (w % 16) * P28
  {
    var g := w % 128;
    var q, r := g / 16, g % 16;
    assert g == 16 * q + r;
    assert w == 128 * (w / 128) + g == 16 * (8 * (w / 128) + q) + r;
    assert w % 16 == r;
    Mod32(result + g * P28, q, result + r * P28);
  }

  /** The byte at bit 28 holds the last four bits and three that must be empty if it is the last byte. */
  lemma Decode32Top(w: nat, result: nat, rest: Bytes)
    requires result < P28
    ensures var sum := result + (w % 16) * P28;
            Decode32From(Varint(w) + rest, 28, result)
            == if w >= 128 then Decode32From(Varint(w / 128) + rest, 35, sum)
               else if w < 16 then Some((sum, rest)) else None
  {
    Pow2Values();
    hide Pow2, Decode32From, Varint;
    var sum := result + (w % 16) * P28;
    TopSum(w, result);
    if w < 128 {
      VarintOfSmall(w);
      assert Varint(w) + rest == [w] + rest;
      Decode32Step(w, false, rest, 28, result, sum);
    } else {
      VarintUnfolds(w, rest);
      Decode32Step(w % 128, true, Varint(w / 128) + rest, 28, result, sum);
    }
  }

  /** What is left of a 64-bit value above bit 35, 42, 49, 56 or 63. */
  predicate Above(w: nat, bitpos: nat) {
    && w >= 1
    && (|| (bitpos == 35 && w < 0x2000_0000) || (bitpos == 42 && w < 0x40_0000) || (bitpos == 49 && w < 0x8000)
        || (bitpos == 56 && w < 0x100) || (bitpos == 63 && w < 2))
  }

  /** What the checks past bit 32 come to on a canonical encoding. */
  predicate HighOk(w: nat, bitpos: nat, result: nat)
    decreases w
  {
    if w < 128 then bitpos == 63 && result >= P31
    else (w % 128 == 0 || (result >= P31 && w % 128 == 127)) && HighOk(w / 128, bitpos + 7, result)
  }

  lemma {:induction false} Decode32High(w: nat, bitpos: nat, result: nat, rest: Bytes)
    requires Above(w, bitpos)
    ensures Decode32From(Varint(w) + rest, bitpos, result)
         == if HighOk(w, bitpos, result) then Some((result, rest)) else None
    decreases w
  {
    hide Pow2;
    if w < 128 {
      VarintOfSmall(w);
      assert ([w] + rest)[1..] == rest;
    } else {
      VarintUnfolds(w, rest);
      var g: nat := w % 128;
      assert ([128 + g] + (Varint(w / 128) + rest))[1..] == Varint(w / 128) + rest;
      assert (128 + g) % 128 == g;
      Decode32High(w / 128, bitpos + 7, result, rest);
    }
  }

  lemma HighOkMeans(h: nat, result: nat)
    requires Above(h, 35)
    ensures HighOk(h, 35, result) <==> h >= 0x1000_0000 && result >= P31 && ExtendedAbove(h)
  {
    var h1 := h / 0x80;
    var h2 := h1 / 0x80;
    var h3 := h2 / 0x80;
    HighChain(h, h1, h2, h3, result);
    assert h2 == h / 0x4000;
    assert h3 == h / 0x20_0000;
    assert h3 / 0x80 == h / 0x1000_0000;
  }

  lemma HighChain(h: nat, h1: nat, h2: nat, h3: nat, result: nat)
    requires h < 0x2000_0000 && h1 == h / 0x80 && h2 == h1 / 0x80 && h3 == h2 / 0x80
    ensures HighOk(h, 35, result) <==>
              h3 >= 128 && result >= P31 && Extends(h) && Extends(h1) && Extends(h2) && Extends(h3)
  {
    assert h3 / 0x80 < 128;
    assert h3 >= 128 ==> (HighOk(h3, 56, result) <==> Extends(h3) && result >= P31);
    assert h2 >= 128 ==>
             (HighOk(h2, 49, result) <==>
                (h2 % 128 == 0 || (result >= P31 && h2 % 128 == 127)) && HighOk(h3, 56, result));
    assert h1 >= 128 ==>
             (HighOk(h1, 42, result) <==>
                (h1 % 128 == 0 || (result >= P31 && h1 % 128 == 127)) && HighOk(h2, 49, result));
  }

  lemma Divide28(v: nat, q: nat, r: nat)
    requires v == q * P28 + r && r < P28
    ensures v / P28 == q && v % P28 == r
  {
  }

  lemma LowGroups(v: nat, w1: nat, w2: nat, w3: nat, w4: nat, r1: nat, r2: nat, r3: nat, r4: nat)
    requires w1 == v / 0x80 && r1 == v % 0x80
    requires w2 == w1 / 0x80 && r2 == r1 + (w1 % 0x80) * 0x80
    requires w3 == w2 / 0x80 && r3 == r2 + (w2 % 0x80) * 0x4000
    requires w4 == w3 / 0x80 && r4 == r3 + (w3 % 0x80) * 0x20_0000
    ensures v / P28 == w4 && v % P28 == r4
    ensures w1 < 128 ==> v == r2 && v < P28
    ensures w2 < 128 ==> v == r3 && v < P28
    ensures w3 < 128 ==> v == r4
    ensures w3 < 128 <==> v < P28
    ensures r1 < 0x80 && r2 < 0x4000 && r3 < 0x20_0000
  {
    assert v == w1 * 0x80 + r1 && w1 == w2 * 0x80 + w1 % 0x80 && w2 == w3 * 0x80 + w2 % 0x80
           && w3 == w4 * 0x80 + w3 % 0x80;
    Divide28(v, w4, r4);
  }

  /** The four low groups are read without a check. */
  lemma Decode32Low(v: nat, rest: Bytes)
    ensures Decode32(Varint(v) + rest)
         == if v < P28 then Some((v, rest)) else Decode32From(Varint(v / P28) + rest, 28, v % P28)
  {
    hide Decode32From, Varint;
    if v < 128 {
      VarintOfSmall(v);
      assert ([v] + rest)[1..] == rest;
      return;
    }
    VarintUnfolds(v, rest);
    assert ([128 + v % 128] + (Varint(v / 128) + rest))[1..] == Varint(v / 128) + rest;
    var w1, r1 := v / 0x80, v % 0x80;
    var w2, r2 := w1 / 0x80, r1 + (w1 % 0x80) * 0x80;
    var w3, r3 := w2 / 0x80, r2 + (w2 % 0x80) * 0x4000;
    var w4, r4 := w3 / 0x80, r3 + (w3 % 0x80) * 0x20_0000;
    LowGroups(v, w1, w2, w3, w4, r1, r2, r3, r4);
    Decode32Middle(w1, 7, 0x80, r1, rest);
    Decode32Middle(w2, 14, 0x4000, r2, rest);
    Decode32Middle(w3, 21, 0x20_0000, r3, rest);
  }

  lemma Parts28(v: nat, w: nat, r: nat)
    requires w == v / P28 && r == v % P28
    ensures v % P32 == r + (w % 16) * P28 && v / P35 == w / 128
    ensures v < P32 <==> w < 16
    ensures v < P35 <==> w < 128
    ensures v >= P63 <==> w / 128 >= 0x1000_0000
    ensures v < P64 ==> w / 128 < 0x2000_0000
  {
    assert v == w * P28 + r;
  }

  /** The 32-bit decoder on every 64-bit value in canonical form: what it accepts, and with what result. */
  lemma Decode32Canonical(v: nat, rest: Bytes)
    requires v < P64
    ensures Decode32(Varint(v) + rest) == if Accepted32(v) then Some((v % P32, rest)) else None
  {
    hide Decode32From, Decode32, Varint, ExtendedAbove, HighOk;
    Decode32Low(v, rest);
    if v >= P28 {
      Parts28(v, v / P28, v % P28);
      Decode32Top(v / P28, v % P28, rest);
      if v >= P35 {
        Decode32High(v / P35, 35, v % P32, rest);
        HighOkMeans(v / P35, v % P32);
      }
    }
  }

  /** In the words of the callers: every value that fits is returned, every sign-extended negative 32-bit integer is
      returned as its low half, and nothing else below 2^63 is accepted. */
  lemma Varint32RoundTrip(v: nat, rest: Bytes)
    requires v < P64
    ensures v < P32 ==> Decode32(Varint(v) + rest) == Some((v, rest))
    ensures v >= P64 - P31 ==> Decode32(Varint(v) + rest) == Some((v % P32, rest))
    ensures P32 <= v < P63 ==> Decode32(Varint(v) + rest) == None
  {
    hide Decode32, Varint, ExtendedAbove;
    Decode32Canonical(v, rest);
    if v >= P64 - P31 {
      SignExtended(v);
    }
  }

  lemma SignExtended(v: nat)
    requires P64 - P31 <= v < P64
    ensures v % P32 >= P31 && ExtendedAbove(v / P35)
  {
    assert v / P35 == 0x1FFF_FFFF;
  }

  // Signed integers and fixed-width integers.

  /** The cast from uint64_t to int64_t, and back. */
  function AsInt64(u: nat): int {
    if u >= P63 then u - P64 else u
  }

  function AsUint64(n: int): int {
    if n < 0 then n + P64 else n
  }

  /** The transformation in pb_encode_svarint. */
  function ZigZag(n: int): (r: nat)
    requires MIN64 <= n < P63
    ensures r < P64
  {
    if n < 0 then P64 - 1 - (AsUint64(n) * 2) % P64 else (AsUint64(n) * 2) % P64
  }

  /** The transformation in pb_decode_svarint. */
  function UnZigZag(v: nat): (r: int)
    requires v < P64
    ensures MIN64 <= r < P63
  {
    if v % 2 == 1 then AsInt64(P64 - 1 - v / 2) else AsInt64(v / 2)
  }

  /** ZigZag is a bijection between int64 and uint64. */
  lemma ZigZagInverse(n: int, v: nat)
    requires MIN64 <= n < P63 && v < P64
    ensures UnZigZag(ZigZag(n)) == n && ZigZag(UnZigZag(v)) == v
  {
    if n < 0 {
      assert (AsUint64(n) * 2) % P64 == 2 * n + P64;
      assert ZigZag(n) == -2 * n - 1;
    }
  }

  /** `k` bytes, least significant first. */
  function LittleEndian(n: nat, k: nat): (r: Bytes)
    ensures |r| == k
  {
    if k == 0 then [] else [n % 256] + LittleEndian(n / 256, k - 1)
  }

  function FromLittleEndian(b: Bytes): nat {
    if b == [] then 0
    else
      var low: nat := b[0];
      low + 256 * FromLittleEndian(b[1..])
  }

  function Bound(k: nat): nat {
    if k == 0 then 1 else 256 * Bound(k - 1)
  }

  lemma {:induction false} LittleEndianInverse(n: nat, k: nat)
    requires n < Bound(k)
    ensures FromLittleEndian(LittleEndian(n, k)) == n
  {
    if k == 0 {
    } else {
      LittleEndianInverse(n / 256, k - 1);
      assert LittleEndian(n, k)[1..] == LittleEndian(n / 256, k - 1);
    }
  }

  lemma Bounds()
    ensures Bound(1) == 0x100 && Bound(2) == 0x1_0000 && Bound(4) == P32 && Bound(8) == P64
  {
    assert Bound(2) == 0x1_0000;
    assert Bound(4) == P32;
    assert Bound(6) == 0x1_0000_0000_0000;
  }
}
