/** Forms that this encoder never writes but others may: what the decoder makes of them. */
module PbForeign {
  import opened Octets
  import opened Wrappers
  import opened PbVarint
  import opened PbMessage
  import opened PbRoundTrip

  // Varints, padded with empty groups or not.

  predicate Groups(g: seq<nat>) {
    g != [] && forall i :: 0 <= i < |g| ==> g[i] < 128
  }

  /** The groups as bytes: the top bit is set on all but the last. */
  function Spelled(g: seq<nat>): (r: Bytes)
    requires Groups(g)
    ensures |r| == |g|
  {
    if |g| == 1 then [g[0]] else [128 + g[0]] + Spelled(g[1..])
  }

  /** The value of the groups, the least significant one first. */
  function Sum(g: seq<nat>): nat {
    if g == [] then 0 else g[0] + 128 * Sum(g[1..])
  }

  lemma SpelledUnfolds(g: seq<nat>, rest: Bytes)
    requires Groups(g) && |g| > 1
    ensures Spelled(g) + rest == [128 + g[0]] + (Spelled(g[1..]) + rest)
  {
  }

  lemma SpelledOne(g: seq<nat>, rest: Bytes)
    requires Groups(g) && |g| == 1
    ensures Spelled(g) + rest == [g[0]] + rest && Sum(g) == g[0]
  {
    assert Sum(g[1..]) == 0;
  }

  /** Every input begins with groups that end, or its bytes all have the top bit set. */
  lemma {:induction false} FormOf(s: Bytes) returns (g: seq<nat>, rest: Bytes)
    requires exists i :: 0 <= i < |s| && s[i] < 128
    ensures Groups(g) && s == Spelled(g) + rest
    decreases |s|
  {
    if s[0] < 128 {
      g, rest := [s[0]], s[1..];
    } else {
      var i :| 0 <= i < |s| && s[i] < 128;
      assert s[1..][i - 1] < 128;
      var g', rest' := FormOf(s[1..]);
      g, rest := [s[0] - 128] + g', rest';
      assert g[1..] == g';
      SpelledUnfolds(g, rest);
    }
  }

  lemma {:induction false} NoEnd(s: Bytes, bitpos: nat, result: nat)
    requires forall i :: 0 <= i < |s| ==> s[i] >= 128
    ensures Decode64(s, bitpos, result) == None && Decode32From(s, bitpos, result) == None
    decreases |s|
  {
    hide Pow2, Or, ExtensionByte;
    if s == [] || bitpos >= 64 {
    } else {
      NoEnd(s[1..], bitpos + 7, (result + (s[0] % 128) * Pow2(bitpos)) % P64);
    }
    if s == [] {
    } else {
      NoEnd(s[1..], (bitpos + 7) % 256,
            if bitpos >= 32 then result else Or(result, (s[0] % 128) * Pow2(bitpos)) % P32);
    }
  }

  /** What the sum of one group and the rest comes to, with what falls off the top left out at once or in the end. */
  lemma GroupByGroup64(result: nat, g: nat, others: nat, p: nat)
    ensures ((result + g * p) % P64 + others * (128 * p)) % P64 == (result + (g + 128 * others) * p) % P64
  {
    Distribute(g, others, p);
    AddMod64(result + g * p, others * (128 * p));
  }

  lemma GroupByGroup32(result: nat, g: nat, others: nat, p: nat)
    ensures ((result + g * p) % P32 + others * (128 * p)) % P32 == (result + (g + 128 * others) * p) % P32
  {
    Distribute(g, others, p);
    AddMod32(result + g * p, others * (128 * p));
  }

  lemma Distribute(g: nat, others: nat, p: nat)
    ensures (g + 128 * others) * p == g * p + others * (128 * p)
  {
  }

  lemma AddMod64(x: nat, y: nat)
    ensures (x % P64 + y) % P64 == (x + y) % P64
  {
    assert x == (x / P64) * P64 + x % P64;
  }

  lemma AddMod32(x: nat, y: nat)
    ensures (x % P32 + y) % P32 == (x + y) % P32
  {
    assert x == (x / P32) * P32 + x % P32;
  }

  lemma OneGroup(g: nat, more: bool, tail: Bytes, bitpos: nat, result: nat)
    requires g < 128
    ensures var sum := (result + g * Pow2(bitpos)) % P64;
            Decode64([if more then 128 + g else g] + tail, bitpos, result)
            == if bitpos >= 64 then None else if more then Decode64(tail, bitpos + 7, sum) else Some((sum, tail))
  {
    hide Pow2;
    var byte: Byte := if more then 128 + g else g;
    assert ([byte] + tail)[1..] == tail && byte % 128 == g;
  }

  lemma {:induction false} AnyFormFrom(g: seq<nat>, rest: Bytes, bitpos: nat, result: nat)
    requires Groups(g)
    ensures Decode64(Spelled(g) + rest, bitpos, result)
         == if bitpos + 7 * (|g| - 1) < 64 then Some(((result + Sum(g) * Pow2(bitpos)) % P64, rest)) else None
    decreases |g|
  {
    hide Pow2, Spelled, Decode64;
    if |g| == 1 {
      SpelledOne(g, rest);
      OneGroup(g[0], false, rest, bitpos, result);
    } else {
      SpelledUnfolds(g, rest);
      OneGroup(g[0], true, Spelled(g[1..]) + rest, bitpos, result);
      AnyFormFrom(g[1..], rest, bitpos + 7, (result + g[0] * Pow2(bitpos)) % P64);
      Pow2Seven(bitpos);
      GroupByGroup64(result, g[0], Sum(g[1..]), Pow2(bitpos));
    }
  }

  /** pb_decode_varint reads up to ten groups, however many of them are empty, as their value modulo 2^64, and refuses
      longer varints. */
  lemma AnyForm64(g: seq<nat>, rest: Bytes)
    requires Groups(g)
    ensures Decode64(Spelled(g) + rest, 0, 0) == if |g| <= 10 then Some((Sum(g) % P64, rest)) else None
  {
    AnyFormFrom(g, rest, 0, 0);
  }

  // The 32-bit decoder.

  function ByteAt(g: seq<nat>, i: nat): nat
    requires i < |g|
  {
    if i < |g| - 1 then 128 + g[i] else g[i]
  }

  /** Groups from bit `bitpos` on that the 32-bit decoder takes, in a varint that comes to v: if the fifth is the last
      one only its lower four bits may be set, and those behind it carry nothing, or the sign of a negative v. */
  predicate Takes(g: seq<nat>, bitpos: nat, v: nat) {
    && (bitpos + 7 * |g| == 35 && g != [] ==> g[|g| - 1] < 16)
    && forall i :: 0 <= i < |g| && bitpos + 7 * i >= 32 ==> ExtensionByte(ByteAt(g, i), bitpos + 7 * i, v)
  }

  lemma TakesOneMore(g: seq<nat>, bitpos: nat, v: nat)
    requires Groups(g) && |g| > 1
    ensures Takes(g, bitpos, v) <==>
              (bitpos >= 32 ==> ExtensionByte(128 + g[0], bitpos, v)) && Takes(g[1..], bitpos + 7, v)
  {
    hide ExtensionByte;
    forall i | 0 <= i < |g| - 1 ensures ByteAt(g[1..], i) == ByteAt(g, i + 1) {
    }
    if Takes(g, bitpos, v) {
      assert bitpos + 7 * 0 >= 32 ==> ExtensionByte(ByteAt(g, 0), bitpos + 7 * 0, v);
      forall i | 0 <= i < |g[1..]| && bitpos + 7 + 7 * i >= 32
        ensures ExtensionByte(ByteAt(g[1..], i), bitpos + 7 + 7 * i, v)
      {
        assert ExtensionByte(ByteAt(g, i + 1), bitpos + 7 * (i + 1), v);
      }
    } else if Takes(g[1..], bitpos + 7, v) && (bitpos >= 32 ==> ExtensionByte(128 + g[0], bitpos, v)) {
      forall i | 0 <= i < |g| && bitpos + 7 * i >= 32 ensures ExtensionByte(ByteAt(g, i), bitpos + 7 * i, v) {
        if i > 0 {
          assert ExtensionByte(ByteAt(g[1..], i - 1), bitpos + 7 + 7 * (i - 1), v);
        }
      }
    }
  }

  lemma TakesOne(g: seq<nat>, bitpos: nat, v: nat)
    requires Groups(g) && |g| == 1
    ensures Takes(g, bitpos, v) <==>
              (bitpos == 28 ==> g[0] < 16) && (bitpos >= 32 ==> ExtensionByte(g[0], bitpos, v))
  {
    hide ExtensionByte;
    if Takes(g, bitpos, v) {
      assert bitpos + 7 * 0 >= 32 ==> ExtensionByte(ByteAt(g, 0), bitpos + 7 * 0, v);
    }
  }

  /** Past bit 32 the value stays as it is. */
  lemma {:induction false} HighGroups(g: seq<nat>, rest: Bytes, bitpos: nat, v: nat)
    requires Groups(g) && 35 <= bitpos && bitpos + 7 * |g| <= 259
    ensures Decode32From(Spelled(g) + rest, bitpos, v) == if Takes(g, bitpos, v) then Some((v, rest)) else None
    decreases |g|
  {
    hide Pow2, Spelled, ExtensionByte, Or, Takes;
    if |g| == 1 {
      SpelledOne(g, rest);
      TakesOne(g, bitpos, v);
      assert ([g[0]] + rest)[1..] == rest;
    } else {
      SpelledUnfolds(g, rest);
      TakesOneMore(g, bitpos, v);
      var tail := Spelled(g[1..]) + rest;
      assert ([128 + g[0]] + tail)[1..] == tail;
      HighGroups(g[1..], rest, bitpos + 7, v);
    }
  }

  lemma NothingAbove(v: nat, others: nat)
    requires v < P32
    ensures (v + others * P35) % P32 == v
  {
    Mod32(v + others * P35, 8 * others, v);
  }

  lemma {:induction false} LowGroups(g: seq<nat>, rest: Bytes, bitpos: nat, result: nat)
    requires Groups(g) && bitpos in {7, 14, 21, 28} && bitpos + 7 * |g| <= 259 && result < Pow2(bitpos)
    ensures var v := (result + Sum(g) * Pow2(bitpos)) % P32;
            Decode32From(Spelled(g) + rest, bitpos, result) == if Takes(g, bitpos, v) then Some((v, rest)) else None
    decreases |g|
  {
    hide Pow2, Spelled, ExtensionByte, Decode32From, Takes;
    var v := (result + Sum(g) * Pow2(bitpos)) % P32;
    var sum := (result + g[0] * Pow2(bitpos)) % P32;
    if |g| == 1 {
      SpelledOne(g, rest);
      TakesOne(g, bitpos, v);
      Decode32Step(g[0], false, rest, bitpos, result, sum);
    } else {
      SpelledUnfolds(g, rest);
      TakesOneMore(g, bitpos, v);
      Decode32Step(g[0], true, Spelled(g[1..]) + rest, bitpos, result, sum);
      Pow2Seven(bitpos);
      GroupByGroup32(result, g[0], Sum(g[1..]), Pow2(bitpos));
      assert v == (sum + Sum(g[1..]) * Pow2(bitpos + 7)) % P32;
      if bitpos == 28 {
        NothingAbove(sum, Sum(g[1..]));
        assert Pow2(35) == P35 by { Pow2Values(); }
        HighGroups(g[1..], rest, 35, sum);
      } else {
        LowSum(g[0], bitpos, result);
        LowGroups(g[1..], rest, bitpos + 7, sum);
      }
    }
  }

  lemma LowSum(g: nat, bitpos: nat, result: nat)
    requires g < 128 && bitpos in {7, 14, 21} && result < Pow2(bitpos)
    ensures (result + g * Pow2(bitpos)) % P32 < Pow2(bitpos + 7)
  {
    Pow2Values();
    hide Pow2;
    LowGroupBelow(g, Pow2(bitpos), result);
  }

  lemma FirstGroup(g: nat, more: bool, tail: Bytes)
    requires g < 128
    ensures Decode32([if more then 128 + g else g] + tail)
         == if more then Decode32From(tail, 7, g) else Some((g, tail))
  {
    hide Decode32From;
    var byte: Byte := if more then 128 + g else g;
    assert ([byte] + tail)[1..] == tail && byte % 128 == g;
  }

  /** pb_decode_varint32 reads up to 37 groups, as far as its counter goes, as their value modulo 2^32, and exactly if
      the groups that do not fit 32 bits are ones it takes. So tags and lengths may be padded. */
  lemma AnyForm32(g: seq<nat>, rest: Bytes)
    requires Groups(g) && |g| <= 37
    ensures Decode32(Spelled(g) + rest)
         == if Takes(g, 0, Sum(g) % P32) then Some((Sum(g) % P32, rest)) else None
  {
    hide Decode32, Decode32From, Takes, Spelled, ExtensionByte, Pow2;
    var v := Sum(g) % P32;
    if |g| == 1 {
      SpelledOne(g, rest);
      TakesOne(g, 0, v);
      FirstGroup(g[0], false, rest);
    } else {
      SpelledUnfolds(g, rest);
      TakesOneMore(g, 0, v);
      FirstGroup(g[0], true, Spelled(g[1..]) + rest);
      assert Pow2(7) == 128 by { Pow2Values(); }
      LowGroups(g[1..], rest, 7, g[0]);
      assert v == (g[0] + Sum(g[1..]) * Pow2(7)) % P32;
    }
  }

  /** A varint of up to five groups that fits 32 bits is read as it is, padded or not. */
  lemma PaddedIsRead(g: seq<nat>, rest: Bytes)
    requires Groups(g) && |g| <= 5 && (|g| == 5 ==> g[4] < 16)
    ensures Sum(g) < P32 && Decode32(Spelled(g) + rest) == Some((Sum(g), rest))
  {
    hide Decode32, Spelled;
    AnyForm32(g, rest);
    SumIsShort(g);
  }

  lemma SumIsShort(g: seq<nat>)
    requires Groups(g) && |g| <= 5 && (|g| == 5 ==> g[4] < 16)
    ensures Sum(g) < P32
  {
    var h := g[1..];
    if h != [] {
      var h' := h[1..];
      assert Sum(h) == h[0] + 128 * Sum(h');
      if h' != [] {
        var h'' := h'[1..];
        assert Sum(h') == h'[0] + 128 * Sum(h'');
        if h'' != [] {
          assert Sum(h'') == h''[0] + 128 * Sum(h''[1..]);
          if h''[1..] != [] {
            assert h''[1..][0] == g[4] && h''[1..][1..] == [];
          }
        }
      }
    }
  }

  // Wire types.

  /** The wire type of a known field is not looked at, except that it tells a packed array from a single entry. */
  lemma WireTypeIsNotLookedAt(fields: seq<Field>, st: Reading, k: nat, wireType: nat, s: Bytes)
    requires WellFormed(fields) && st.Of(fields) && k < |fields| && wireType < 8
    requires fields[k].htype.Repeated? && Packable(fields[k].ltype) ==> wireType != WT_STRING
    ensures DecodeLoop(fields, st, Tag(fields[k], wireType) + s)
         == DecodeLoop(fields, st, Tag(fields[k], WireType(fields[k].ltype)) + s)
  {
    hide DecodeLoop, Tag, WellFormed, DecodeValue, DecodePacked, ReadDelimited, DefaultValue, Reading.Took;
    TagLeads(fields, st, k, wireType, s);
    TagLeads(fields, st, k, WireType(fields[k].ltype), s);
  }
}
