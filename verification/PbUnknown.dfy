/** Fields that the descriptor does not know are skipped without a trace. */
module PbUnknown {
  import opened Octets
  import opened Wrappers
  import opened PbVarint
  import opened PbMessage
  import opened PbRoundTrip

  /** What a reader that left `rest` has consumed of `s`. */
  function Consumed(s: Bytes, rest: Bytes): Bytes
    requires |rest| <= |s|
  {
    s[..|s| - |rest|]
  }

  ghost predicate IsSuffix(s: Bytes, rest: Bytes) {
    |rest| <= |s| && s[|s| - |rest|..] == rest
  }

  // A reader looks at no more than it consumes: after the same bytes, anything else may follow.

  lemma {:induction false} Decode32FromLocal(s: Bytes, bitpos: nat, result: nat, y: Bytes)
    requires Decode32From(s, bitpos, result).Some?
    ensures var (v, rest) := Decode32From(s, bitpos, result).value;
            IsSuffix(s, rest) && Decode32From(Consumed(s, rest) + y, bitpos, result) == Some((v, y))
    decreases |s|
  {
    hide Pow2, ExtensionByte, Or;
    var (v, rest) := Decode32From(s, bitpos, result).value;
    if s[0] >= 128 {
      var bitpos' := (bitpos + 7) % 256;
      var result' := if bitpos >= 32 then result else Or(result, (s[0] % 128) * Pow2(bitpos)) % P32;
      assert Decode32From(s, bitpos, result) == Decode32From(s[1..], bitpos', result');
      Decode32FromLocal(s[1..], bitpos', result', y);
      assert (Consumed(s, rest) + y)[1..] == Consumed(s[1..], rest) + y;
    } else {
      assert (Consumed(s, rest) + y)[1..] == y;
    }
  }

  lemma Decode32Local(s: Bytes, y: Bytes)
    requires Decode32(s).Some?
    ensures var (v, rest) := Decode32(s).value;
            IsSuffix(s, rest) && Decode32(Consumed(s, rest) + y) == Some((v, y))
  {
    hide Decode32From;
    var (v, rest) := Decode32(s).value;
    if s[0] >= 128 {
      Decode32FromLocal(s[1..], 7, s[0] % 128, y);
      assert (Consumed(s, rest) + y)[1..] == Consumed(s[1..], rest) + y;
    } else {
      assert (Consumed(s, rest) + y)[1..] == y;
    }
  }

  lemma {:induction false} Decode64Local(s: Bytes, bitpos: nat, result: nat, y: Bytes)
    requires Decode64(s, bitpos, result).Some?
    ensures var (v, rest) := Decode64(s, bitpos, result).value;
            IsSuffix(s, rest) && Decode64(Consumed(s, rest) + y, bitpos, result) == Some((v, y))
    decreases |s|
  {
    hide Pow2;
    var (v, rest) := Decode64(s, bitpos, result).value;
    var sum := (result + (s[0] % 128) * Pow2(bitpos)) % P64;
    if s[0] >= 128 {
      Decode64Local(s[1..], bitpos + 7, sum, y);
      assert (Consumed(s, rest) + y)[1..] == Consumed(s[1..], rest) + y;
    } else {
      assert (Consumed(s, rest) + y)[1..] == y;
    }
  }

  lemma ReadLocal(s: Bytes, n: nat, y: Bytes)
    requires n <= |s|
    ensures IsSuffix(s, s[n..]) && Read(Consumed(s, s[n..]) + y, n) == Some((s[..n], y))
  {
  }

  lemma ReadDelimitedLocal(s: Bytes, y: Bytes)
    requires ReadDelimited(s).Some?
    ensures var (b, rest) := ReadDelimited(s).value;
            IsSuffix(s, rest) && ReadDelimited(Consumed(s, rest) + y) == Some((b, y))
  {
    hide Decode32;
    var (n, rest) := Decode32(s).value;
    var pre := Consumed(s, rest);
    Decode32Local(s, rest[..n] + y);
    var rest' := rest[n..];
    assert s == pre + rest && rest == rest[..n] + rest';
    assert Consumed(s, rest') == pre + rest[..n];
    assert Consumed(s, rest') + y == pre + (rest[..n] + y);
    assert (rest[..n] + y)[..n] == rest[..n] && (rest[..n] + y)[n..] == y;
  }

  lemma {:induction false} SkipVarintLocal(s: Bytes, y: Bytes)
    requires SkipVarint(s).Some?
    ensures IsSuffix(s, SkipVarint(s).value) && SkipVarint(Consumed(s, SkipVarint(s).value) + y) == Some(y)
  {
    var rest := SkipVarint(s).value;
    if s[0] >= 128 {
      SkipVarintLocal(s[1..], y);
      assert (Consumed(s, rest) + y)[1..] == Consumed(s[1..], rest) + y;
    } else {
      assert (Consumed(s, rest) + y)[1..] == y;
    }
  }

  lemma SkipLocal(wireType: nat, s: Bytes, y: Bytes)
    requires Skip(wireType, s).Some?
    ensures IsSuffix(s, Skip(wireType, s).value) && Skip(wireType, Consumed(s, Skip(wireType, s).value) + y) == Some(y)
  {
    hide ReadDelimited;
    if wireType == WT_VARINT {
      SkipVarintLocal(s, y);
    } else if wireType == WT_64BIT {
      ReadLocal(s, 8, y);
    } else if wireType == WT_STRING {
      ReadDelimitedLocal(s, y);
    } else {
      ReadLocal(s, 4, y);
    }
  }

  lemma ValueLocal(lt: LType, was: Value, s: Bytes, y: Bytes)
    requires DecodeValue(lt, was, s).Some?
    ensures var (v, rest) := DecodeValue(lt, was, s).value;
            IsSuffix(s, rest) && DecodeValue(lt, was, Consumed(s, rest) + y) == Some((v, y))
  {
    hide ReadDelimited, Decode64, DecodeMessage, FromLittleEndian, InSigned, InUnsigned, UnZigZag, UpToZero;
    match lt
    case Signed(_) => Decode64Local(s, 0, 0, y);
    case Unsigned(_) => Decode64Local(s, 0, 0, y);
    case ZigZagged(_) => Decode64Local(s, 0, 0, y);
    case Fixed32 => assert (s[..4] + y)[..4] == s[..4] && (s[..4] + y)[4..] == y;
    case Fixed64 => assert (s[..8] + y)[..8] == s[..8] && (s[..8] + y)[8..] == y;
    case _ => ReadDelimitedLocal(s, y);
  }

  lemma SlotLocal(f: Field, slot: Slot, wireType: nat, s: Bytes, y: Bytes)
    requires DecodeSlot(f, slot, wireType, s).Some?
    ensures var (slot', rest) := DecodeSlot(f, slot, wireType, s).value;
            IsSuffix(s, rest) && DecodeSlot(f, slot, wireType, Consumed(s, rest) + y) == Some((slot', y))
  {
    hide ReadDelimited, DecodeValue, DecodePacked, DefaultValue;
    var default := DefaultValue(f.ltype);
    match f.htype
    case Required => ValueLocal(f.ltype, if slot.One? then slot.v else default, s, y);
    case Singular => ValueLocal(f.ltype, if slot.One? then slot.v else default, s, y);
    case Optional => ValueLocal(f.ltype, if slot.Present? then slot.v else default, s, y);
    case Oneof(_) => ValueLocal(f.ltype, default, s, y);
    case Repeated(_) =>
      if wireType == WT_STRING && Packable(f.ltype) {
        ReadDelimitedLocal(s, y);
      } else {
        ValueLocal(f.ltype, default, s, y);
      }
  }

  /** `a` is a sequence of whole fields, decoded without error and without the zero that ends a message. */
  ghost predicate Whole(fields: seq<Field>, st: Reading, a: Bytes)
    requires st.Of(fields)
    decreases |a|
  {
    a == [] ||
    match DecodeTag(a)
    case Bad => false
    case End => false
    case TagRead(tag, wireType, rest) =>
      match Search(fields, st.pos, tag)
      case None =>
        !(fields == [] && tag == 0) && Skip(wireType, rest).Some?
        && Whole(fields, st, Skip(wireType, rest).value)
      case Some(k) =>
        var r := DecodeSlot(fields[k], st.slots[k], wireType, rest);
        r.Some? && Whole(fields, st.Took(fields, k, r.value.0), r.value.1)
  }

  lemma TagLocal(s: Bytes, y: Bytes)
    requires DecodeTag(s).TagRead?
    ensures var r := DecodeTag(s);
            IsSuffix(s, r.rest) && DecodeTag(Consumed(s, r.rest) + y) == TagRead(r.tag, r.wireType, y)
  {
    hide Decode32;
    Decode32Local(s, y);
  }

  lemma Resume(s: Bytes, rest: Bytes, x: Bytes)
    requires IsSuffix(s, rest)
    ensures s + x == Consumed(s, rest) + (rest + x)
  {
    assert s == Consumed(s, rest) + rest;
  }

  /** After a sequence of whole fields the loop goes on with whatever follows, in the state they left. */
  lemma {:induction false} WholeThen(fields: seq<Field>, st: Reading, a: Bytes, x: Bytes)
    requires st.Of(fields) && Whole(fields, st, a)
    ensures DecodeLoop(fields, st, a).Some?
    ensures DecodeLoop(fields, st, a + x) == DecodeLoop(fields, DecodeLoop(fields, st, a).value, x)
    decreases |a|
  {
    hide DecodeTag, DecodeSlot, Skip, Reading.Took, Search;
    if a == [] {
      assert a + x == x;
    } else {
      var TagRead(tag, wireType, rest) := DecodeTag(a);
      Resume(a, rest, x) by { TagLocal(a, rest + x); }
      TagLocal(a, rest + x);
      var found := Search(fields, st.pos, tag);
      if found.None? {
        var rest' := Skip(wireType, rest).value;
        SkipLocal(wireType, rest, rest' + x);
        Resume(rest, rest', x);
        WholeThen(fields, st, rest', x);
      } else {
        var k := found.value;
        var (slot, rest') := DecodeSlot(fields[k], st.slots[k], wireType, rest).value;
        SlotLocal(fields[k], st.slots[k], wireType, rest, rest' + x);
        Resume(rest, rest', x);
        WholeThen(fields, st.Took(fields, k, slot), rest', x);
      }
    }
  }

  /** One well-formed field whose nonzero tag the descriptor does not have. */
  ghost predicate IsUnknown(fields: seq<Field>, u: Bytes) {
    match DecodeTag(u)
    case TagRead(tag, wireType, rest) => tag != 0 && Find(fields, tag).None? && Skip(wireType, rest) == Some([])
    case _ => false
  }

  /** Put between two fields, at the beginning or at the end, it changes neither the result nor the message. */
  lemma UnknownFieldIsIgnored(fields: seq<Field>, slots: seq<Slot>, a: Bytes, u: Bytes, b: Bytes)
    requires |slots| == |fields| && Whole(fields, Reading(slots, {}, 0), a) && IsUnknown(fields, u)
    ensures DecodeMessage(fields, slots, a + u + b) == DecodeMessage(fields, slots, a + b)
  {
    hide DecodeLoop, Whole, IsUnknown, RequiredSeen;
    var st := Reading(slots, {}, 0);
    WholeThen(fields, st, a, b);
    WholeThen(fields, st, a, u + b);
    assert a + u + b == a + (u + b);
    UnknownThen(fields, DecodeLoop(fields, st, a).value, u, b);
  }

  /** The loop, and its iterator, are left as they were. */
  lemma UnknownThen(fields: seq<Field>, st: Reading, u: Bytes, x: Bytes)
    requires st.Of(fields) && IsUnknown(fields, u)
    ensures DecodeLoop(fields, st, u + x) == DecodeLoop(fields, st, x)
  {
    hide DecodeTag, DecodeSlot, Skip, Reading.Took, Search;
    var TagRead(tag, wireType, rest) := DecodeTag(u);
    TagLocal(u, rest + x);
    Resume(u, rest, x);
    SkipLocal(wireType, rest, [] + x);
    Resume(rest, [], x);
    assert [] + x == x;
    assert u + x != [] by { NoTagInNothing(); }
    assert Search(fields, st.pos, tag).None?;
  }

  lemma NoTagInNothing()
    ensures DecodeTag([]) == Bad
  {
  }

  lemma {:induction false} SkipVarintOf(v: nat, rest: Bytes)
    ensures SkipVarint(Varint(v) + rest) == Some(rest)
    decreases v
  {
    if v < 128 {
      assert (Varint(v) + rest)[1..] == rest;
    } else {
      assert (Varint(v) + rest)[1..] == Varint(v / 128) + rest;
      SkipVarintOf(v / 128, rest);
    }
  }

  /** pb_encode succeeds on every message within its bounds, whatever the tags. */
  lemma {:induction false} FittingIsEncoded(lt: LType, v: Value)
    requires Fits(lt, v)
    ensures EncodeValue(lt, v).Some?
    decreases lt, 0
  {
    match lt
    case Submessage(fields) =>
      FitsAllLength(fields, v.slots);
      FittingAreEncoded(fields, v.slots, 0);
    case _ =>
  }

  lemma {:induction false} FittingAreEncoded(fields: seq<Field>, slots: seq<Slot>, k: nat)
    requires FitsAll(fields, slots) && k <= |fields| == |slots|
    ensures EncodeFrom(fields, slots, k).Some?
    decreases fields, |fields| - k
  {
    hide EncodeSlot, FitsSlot;
    if k == |fields| {
    } else {
      FittingSlotIsEncoded(fields[k], slots[k]);
      FittingAreEncoded(fields, slots, k + 1);
    }
  }

  lemma {:induction false} FittingSlotIsEncoded(f: Field, s: Slot)
    requires FitsSlot(f, s)
    ensures EncodeSlot(f, s).Some?
    decreases f, 0
  {
    hide Fits, EncodeValue, IsDefaultValue;
    if f.htype.Repeated? {
      FittingEntriesAreEncoded(f, s.vs);
    } else if !s.Absent? {
      FittingIsEncoded(f.ltype, s.v);
    }
  }

  lemma {:induction false} FittingEntriesAreEncoded(f: Field, vs: seq<Value>)
    requires forall i :: 0 <= i < |vs| ==> Fits(f.ltype, vs[i])
    ensures EncodeItems(f.ltype, vs).Some? && EncodeEach(f, vs).Some?
    decreases f.ltype, 1, |vs|
  {
    hide Fits, EncodeValue;
    if vs == [] {
    } else {
      FittingIsEncoded(f.ltype, vs[0]);
      FittingEntriesAreEncoded(f, vs[1..]);
    }
  }

  /** Whatever another descriptor's encoder writes for one field, this descriptor's decoder can skip. */
  lemma EncodedFieldIsUnknown(fields: seq<Field>, f: Field, v: Value)
    requires 1 <= f.tag < TAG_LIMIT && Fits(f.ltype, v) && Find(fields, f.tag).None?
    ensures EncodeTagged(f, v).Some?
    ensures PrefixesFit(f.ltype, v) ==> IsUnknown(fields, EncodeTagged(f, v).value)
  {
    hide DecodeTag, Skip, Find, Tag, PrefixesFit;
    FittingIsEncoded(f.ltype, v);
    var payload := EncodeValue(f.ltype, v).value;
    if PrefixesFit(f.ltype, v) {
      TagRoundTrip(f, WireType(f.ltype), payload);
      PayloadIsSkipped(f.ltype, v);
    }
  }

  lemma PayloadIsSkipped(lt: LType, v: Value)
    requires EncodeValue(lt, v).Some? && Fits(lt, v) && PrefixesFit(lt, v)
    ensures Skip(WireType(lt), EncodeValue(lt, v).value) == Some([])
  {
    hide Varint, ReadDelimited, EncodeFrom, Uint64, ZigZag64, Delimited;
    var payload := EncodeValue(lt, v).value;
    assert payload + [] == payload;
    match lt
    case Signed(_) => SkipVarintOf(Uint64(v.n), []);
    case Unsigned(_) => SkipVarintOf(v.n, []);
    case ZigZagged(_) => SkipVarintOf(ZigZag64(v.n), []);
    case Fixed32 =>
    case Fixed64 =>
    case Submessage(fields) => DelimitedRoundTrip(EncodeFrom(fields, v.slots, 0).value, []);
    case _ => DelimitedRoundTrip(v.b, []);
  }

  /** Decoding succeeds exactly when the loop does and each of the first 64 required fields occurs: a missing one is
      always an error, and a missing one past the first 64 never is. */
  lemma RequiredFieldsOccur(fields: seq<Field>, slots: seq<Slot>, s: Bytes)
    requires |slots| == |fields|
    ensures var st := Reading(slots, {}, 0);
            DecodeMessage(fields, slots, s).Some? <==>
              && DecodeLoop(fields, st, s).Some?
              && forall k :: 0 <= k < |fields| && MustOccur(fields, k) ==> Occurs(fields, st, s, k)
  {
    hide DecodeLoop, Occurs;
    var st := Reading(slots, {}, 0);
    var r := DecodeLoop(fields, st, s);
    if r.Some? {
      forall k: nat ensures k in r.value.seen <==> Occurs(fields, st, s, k) {
        SeenMeansOccurs(fields, st, s, k);
      }
    }
  }

  /** Field k is decoded at some turn of the loop. */
  ghost predicate Occurs(fields: seq<Field>, st: Reading, s: Bytes, k: nat)
    requires st.Of(fields)
    decreases |s|
  {
    s != [] &&
    match DecodeTag(s)
    case Bad => false
    case End => false
    case TagRead(tag, wireType, rest) =>
      match Search(fields, st.pos, tag)
      case None => Skip(wireType, rest).Some? && Occurs(fields, st, Skip(wireType, rest).value, k)
      case Some(i) =>
        var r := DecodeSlot(fields[i], st.slots[i], wireType, rest);
        i == k || (r.Some? && Occurs(fields, st.Took(fields, i, r.value.0), r.value.1, k))
  }

  lemma {:induction false} SeenMeansOccurs(fields: seq<Field>, st: Reading, s: Bytes, k: nat)
    requires st.Of(fields) && DecodeLoop(fields, st, s).Some?
    ensures k in DecodeLoop(fields, st, s).value.seen <==> k in st.seen || Occurs(fields, st, s, k)
    decreases |s|
  {
    hide DecodeTag, DecodeSlot, Skip, Store, Search;
    if s == [] || !DecodeTag(s).TagRead? {
    } else {
      var TagRead(tag, wireType, rest) := DecodeTag(s);
      var found := Search(fields, st.pos, tag);
      if found.None? {
        SeenMeansOccurs(fields, st, Skip(wireType, rest).value, k);
      } else {
        var i := found.value;
        var (slot, rest') := DecodeSlot(fields[i], st.slots[i], wireType, rest).value;
        SeenMeansOccurs(fields, st.Took(fields, i, slot), rest', k);
      }
    }
  }
}
