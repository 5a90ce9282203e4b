/** Whatever bytes come in, a decoder leaves every field within its bounds. */
module PbBounds {
  import opened Octets
  import opened Wrappers
  import opened PbVarint
  import opened PbMessage
  import opened PbRoundTrip
  import opened PbUnknown

  /** Sizes fit 32 bits, and the defaults of submessages are within bounds themselves. */
  predicate Sane(lt: LType)
    decreases lt
  {
    match lt
    case ByteArray(dataSize) => dataSize < P32
    case Text(dataSize) => dataSize < P32
    case FixedBytes(dataSize) => dataSize < P32
    case Submessage(fields) => SaneAll(fields) && FitsAll(fields, DefaultSlots(fields))
    case _ => true
  }

  predicate SaneField(f: Field)
    decreases f
  {
    Sane(f.ltype)
  }

  predicate SaneAll(fields: seq<Field>)
    decreases fields
  {
    forall i :: 0 <= i < |fields| ==> SaneField(fields[i])
  }

  // Numbers.

  lemma {:induction false} Varint32IsShort(s: Bytes, bitpos: nat, result: nat)
    requires result < P32
    ensures Decode32From(s, bitpos, result).Some? ==> Decode32From(s, bitpos, result).value.0 < P32
    decreases |s|
  {
    if s == [] {
    } else if s[0] >= 128 {
      Varint32IsShort(s[1..], (bitpos + 7) % 256,
                      if bitpos >= 32 then result else Or(result, (s[0] % 128) * Pow2(bitpos)) % P32);
    }
  }

  lemma LengthIsShort(s: Bytes)
    ensures Decode32(s).Some? ==> Decode32(s).value.0 < P32
    ensures ReadDelimited(s).Some? ==> |ReadDelimited(s).value.0| < P32
  {
    if s != [] && s[0] >= 128 {
      Varint32IsShort(s[1..], 7, s[0] % 128);
    }
  }

  lemma {:induction false} FromLittleEndianBound(b: Bytes)
    ensures FromLittleEndian(b) < Bound(|b|)
  {
    if b == [] {
    } else {
      FromLittleEndianBound(b[1..]);
    }
  }

  lemma {:induction false} UpToZeroIsText(b: Bytes)
    ensures |UpToZero(b)| <= |b| && forall i :: 0 <= i < |UpToZero(b)| ==> UpToZero(b)[i] != 0
  {
    if b == [] || b[0] == 0 {
    } else {
      UpToZeroIsText(b[1..]);
    }
  }

  // Values, fields, messages.

  lemma {:induction false} ValueFits(lt: LType, was: Value, s: Bytes)
    requires Sane(lt) && (lt.Submessage? ==> FitsAll(lt.fields, SlotsOf(lt.fields, was)))
    ensures DecodeValue(lt, was, s).Some? ==> Fits(lt, DecodeValue(lt, was, s).value.0)
    decreases lt, 0
  {
    hide Decode64, Decode32, ReadDelimited, DecodeMessage, FromLittleEndian, UpToZero, UnZigZag, FitsAll, SlotsOf,
         SaneAll, Bound;
    match lt
    case Fixed32 => if |s| >= 4 { FromLittleEndianBound(s[..4]); }
    case Fixed64 => if |s| >= 8 { FromLittleEndianBound(s[..8]); }
    case ByteArray(_) => LengthIsShort(s);
    case Text(_) =>
      LengthIsShort(s);
      if ReadDelimited(s).Some? { UpToZeroIsText(ReadDelimited(s).value.0); }
    case Submessage(fields) =>
      if ReadDelimited(s).Some? { MessageFits(fields, SlotsOf(fields, was), ReadDelimited(s).value.0); }
    case _ =>
  }

  lemma {:induction false} PackedFits(lt: LType, arraySize: nat, vs: seq<Value>, s: Bytes)
    requires Sane(lt) && Packable(lt) && |vs| <= arraySize && forall i :: 0 <= i < |vs| ==> Fits(lt, vs[i])
    ensures var r := DecodePacked(lt, arraySize, vs, s);
            r.Some? ==> |r.value| <= arraySize && forall i :: 0 <= i < |r.value| ==> Fits(lt, r.value[i])
    decreases lt, 1, |s|
  {
    hide DecodeValue, Fits;
    if s == [] || |vs| >= arraySize {
    } else {
      ValueFits(lt, Int(0), s);
      var r := DecodeValue(lt, Int(0), s);
      if r.Some? {
        PackedFits(lt, arraySize, vs + [r.value.0], r.value.1);
      }
    }
  }

  lemma DefaultIsBase(lt: LType)
    requires Sane(lt) && lt.Submessage?
    ensures FitsAll(lt.fields, SlotsOf(lt.fields, DefaultValue(lt)))
  {
  }

  lemma StoredIsBase(lt: LType, v: Value)
    requires lt.Submessage? && Fits(lt, v)
    ensures FitsAll(lt.fields, SlotsOf(lt.fields, v))
  {
  }

  lemma {:induction false} SlotFits(f: Field, slot: Slot, wireType: nat, s: Bytes)
    requires SaneField(f) && FitsSlot(f, slot)
    ensures DecodeSlot(f, slot, wireType, s).Some? ==> FitsSlot(f, DecodeSlot(f, slot, wireType, s).value.0)
    ensures DecodeSlot(f, slot, wireType, s).Some? ==> !DecodeSlot(f, slot, wireType, s).value.0.Absent?
    decreases f, 0
  {
    hide DecodeValue, DecodePacked, Fits, ReadDelimited, DefaultValue, FitsAll, SlotsOf;
    if f.ltype.Submessage? {
      DefaultIsBase(f.ltype);
      if (slot.One? || slot.Present?) {
        StoredIsBase(f.ltype, slot.v);
      }
    }
    match f.htype
    case Repeated(n) =>
      if wireType == WT_STRING && Packable(f.ltype) {
        if ReadDelimited(s).Some? { PackedFits(f.ltype, n, slot.vs, ReadDelimited(s).value.0); }
      } else {
        ValueFits(f.ltype, DefaultValue(f.ltype), s);
      }
    case Oneof(_) => ValueFits(f.ltype, DefaultValue(f.ltype), s);
    case Optional => ValueFits(f.ltype, if slot.Present? then slot.v else DefaultValue(f.ltype), s);
    case _ => ValueFits(f.ltype, slot.v, s);
  }

  /** A field that is stored is alone of its oneof. */
  lemma StoreFits(fields: seq<Field>, slots: seq<Slot>, k: nat, slot: Slot)
    requires FitsAll(fields, slots) && k < |fields| == |slots| && FitsSlot(fields[k], slot)
    ensures FitsAll(fields, Store(fields, slots, k, slot))
  {
    hide FitsSlot, SameGroup;
    var slots' := Store(fields, slots, k, slot);
    forall i | 0 <= i < |fields| ensures FitsSlot(fields[i], slots'[i]) {
      if i != k && SameGroup(fields[i], fields[k]) { AbsentFits(fields[i], fields[k]); }
    }
    forall i, j | 0 <= i < j < |fields| && SameGroup(fields[i], fields[j])
      ensures slots'[i].Absent? || slots'[j].Absent?
    {
      GroupsMeet(fields[i], fields[j], fields[k]);
    }
  }

  lemma AbsentFits(f: Field, g: Field)
    requires SameGroup(f, g)
    ensures FitsSlot(f, Absent)
  {
  }

  lemma GroupsMeet(f: Field, g: Field, h: Field)
    requires SameGroup(f, g)
    ensures SameGroup(f, h) <==> SameGroup(g, h)
    ensures SameGroup(g, f)
  {
  }

  lemma {:induction false} LoopFits(fields: seq<Field>, st: Reading, s: Bytes)
    requires SaneAll(fields) && st.Of(fields) && FitsAll(fields, st.slots)
    ensures DecodeLoop(fields, st, s).Some? ==> FitsAll(fields, DecodeLoop(fields, st, s).value.slots)
    decreases fields, 1, |s|
  {
    hide DecodeTag, Search, Skip, DecodeSlot, SaneField, FitsAll, Store;
    if s != [] && DecodeTag(s).TagRead? {
      var TagRead(tag, wireType, rest) := DecodeTag(s);
      match Search(fields, st.pos, tag)
      case None =>
        if Skip(wireType, rest).Some? { LoopFits(fields, st, Skip(wireType, rest).value); }
      case Some(k) =>
        EachFits(fields, st.slots, k);
        SlotFits(fields[k], st.slots[k], wireType, rest);
        var r := DecodeSlot(fields[k], st.slots[k], wireType, rest);
        if r.Some? {
          StoreFits(fields, st.slots, k, r.value.0);
          LoopFits(fields, st.Took(fields, k, r.value.0), r.value.1);
        }
    }
  }

  lemma EachFits(fields: seq<Field>, slots: seq<Slot>, k: nat)
    requires FitsAll(fields, slots) && k < |fields| == |slots|
    ensures FitsSlot(fields[k], slots[k])
  {
  }

  /** Any input that pb_decode_noinit accepts leaves a message that was within its bounds within its bounds: integers
      fit their fields, byte strings and texts their storage, arrays their size, and of a oneof there is at most one
      member, at every depth. */
  lemma {:induction false} MessageFits(fields: seq<Field>, was: seq<Slot>, s: Bytes)
    requires SaneAll(fields) && FitsAll(fields, was) && |was| == |fields|
    ensures DecodeMessage(fields, was, s).Some? ==> FitsAll(fields, DecodeMessage(fields, was, s).value)
    decreases fields, 2
  {
    hide DecodeLoop, SaneAll, FitsAll, RequiredSeen;
    LoopFits(fields, Reading(was, {}, 0), s);
  }

  /** So it is with what pb_decode accepts, whatever it is: it can be encoded again, and decodes to the same message,
      but for proto3 values that are omitted. */
  lemma DecodedFits(fields: seq<Field>, s: Bytes)
    requires Sane(Submessage(fields)) && Decode(fields, s).Some?
    ensures var slots := Decode(fields, s).value;
            && FitsAll(fields, slots) && |slots| == |fields| && Encode(fields, slots).Some?
            && (WellFormed(fields) && PrefixesFitAll(fields, slots) ==>
                  Decode(fields, Encode(fields, slots).value) == Some(RestoredAll(fields, slots)))
  {
    hide DecodeMessage, FitsAll, WellFormed, PrefixesFitAll, RestoredAll, EncodeFrom, Decode;
    DecodeIsMessage(fields, s);
    MessageFits(fields, DefaultSlots(fields), s);
    var slots := Decode(fields, s).value;
    FittingAreEncoded(fields, slots, 0);
    if WellFormed(fields) {
      MessageRoundTrip(fields, slots);
    }
  }

  lemma DecodeIsMessage(fields: seq<Field>, s: Bytes)
    ensures Decode(fields, s) == DecodeMessage(fields, DefaultSlots(fields), s)
    ensures Decode(fields, s).Some? ==> |Decode(fields, s).value| == |fields|
  {
  }
}
