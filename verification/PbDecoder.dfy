/** pb_decode and the field decoders, storing into a message as they read from a stream. */
module PbDecoder {
  import opened Octets
  import opened Wrappers
  import opened PbVarint
  import opened PbMessage
  import opened PbIter
  import opened PbIStream
  import opened PbRequired

  /** The struct a message is decoded into, one slot a field. */
  class Destination {
    var slots: seq<Slot>

    constructor (slots: seq<Slot>)
      ensures this.slots == slots
    {
      this.slots := slots;
    }
  }

  // Defaults.

  /** pb_message_set_to_defaults. */
  method MessageToDefaults(fields: seq<Field>, dest: Destination)
    requires |dest.slots| == |fields|
    modifies dest
    ensures dest.slots == DefaultSlots(fields)
    decreases fields, 2
  {
    if fields == [] {
      return;
    }
    var iter := new FieldIter(fields, 0);
    var more := true;
    while more
      invariant fresh(iter) && iter.Valid() && iter.fields == fields && iter.pos < |fields| == |dest.slots|
      invariant forall i :: 0 <= i < (if more then iter.pos else |fields|) ==> dest.slots[i] == DefaultSlot(fields[i])
      decreases more, |fields| - iter.pos
    {
      var slot := FieldToDefault(fields[iter.pos]);
      dest.slots := dest.slots[iter.pos := slot];
      more := iter.Next();
    }
  }

  /** pb_field_set_to_default. */
  method FieldToDefault(f: Field) returns (slot: Slot)
    ensures slot == DefaultSlot(f)
    decreases f, 1
  {
    match f.htype
    case Optional => slot := Absent;
    case Repeated(_) => slot := Many([]);
    case Oneof(_) => slot := Absent;
    case _ =>
      if f.declared.Some? && !f.ltype.Submessage? {
        slot := One(f.declared.value);
      } else {
        var v := TypeToDefault(f.ltype);
        slot := One(v);
      }
  }

  method TypeToDefault(lt: LType) returns (v: Value)
    ensures v == DefaultValue(lt)
    decreases lt, 0
  {
    match lt
    case Submessage(fields) =>
      var dest := new Destination(seq(|fields|, _ => Absent));
      MessageToDefaults(fields, dest);
      v := Message(dest.slots);
    case ByteArray(_) => v := Raw([]);
    case Text(_) => v := Raw([]);
    case FixedBytes(n) => v := Raw(seq(n, _ => 0));
    case _ => v := Int(0);
  }

  // Values.

  /** The cast of a 64-bit integer to a signed, or an unsigned, integer of so many bytes. */
  function TruncateSigned(n: int, size: nat): int
    requires IntSize(size)
  {
    var low := n % Bound(size);
    if low >= Bound(size) / 2 then low - Bound(size) else low
  }

  function TruncateUnsigned(n: nat, size: nat): nat
    requires IntSize(size)
  {
    n % Bound(size)
  }

  /** Comparing a value with its cast is an exact range check. */
  lemma CastKeepsWhatFits(n: int, size: nat)
    requires IntSize(size)
    ensures TruncateSigned(n, size) == n <==> InSigned(n, size)
    ensures n >= 0 ==> (TruncateUnsigned(n, size) == n <==> InUnsigned(n, size))
  {
    Bounds();
    var b := Bound(size);
    hide Bound;
    if 0 <= n < b {
      assert n % b == n;
    } else if -b <= n < 0 {
      assert (n + b) % b == n % b;
    }
  }

  /** pb_dec_varint. */
  method DecVarint(size: nat, stream: IStream) returns (ok: bool, v: Value)
    requires stream.Valid()
    modifies stream
    ensures stream.Leaves(ok, PbMessage.Rest(PbMessage.DecodeValue(Signed(size), Int(0), old(stream.Rest()))))
    ensures ok ==> v == PbMessage.DecodeValue(Signed(size), Int(0), old(stream.Rest())).value.0
  {
    hide Decode64, InSigned, TruncateSigned;
    v := Int(0);
    var got, value := stream.DecodeVarint();
    if !got {
      return false, v;
    }
    var svalue := if size == 8 then AsInt64(value) else AsInt32(value);
    if !(size == 1 || size == 2 || size == 4 || size == 8) {
      NoSuchSize(svalue, size);
      return false, v;
    }
    CastKeepsWhatFits(svalue, size);
    var clamped := TruncateSigned(svalue, size);
    ok := clamped == svalue;
    v := Int(clamped);
  }

  lemma NoSuchSize(n: int, size: nat)
    requires !IntSize(size)
    ensures !InSigned(n, size) && !InUnsigned(n, size)
  {
  }

  /** pb_dec_uvarint. */
  method DecUvarint(size: nat, stream: IStream) returns (ok: bool, v: Value)
    requires stream.Valid()
    modifies stream
    ensures stream.Leaves(ok, PbMessage.Rest(PbMessage.DecodeValue(Unsigned(size), Int(0), old(stream.Rest()))))
    ensures ok ==> v == PbMessage.DecodeValue(Unsigned(size), Int(0), old(stream.Rest())).value.0
  {
    hide Decode64, InUnsigned, TruncateUnsigned;
    v := Int(0);
    var got, value := stream.DecodeVarint();
    if !got {
      return false, v;
    }
    if !(size == 1 || size == 2 || size == 4 || size == 8) {
      NoSuchSize(value, size);
      return false, v;
    }
    CastKeepsWhatFits(value, size);
    var clamped := TruncateUnsigned(value, size);
    ok := clamped == value;
    v := Int(clamped);
  }

  /** pb_dec_svarint. */
  method DecSvarint(size: nat, stream: IStream) returns (ok: bool, v: Value)
    requires stream.Valid()
    modifies stream
    ensures stream.Leaves(ok, PbMessage.Rest(PbMessage.DecodeValue(ZigZagged(size), Int(0), old(stream.Rest()))))
    ensures ok ==> v == PbMessage.DecodeValue(ZigZagged(size), Int(0), old(stream.Rest())).value.0
  {
    hide Decode64, InSigned, TruncateSigned, UnZigZag;
    v := Int(0);
    var got, raw := stream.DecodeVarint();
    if !got {
      return false, v;
    }
    var value := UnZigZag(raw);
    if !(size == 1 || size == 2 || size == 4 || size == 8) {
      NoSuchSize(value, size);
      return false, v;
    }
    CastKeepsWhatFits(value, size);
    var clamped := TruncateSigned(value, size);
    ok := clamped == value;
    v := Int(clamped);
  }

  /** The bytes of a fixed32 shifted into place. They do not overlap, so `|` is addition. */
  function Combine(b0: nat, b1: nat, b2: nat, b3: nat): nat {
    b0 + 0x100 * b1 + 0x1_0000 * b2 + 0x100_0000 * b3
  }

  lemma FourBytes(b: Bytes)
    requires |b| == 4
    ensures FromLittleEndian(b) == Combine(b[0], b[1], b[2], b[3])
  {
    assert b[1..][1..] == b[2..] && b[2..][1..] == b[3..] && b[3..][1..] == [];
    assert FromLittleEndian(b[3..]) == b[3];
    assert FromLittleEndian(b[2..]) == b[2] as nat + 0x100 * FromLittleEndian(b[3..]);
    assert FromLittleEndian(b[1..]) == b[1] as nat + 0x100 * FromLittleEndian(b[2..]);
  }

  lemma EightBytes(b: Bytes)
    requires |b| == 8
    ensures FromLittleEndian(b) == FromLittleEndian(b[..4]) + P32 * FromLittleEndian(b[4..])
  {
    FourBytes(b[..4]);
    assert b[1..][1..] == b[2..] && b[2..][1..] == b[3..] && b[3..][1..] == b[4..];
    assert FromLittleEndian(b[3..]) == b[3] as nat + 0x100 * FromLittleEndian(b[4..]);
    assert FromLittleEndian(b[2..]) == b[2] as nat + 0x100 * FromLittleEndian(b[3..]);
    assert FromLittleEndian(b[1..]) == b[1] as nat + 0x100 * FromLittleEndian(b[2..]);
  }

  /** pb_dec_fixed32. */
  method DecFixed32(stream: IStream) returns (ok: bool, v: Value)
    requires stream.Valid()
    modifies stream
    ensures stream.Leaves(ok, PbMessage.Rest(PbMessage.DecodeValue(Fixed32, Int(0), old(stream.Rest()))))
    ensures ok ==> v == PbMessage.DecodeValue(Fixed32, Int(0), old(stream.Rest())).value.0
  {
    hide FromLittleEndian;
    v := Int(0);
    var got, b := stream.Read(4);
    if !got {
      return false, v;
    }
    FourBytes(b);
    return true, Int(Combine(b[0], b[1], b[2], b[3]));
  }

  /** pb_dec_fixed64. */
  method DecFixed64(stream: IStream) returns (ok: bool, v: Value)
    requires stream.Valid()
    modifies stream
    ensures stream.Leaves(ok, PbMessage.Rest(PbMessage.DecodeValue(Fixed64, Int(0), old(stream.Rest()))))
    ensures ok ==> v == PbMessage.DecodeValue(Fixed64, Int(0), old(stream.Rest())).value.0
  {
    hide FromLittleEndian;
    v := Int(0);
    var got, b := stream.Read(8);
    if !got {
      return false, v;
    }
    EightBytes(b);
    FourBytes(b[..4]);
    FourBytes(b[4..]);
    return true, Int(Combine(b[0], b[1], b[2], b[3]) + P32 * Combine(b[4], b[5], b[6], b[7]));
  }

  /** pb_dec_bytes, pb_dec_string and pb_dec_fixed_length_bytes. */
  method DecBytes(lt: LType, stream: IStream) returns (ok: bool, v: Value)
    requires stream.Valid() && (lt.ByteArray? || lt.Text? || lt.FixedBytes?)
    modifies stream
    ensures stream.Leaves(ok, PbMessage.Rest(PbMessage.DecodeValue(lt, Int(0), old(stream.Rest()))))
    ensures ok ==> v == PbMessage.DecodeValue(lt, Int(0), old(stream.Rest())).value.0
  {
    hide Decode32, UpToZero;
    v := Int(0);
    var got, size, _ := stream.DecodeVarint32();
    if !got {
      return false, v;
    }
    match lt {
      case ByteArray(dataSize) =>
        if size + SIZE_HEADER > dataSize {
          return false, v;
        }
      case Text(dataSize) =>
        if size + 1 > dataSize {
          return false, v;
        }
      case FixedBytes(dataSize) =>
        if size == 0 {
          return true, Raw(seq(dataSize, _ => 0));
        }
        if size != dataSize {
          return false, v;
        }
    }
    var b: Bytes;
    ok, b := stream.Read(size);
    v := Raw(if lt.Text? then UpToZero(b) else b);
  }

  /** pb_dec_submessage. `was` is the storage, set to defaults already where that is called for. */
  method DecSubmessage(fields: seq<Field>, was: Value, stream: IStream) returns (ok: bool, v: Value)
    requires stream.Valid()
    modifies stream
    ensures stream.Leaves(ok, PbMessage.Rest(PbMessage.DecodeValue(Submessage(fields), was, old(stream.Rest()))))
    ensures ok ==> v == PbMessage.DecodeValue(Submessage(fields), was, old(stream.Rest())).value.0
    decreases fields, 6
  {
    hide DecodeMessage, ReadDelimited, DefaultSlots;
    v := Int(0);
    var got, substream := stream.MakeSubstream();
    if !got {
      return false, v;
    }
    var dest := new Destination(SlotsOf(fields, was));
    var status := DecodeNoInit(fields, dest, substream);
    ghost var limit := substream.Limit() + stream.bytesLeft;
    var closed := stream.CloseSubstream(substream, limit, stream.src[substream.Limit()..limit]);
    return status, Message(dest.slots);
  }

  /** The decoders of PB_DECODERS. */
  method DecodeValue(lt: LType, was: Value, stream: IStream) returns (ok: bool, v: Value)
    requires stream.Valid()
    modifies stream
    ensures stream.Leaves(ok, PbMessage.Rest(PbMessage.DecodeValue(lt, was, old(stream.Rest()))))
    ensures ok ==> v == PbMessage.DecodeValue(lt, was, old(stream.Rest())).value.0
    decreases lt, 0
  {
    hide InSigned, InUnsigned, Decode64, ReadDelimited, FromLittleEndian, UpToZero, DecodeMessage, UnZigZag;
    match lt
    case Signed(size) => ok, v := DecVarint(size, stream);
    case Unsigned(size) => ok, v := DecUvarint(size, stream);
    case ZigZagged(size) => ok, v := DecSvarint(size, stream);
    case Fixed32 => ok, v := DecFixed32(stream);
    case Fixed64 => ok, v := DecFixed64(stream);
    case ByteArray(_) => ok, v := DecBytes(lt, stream);
    case Text(_) => ok, v := DecBytes(lt, stream);
    case FixedBytes(_) => ok, v := DecBytes(lt, stream);
    case Submessage(fields) => ok, v := DecSubmessage(fields, was, stream);
  }

  // Fields.

  function PackedArray(lt: LType, arraySize: nat, vs: seq<Value>, s: Bytes): Option<(seq<Value>, Bytes)> {
    match ReadDelimited(s)
    case None => None
    case Some((body, rest)) =>
      match DecodePacked(lt, arraySize, vs, body)
      case None => None
      case Some(items) => Some((items, rest))
  }

  /** The packed branch of decode_static_field. */
  method DecodePackedArray(lt: LType, arraySize: nat, vs: seq<Value>, stream: IStream)
    returns (ok: bool, items: seq<Value>)
    requires stream.Valid()
    modifies stream
    ensures stream.Leaves(ok, PbMessage.Rest(PackedArray(lt, arraySize, vs, old(stream.Rest()))))
    ensures ok ==> items == PackedArray(lt, arraySize, vs, old(stream.Rest())).value.0
    decreases lt, 2
  {
    hide ReadDelimited, DecodePacked;
    items := vs;
    var got, substream := stream.MakeSubstream();
    if !got {
      return false, items;
    }
    var status;
    status, items := DecodeItems(lt, arraySize, vs, substream);
    if substream.bytesLeft != 0 {
      return false, items;
    }
    ghost var end := substream.Limit() + stream.bytesLeft;
    var closed := stream.CloseSubstream(substream, end, stream.src[substream.Limit()..end]);
    return status, items;
  }

  method DecodeItems(lt: LType, arraySize: nat, vs: seq<Value>, substream: IStream)
    returns (status: bool, items: seq<Value>)
    requires substream.Valid()
    modifies substream
    ensures substream.Valid() && substream.Limit() <= old(substream.Limit())
    ensures status && substream.bytesLeft == 0 <==> DecodePacked(lt, arraySize, vs, old(substream.Rest())).Some?
    ensures status ==> substream.Limit() == old(substream.Limit())
    ensures status && substream.bytesLeft == 0 ==> items == DecodePacked(lt, arraySize, vs, old(substream.Rest())).value
    decreases lt, 1
  {
    hide PbMessage.DecodeValue;
    items, status := vs, true;
    while substream.bytesLeft > 0 && |items| < arraySize
      invariant substream.Valid() && substream.Limit() == old(substream.Limit())
      invariant DecodePacked(lt, arraySize, items, substream.Rest())
             == DecodePacked(lt, arraySize, vs, old(substream.Rest()))
      decreases substream.bytesLeft
    {
      label before:
      PackedUnfolds(lt, arraySize, items, substream.Rest());
      var got, v := DecodeValue(lt, Int(0), substream);
      if !got {
        return false, items;
      }
      assert |substream.Rest()| < |old@before(substream.Rest())|;
      items := items + [v];
    }
    assert substream.bytesLeft == 0 <==> substream.Rest() == [];
  }

  lemma PackedUnfolds(lt: LType, arraySize: nat, vs: seq<Value>, s: Bytes)
    requires s != [] && |vs| < arraySize
    ensures DecodePacked(lt, arraySize, vs, s) ==
              match PbMessage.DecodeValue(lt, Int(0), s)
              case None => None
              case Some((v, rest)) => DecodePacked(lt, arraySize, vs + [v], rest)
  {
  }

  /** decode_static_field. */
  method DecodeField(f: Field, slot: Slot, wireType: nat, stream: IStream) returns (ok: bool, slot': Slot)
    requires stream.Valid()
    modifies stream
    ensures stream.Leaves(ok, PbMessage.Rest(DecodeSlot(f, slot, wireType, old(stream.Rest()))))
    ensures ok ==> slot' == DecodeSlot(f, slot, wireType, old(stream.Rest())).value.0
    decreases f, 2
  {
    hide PbMessage.DecodeValue, DefaultValue, DecodePacked, ReadDelimited;
    var default := TypeToDefault(f.ltype);
    var v;
    match f.htype
    case Required =>
      ok, v := DecodeValue(f.ltype, if slot.One? then slot.v else default, stream);
      slot' := One(v);
    case Singular =>
      ok, v := DecodeValue(f.ltype, if slot.One? then slot.v else default, stream);
      slot' := One(v);
    case Optional =>
      ok, v := DecodeValue(f.ltype, if slot.Present? then slot.v else default, stream);
      slot' := Present(v);
    case Oneof(_) =>
      ok, v := DecodeValue(f.ltype, default, stream);
      slot' := Present(v);
    case Repeated(n) =>
      ok, slot' := DecodeEntry(f, n, if slot.Many? then slot.vs else [], default, wireType, stream);
  }

  method DecodeEntry(f: Field, n: nat, vs: seq<Value>, default: Value, wireType: nat, stream: IStream)
    returns (ok: bool, slot': Slot)
    requires stream.Valid() && f.htype == Repeated(n) && default == DefaultValue(f.ltype)
    modifies stream
    ensures stream.Leaves(ok, PbMessage.Rest(DecodeSlot(f, Many(vs), wireType, old(stream.Rest()))))
    ensures ok ==> slot' == DecodeSlot(f, Many(vs), wireType, old(stream.Rest())).value.0
    decreases f, 1
  {
    hide PbMessage.DecodeValue, DefaultValue, DecodePacked, ReadDelimited;
    slot' := Many(vs);
    if wireType == WT_STRING && Packable(f.ltype) {
      var items;
      ok, items := DecodePackedArray(f.ltype, n, vs, stream);
      slot' := Many(items);
    } else if |vs| >= n {
      ok := false;
    } else {
      var v;
      ok, v := DecodeValue(f.ltype, default, stream);
      slot' := Many(vs + [v]);
    }
  }

  // Messages.

  /** One field whose descriptor the iterator has found. */
  method DecodeFound(iter: FieldIter, wireType: nat, fieldsSeen: array<Word>, ghost st: Reading, dest: Destination,
                     stream: IStream) returns (ok: bool)
    requires iter.Valid() && iter.fields != [] && st.Of(iter.fields) && dest.slots == st.slots
    requires stream.Valid() && Records(fieldsSeen[..], iter.fields, st.seen)
    modifies dest, stream, fieldsSeen
    ensures stream.Leaves(ok, PbMessage.Rest(DecodeSlot(iter.fields[iter.pos], st.slots[iter.pos], wireType,
                                                        old(stream.Rest()))))
    ensures ok ==>
              var st' := st.Took(iter.fields, iter.pos,
                                 DecodeSlot(iter.fields[iter.pos], st.slots[iter.pos], wireType,
                                           old(stream.Rest())).value.0);
              dest.slots == st'.slots && Records(fieldsSeen[..], iter.fields, st'.seen)
    ensures |dest.slots| == |iter.fields|
    decreases iter.fields, 3
  {
    hide DecodeSlot, Records, RequiredBefore, Bit;
    var f := iter.fields[iter.pos];
    ghost var before := fieldsSeen[..];
    RecordsTwoWords(before, iter.fields, st.seen);
    if f.htype.Required? && iter.requiredIndex < MAX_REQUIRED {
      Mark(fieldsSeen, iter.requiredIndex);
    }
    MarkRecords(before, fieldsSeen[..], iter.fields, st.seen, iter.pos);
    var slot;
    ok, slot := DecodeField(f, dest.slots[iter.pos], wireType, stream);
    if ok {
      dest.slots := Store(iter.fields, dest.slots, iter.pos, slot);
    }
  }

  /** pb_decode_noinit. */
  method DecodeNoInit(fields: seq<Field>, dest: Destination, stream: IStream) returns (ok: bool)
    requires stream.Valid() && |dest.slots| == |fields|
    modifies dest, stream
    ensures stream.Valid() && stream.Limit() <= old(stream.Limit()) && |dest.slots| == |fields|
    ensures ok <==> DecodeMessage(fields, old(dest.slots), old(stream.Rest())).Some?
    ensures ok ==> stream.Limit() == old(stream.Limit())
    ensures ok ==> dest.slots == DecodeMessage(fields, old(dest.slots), old(stream.Rest())).value
    decreases fields, 5
  {
    hide DecodeLoop, Records, RequiredSeen;
    var fieldsSeen := new Word[2](_ => LowBits(0));
    NothingSeen(fieldsSeen[..], fields);
    var iter := new FieldIter(fields, 0);
    ghost var st;
    ok, st := DecodeFields(iter, fieldsSeen, dest, stream);
    if ok {
      ok := AllRequiredSeen(iter, fieldsSeen, st.seen);
    }
  }

  /** Its loop. */
  method DecodeFields(iter: FieldIter, fieldsSeen: array<Word>, dest: Destination, stream: IStream)
    returns (ok: bool, ghost st: Reading)
    requires iter.Valid() && iter.pos == 0 && Records(fieldsSeen[..], iter.fields, {})
    requires stream.Valid() && |dest.slots| == |iter.fields|
    modifies dest, stream, iter, fieldsSeen
    ensures stream.Valid() && stream.Limit() <= old(stream.Limit()) && |dest.slots| == |iter.fields|
    ensures var r := DecodeLoop(iter.fields, Reading(old(dest.slots), {}, 0), old(stream.Rest()));
            && (ok <==> r.Some?)
            && (ok ==> r == Some(st) && st.slots == dest.slots && stream.Limit() == old(stream.Limit()))
    ensures ok ==> iter.Valid() && Records(fieldsSeen[..], iter.fields, st.seen)
    decreases iter.fields, 4
  {
    hide DecodeSlot, Skip, PbMessage.DecodeTag, Records, Search, Reading.Took, FieldIter.Valid, FieldIter.At;
    var extensionRangeStart: nat := 0;
    st := Reading(dest.slots, {}, 0);
    ghost var goal := DecodeLoop(iter.fields, st, stream.Rest());
    while stream.bytesLeft != 0
      invariant iter.Valid() && st.Of(iter.fields) && dest.slots == st.slots && Standing(iter, st)
      invariant Records(fieldsSeen[..], iter.fields, st.seen)
      invariant stream.Valid() && stream.Limit() == old(stream.Limit())
      invariant goal == DecodeLoop(iter.fields, st, stream.Rest())
      decreases stream.bytesLeft
    {
      ghost var left := stream.bytesLeft;
      var got, eof, wireType, tag := stream.DecodeTag();
      if !got {
        return eof, st;
      }
      assert |stream.Rest()| == stream.bytesLeft < left;
      StandingInRange(iter, st);
      var found := iter.FindTag(tag);
      if !found {
        extensionRangeStart := LookForExtension(iter, tag, extensionRangeStart);
        ok := stream.SkipField(wireType);
        if !ok {
          return;
        }
      } else if iter.fields == [] {
        // The terminator was found: it is no field, and decoding it fails.
        return false, st;
      } else {
        ghost var k := iter.pos;
        ghost var slot := DecodeSlot(iter.fields[k], st.slots[k], wireType, stream.Rest());
        ok := DecodeFound(iter, wireType, fieldsSeen, st, dest, stream);
        if !ok {
          return;
        }
        TookStands(iter.fields, st, k, slot.value.0);
        st := st.Took(iter.fields, k, slot.value.0);
      }
      assert |stream.Rest()| == stream.bytesLeft;
    }
    return true, st;
  }

  /** The iterator stands where the loop's state says. */
  ghost predicate Standing(iter: FieldIter, st: Reading)
    reads iter
  {
    iter.pos == st.pos
  }

  lemma StandingInRange(iter: FieldIter, st: Reading)
    requires iter.Valid() && Standing(iter, st)
    ensures st.pos <= |iter.fields| && (iter.fields != [] ==> iter.pos < |iter.fields|)
  {
  }

  lemma TookStands(fields: seq<Field>, st: Reading, k: nat, slot: Slot)
    requires st.Of(fields) && k < |fields|
    ensures st.Took(fields, k, slot).pos == k
  {
  }

  /** The extension test for a tag that was not found. */
  method LookForExtension(iter: FieldIter, tag: nat, extensionRangeStart: nat) returns (start: nat)
    requires iter.Valid()
    modifies iter
    ensures iter.Valid() && iter.pos == old(iter.pos)
  {
    start := extensionRangeStart;
    if tag >= extensionRangeStart {
      var extension := iter.FindExtension();
      if !extension {
        start := 0xFFFF_FFFF;
      }
    }
  }

  lemma RecordsTwoWords(words: seq<Word>, fields: seq<Field>, seen: set<nat>)
    requires Records(words, fields, seen)
    ensures |words| == 2
  {
  }

  lemma NothingSeen(words: seq<Word>, fields: seq<Field>)
    requires words == [LowBits(0), LowBits(0)]
    ensures Records(words, fields, {})
  {
  }

  /** pb_decode. */
  method Decode(fields: seq<Field>, dest: Destination, stream: IStream) returns (ok: bool)
    requires stream.Valid() && |dest.slots| == |fields|
    modifies dest, stream
    ensures ok <==> PbMessage.Decode(fields, old(stream.Rest())).Some?
    ensures ok ==> dest.slots == PbMessage.Decode(fields, old(stream.Rest())).value
  {
    hide DecodeMessage;
    MessageToDefaults(fields, dest);
    ok := DecodeNoInit(fields, dest, stream);
  }
}
