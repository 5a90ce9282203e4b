/** What decoding gives back of what the encoder wrote, and when that is the same message. */
module PbRoundTrip {
  import opened Octets
  import opened Wrappers
  import opened PbVarint
  import opened PbMessage

  const TAG_LIMIT: nat := 0x2000_0000 // 2^29

  /** Tags are in range and distinct, at every level. */
  ghost predicate WellFormed(fields: seq<Field>)
    decreases fields
  {
    && (forall i :: 0 <= i < |fields| ==> WellFormedField(fields[i]))
    && forall i, j :: 0 <= i < j < |fields| ==> fields[i].tag != fields[j].tag
  }

  ghost predicate WellFormedField(f: Field)
    decreases f
  {
    1 <= f.tag < TAG_LIMIT && WellFormedType(f.ltype)
  }

  ghost predicate WellFormedType(lt: LType)
    decreases lt
  {
    lt.Submessage? ==> WellFormed(lt.fields)
  }

  lemma TagRoundTrip(f: Field, wireType: nat, rest: Bytes)
    requires 1 <= f.tag < TAG_LIMIT && wireType < 8
    ensures DecodeTag(Tag(f, wireType) + rest) == TagRead(f.tag, wireType, rest)
  {
    hide Decode32, Varint;
    Varint32RoundTrip(f.tag * 8 + wireType, rest);
  }

  lemma DelimitedRoundTrip(body: Bytes, rest: Bytes)
    requires |body| < P32
    ensures ReadDelimited(Delimited(body) + rest) == Some((body, rest))
  {
    hide Decode32, Varint;
    assert Delimited(body) + rest == Varint(|body|) + (body + rest);
    Varint32RoundTrip(|body|, body + rest);
    assert (body + rest)[..|body|] == body && (body + rest)[|body|..] == rest;
  }

  /** A length that 32 bits do not hold is an error. */
  lemma DelimitedTooLong(body: Bytes, rest: Bytes)
    requires P32 <= |body| < P63
    ensures ReadDelimited(Delimited(body) + rest) == None
  {
    hide Decode32, Varint;
    assert Delimited(body) + rest == Varint(|body|) + (body + rest);
    Varint32RoundTrip(|body|, body + rest);
  }

  lemma SignedRange(n: int, size: nat)
    requires InSigned(n, size)
    ensures MIN64 <= n < P63
    ensures size != 8 ==> -0x8000_0000 <= n < P31
  {
    Bounds();
  }

  /** The casts in pb_dec_varint undo the sign extension of the encoder. */
  lemma SignedRoundTrip(n: int, size: nat, rest: Bytes)
    requires InSigned(n, size)
    ensures DecodeValue(Signed(size), Int(0), Varint(Uint64(n)) + rest) == Some((Int(n), rest))
  {
    hide Varint, Decode64, Bound;
    SignedRange(n, size);
    Varint64RoundTrip(Uint64(n), rest);
  }

  lemma UnsignedRoundTrip(n: int, size: nat, rest: Bytes)
    requires InUnsigned(n, size)
    ensures DecodeValue(Unsigned(size), Int(0), Varint(n) + rest) == Some((Int(n), rest))
  {
    Bounds();
    hide Varint, Decode64, Bound;
    Varint64RoundTrip(n, rest);
  }

  lemma ZigZagRoundTrip(n: int, size: nat, rest: Bytes)
    requires InSigned(n, size)
    ensures DecodeValue(ZigZagged(size), Int(0), Varint(ZigZag64(n)) + rest) == Some((Int(n), rest))
  {
    hide Varint, Decode64, Bound, ZigZag, UnZigZag;
    SignedRange(n, size);
    ZigZagInverse(n, 0);
    Varint64RoundTrip(ZigZag(n), rest);
  }

  lemma FixedRoundTrip(n: int, k: nat, rest: Bytes)
    requires (k == 4 || k == 8) && InUnsigned(n, k)
    ensures var s := LittleEndian(n, k) + rest; s[..k] == LittleEndian(n, k) && s[k..] == rest
    ensures FromLittleEndian(LittleEndian(n, k)) == n
  {
    LittleEndianInverse(n, k);
  }

  lemma {:induction false} UpToZeroAll(b: Bytes)
    requires forall i :: 0 <= i < |b| ==> b[i] != 0
    ensures UpToZero(b) == b
  {
    if b == [] {
    } else {
      UpToZeroAll(b[1..]);
    }
  }

  /** The fields that leave a trace on the wire. */
  predicate Written(f: Field, s: Slot) {
    match f.htype
    case Required => true
    case Singular => s.One? && !IsDefaultValue(f.ltype, s.v)
    case Optional => s.Present?
    case Oneof(_) => s.Present?
    case Repeated(_) => s.Many? && s.vs != []
  }

  // What comes back: the decoder puts its own default where the encoder wrote nothing.

  function Restored(lt: LType, v: Value): Value
    decreases lt, 0
  {
    if lt.Submessage? && v.Message? && |v.slots| == |lt.fields| then Message(RestoredAll(lt.fields, v.slots)) else v
  }

  function RestoredEach(lt: LType, vs: seq<Value>): (r: seq<Value>)
    ensures |r| == |vs|
    decreases lt, 1
  {
    seq(|vs|, i requires 0 <= i < |vs| => Restored(lt, vs[i]))
  }

  function RestoredSlot(f: Field, s: Slot): Slot
    decreases f
  {
    if !Written(f, s) then DefaultSlot(f)
    else match s
      case One(v) => One(Restored(f.ltype, v))
      case Present(v) => Present(Restored(f.ltype, v))
      case Many(vs) => Many(RestoredEach(f.ltype, vs))
      case Absent => Absent
  }

  function RestoredAll(fields: seq<Field>, slots: seq<Slot>): (r: seq<Slot>)
    requires |slots| == |fields|
    ensures |r| == |fields|
    ensures forall i :: 0 <= i < |fields| ==> r[i] == RestoredSlot(fields[i], slots[i])
    decreases fields
  {
    seq(|fields|, i requires 0 <= i < |fields| => RestoredSlot(fields[i], slots[i]))
  }

  // Lengths: the decoder reads each length prefix as a 32-bit varint.

  predicate PrefixesFit(lt: LType, v: Value)
    decreases lt
  {
    lt.Submessage? && v.Message? && |v.slots| == |lt.fields| ==>
      PrefixesFitAll(lt.fields, v.slots) && ShorterThan4GiB(EncodeFrom(lt.fields, v.slots, 0))
  }

  predicate PrefixesFitSlot(f: Field, s: Slot)
    decreases f
  {
    Written(f, s) ==>
    match s
    case One(v) => PrefixesFit(f.ltype, v)
    case Present(v) => PrefixesFit(f.ltype, v)
    case Many(vs) =>
      && (Packable(f.ltype) ==> ShorterThan4GiB(EncodeItems(f.ltype, vs)))
      && forall i :: 0 <= i < |vs| ==> PrefixesFit(f.ltype, vs[i])
    case Absent => true
  }

  /** Every submessage and every packed array that is written, at any depth, takes less than 4 GiB. The message itself
      may be longer. */
  predicate PrefixesFitAll(fields: seq<Field>, slots: seq<Slot>)
    requires |slots| == |fields|
    decreases fields
  {
    forall i :: 0 <= i < |fields| ==> PrefixesFitSlot(fields[i], slots[i])
  }

  predicate ShorterThan4GiB(e: Option<Bytes>) {
    e.Some? ==> |e.value| < P32
  }

  /** Only a submessage builds on what its storage held. */
  lemma StorageDoesNotMatter(lt: LType, was: Value, was': Value, s: Bytes)
    requires !lt.Submessage?
    ensures DecodeValue(lt, was, s) == DecodeValue(lt, was', s)
  {
    hide Decode64, ReadDelimited, InSigned, InUnsigned, UnZigZag, FromLittleEndian, UpToZero;
  }

  /** A value that fits is encoded, and decoded to what can be restored of it, whatever follows. */
  lemma {:induction false} ValueRoundTrip(lt: LType, v: Value, rest: Bytes)
    requires Fits(lt, v) && WellFormedType(lt)
    ensures EncodeValue(lt, v).Some?
    ensures PrefixesFit(lt, v) ==>
              DecodeValue(lt, DefaultValue(lt), EncodeValue(lt, v).value + rest) == Some((Restored(lt, v), rest))
    ensures !PrefixesFit(lt, v) && |EncodeValue(lt, v).value| < P63 ==>
              DecodeValue(lt, DefaultValue(lt), EncodeValue(lt, v).value + rest) == None
    decreases lt, 0
  {
    hide Varint, Decode64, Decode32, Bound, ReadDelimited, ZigZag64, DecodeMessage, FitsAll, WellFormed, EncodeFrom,
         LittleEndian, FromLittleEndian, Delimited, UpToZero, PrefixesFitAll, RestoredAll;
    match lt
    case Signed(size) => SignedRoundTrip(v.n, size, rest);
    case Unsigned(size) => UnsignedRoundTrip(v.n, size, rest);
    case ZigZagged(size) => ZigZagRoundTrip(v.n, size, rest);
    case Fixed32 => FixedRoundTrip(v.n, 4, rest);
    case Fixed64 => FixedRoundTrip(v.n, 8, rest);
    case ByteArray(_) => DelimitedRoundTrip(v.b, rest);
    case Text(_) =>
      DelimitedRoundTrip(v.b, rest);
      UpToZeroAll(v.b);
    case FixedBytes(n) =>
      DelimitedRoundTrip(v.b, rest);
      if n == 0 { assert v.b == seq(n, _ => 0); }
    case Submessage(fields) =>
      FitsAllLength(fields, v.slots);
      MessageRoundTrip(fields, v.slots);
      var body := EncodeFrom(fields, v.slots, 0).value;
      if |body| < P32 {
        DelimitedRoundTrip(body, rest);
      } else if |Delimited(body)| < P63 {
        BodyIsShorter(body);
        DelimitedTooLong(body, rest);
      }
  }

  lemma BodyIsShorter(body: Bytes)
    ensures |body| < |Delimited(body)|
  {
  }

  /** The same from the initial value of a field. */
  lemma FieldValueRoundTrip(f: Field, v: Value, rest: Bytes)
    requires Fits(f.ltype, v) && WellFormedType(f.ltype)
    ensures EncodeValue(f.ltype, v).Some?
    ensures PrefixesFit(f.ltype, v) ==>
              var result := Some((Restored(f.ltype, v), rest));
              && DecodeValue(f.ltype, DefaultValue(f.ltype), EncodeValue(f.ltype, v).value + rest) == result
              && DecodeValue(f.ltype, InitialValue(f), EncodeValue(f.ltype, v).value + rest) == result
    ensures !PrefixesFit(f.ltype, v) && |EncodeValue(f.ltype, v).value| < P63 ==>
              && DecodeValue(f.ltype, DefaultValue(f.ltype), EncodeValue(f.ltype, v).value + rest) == None
              && DecodeValue(f.ltype, InitialValue(f), EncodeValue(f.ltype, v).value + rest) == None
    decreases f.ltype, 1
  {
    hide DecodeValue, EncodeValue, Fits, WellFormedType, PrefixesFit, Restored;
    ValueRoundTrip(f.ltype, v, rest);
    if !f.ltype.Submessage? {
      StorageDoesNotMatter(f.ltype, DefaultValue(f.ltype), InitialValue(f), EncodeValue(f.ltype, v).value + rest);
    }
  }

  lemma FitsAllLength(fields: seq<Field>, slots: seq<Slot>)
    requires FitsAll(fields, slots)
    ensures |slots| == |fields|
  {
  }

  /** With distinct tags a search finds the field meant, wherever it starts. */
  lemma SearchByTag(fields: seq<Field>, pos: nat, k: nat)
    requires WellFormed(fields) && k < |fields| && pos <= |fields|
    ensures Search(fields, pos, fields[k].tag) == Some(k)
  {
    hide Search, WellFormedField;
  }

  /** A tag read by the loop leads to its field. */
  lemma TagLeads(fields: seq<Field>, st: Reading, k: nat, wireType: nat, tail: Bytes)
    requires WellFormed(fields) && st.Of(fields) && k < |fields| && wireType < 8
    ensures DecodeLoop(fields, st, Tag(fields[k], wireType) + tail)
         == match DecodeSlot(fields[k], st.slots[k], wireType, tail)
            case None => None
            case Some((slot, rest)) => DecodeLoop(fields, st.Took(fields, k, slot), rest)
  {
    hide DecodeSlot, Reading.Took, DecodeTag, Tag, WellFormed, WellFormedType, Search;
    FieldIsWellFormed(fields, k);
    TagRoundTrip(fields[k], wireType, tail);
    SearchByTag(fields, st.pos, k);
    assert Tag(fields[k], wireType) + tail != [] by { TagNotEmpty(fields[k], wireType); }
  }

  /** One field read by the loop. */
  lemma FieldStep(fields: seq<Field>, st: Reading, k: nat, wireType: nat, payload: Bytes, slot: Slot, rest: Bytes)
    requires WellFormed(fields) && st.Of(fields) && k < |fields| && wireType < 8
    requires DecodeSlot(fields[k], st.slots[k], wireType, payload + rest) == Some((slot, rest))
    ensures DecodeLoop(fields, st, Tag(fields[k], wireType) + payload + rest)
         == DecodeLoop(fields, st.Took(fields, k, slot), rest)
  {
    hide DecodeLoop, DecodeSlot, Reading.Took, Tag, WellFormed;
    TagLeads(fields, st, k, wireType, payload + rest);
    assert Tag(fields[k], wireType) + payload + rest == Tag(fields[k], wireType) + (payload + rest);
  }

  /** One field that cannot be read. */
  lemma FieldFails(fields: seq<Field>, st: Reading, k: nat, wireType: nat, payload: Bytes, rest: Bytes)
    requires WellFormed(fields) && st.Of(fields) && k < |fields| && wireType < 8
    requires DecodeSlot(fields[k], st.slots[k], wireType, payload + rest) == None
    ensures DecodeLoop(fields, st, Tag(fields[k], wireType) + payload + rest) == None
  {
    hide DecodeLoop, DecodeSlot, Reading.Took, Tag, WellFormed;
    TagLeads(fields, st, k, wireType, payload + rest);
    assert Tag(fields[k], wireType) + payload + rest == Tag(fields[k], wireType) + (payload + rest);
  }

  lemma TagNotEmpty(f: Field, wireType: nat)
    ensures Tag(f, wireType) != []
  {
  }

  /** No other member of k's oneof is present. */
  ghost predicate Alone(fields: seq<Field>, slots: seq<Slot>, k: nat)
    requires k < |fields| == |slots|
  {
    forall i :: 0 <= i < |fields| && i != k && SameGroup(fields[i], fields[k]) ==> slots[i].Absent?
  }

  /** Field k has been read into a message that holds no other member of its oneof. */
  function Filled(st: Reading, k: nat, slot: Slot): Reading
    requires k < |st.slots|
  {
    Reading(st.slots[k := slot], st.seen + {k}, k)
  }

  lemma TookAlone(fields: seq<Field>, st: Reading, k: nat, slot: Slot)
    requires st.Of(fields) && k < |fields| && Alone(fields, st.slots, k)
    ensures st.Took(fields, k, slot) == Filled(st, k, slot)
  {
  }

  /** A value in its field's only or next place. */
  lemma TaggedStep(fields: seq<Field>, st: Reading, k: nat, v: Value, rest: Bytes)
    requires WellFormed(fields) && st.Of(fields) && k < |fields| && Alone(fields, st.slots, k)
    requires Fits(fields[k].ltype, v)
    requires match fields[k].htype
             case Repeated(n) => st.slots[k].Many? && |st.slots[k].vs| < n
             case _ => st.slots[k] == DefaultSlot(fields[k])
    ensures EncodeTagged(fields[k], v).Some?
    ensures PrefixesFit(fields[k].ltype, v) ==>
              DecodeLoop(fields, st, EncodeTagged(fields[k], v).value + rest)
              == DecodeLoop(fields, Filled(st, k, Stored(fields[k], st.slots[k], Restored(fields[k].ltype, v))), rest)
    ensures !PrefixesFit(fields[k].ltype, v) && |EncodeTagged(fields[k], v).value| < P63 ==>
              DecodeLoop(fields, st, EncodeTagged(fields[k], v).value + rest) == None
    decreases fields[k].ltype, 3
  {
    hide DecodeLoop, DecodeValue, EncodeValue, Store, Fits, Tag, Alone, WellFormedType, InitialValue, PrefixesFit,
         Restored;
    var f := fields[k];
    assert WellFormedField(f);
    FieldValueRoundTrip(f, v, rest);
    var payload := EncodeValue(f.ltype, v).value;
    if PrefixesFit(f.ltype, v) {
      var slot := Stored(f, st.slots[k], Restored(f.ltype, v));
      TookAlone(fields, st, k, slot);
      FieldStep(fields, st, k, WireType(f.ltype), payload, slot, rest);
    } else if |EncodeTagged(f, v).value| < P63 {
      assert |payload| <= |EncodeTagged(f, v).value|;
      FieldFails(fields, st, k, WireType(f.ltype), payload, rest);
    }
  }

  function Stored(f: Field, slot: Slot, v: Value): Slot {
    match f.htype
    case Required => One(v)
    case Singular => One(v)
    case Optional => Present(v)
    case Oneof(_) => Present(v)
    case Repeated(_) => Many((if slot.Many? then slot.vs else []) + [v])
  }

  /** The entries of an array, each under its own tag: they are appended to those read before, whatever the type. */
  lemma {:induction false} EachStep(fields: seq<Field>, st: Reading, k: nat, done: seq<Value>, vs: seq<Value>,
                                    rest: Bytes)
    requires WellFormed(fields) && st.Of(fields) && k < |fields| && Alone(fields, st.slots, k)
    requires fields[k].htype.Repeated? && st.slots[k] == Many(done) && vs != []
    requires |done| + |vs| <= fields[k].htype.arraySize && forall i :: 0 <= i < |vs| ==> Fits(fields[k].ltype, vs[i])
    ensures EncodeEach(fields[k], vs).Some?
    ensures (forall i :: 0 <= i < |vs| ==> PrefixesFit(fields[k].ltype, vs[i])) ==>
              DecodeLoop(fields, st, EncodeEach(fields[k], vs).value + rest)
              == DecodeLoop(fields, Filled(st, k, Many(done + RestoredEach(fields[k].ltype, vs))), rest)
    ensures !(forall i :: 0 <= i < |vs| ==> PrefixesFit(fields[k].ltype, vs[i]))
            && |EncodeEach(fields[k], vs).value| < P63 ==>
              DecodeLoop(fields, st, EncodeEach(fields[k], vs).value + rest) == None
    decreases fields[k].ltype, 4, |vs|
  {
    hide DecodeLoop, EncodeTagged, Fits, WellFormed, PrefixesFit, Restored;
    var f := fields[k];
    var tail := vs[1..];
    var back := Restored(f.ltype, vs[0]);
    assert vs == [vs[0]] + tail;
    assert RestoredEach(f.ltype, vs) == [back] + RestoredEach(f.ltype, tail);
    assert EncodeEach(f, vs) == Then(EncodeTagged(f, vs[0]), EncodeEach(f, tail));
    if tail == [] {
      TaggedStep(fields, st, k, vs[0], rest);
      assert EncodeTagged(f, vs[0]).value + [] == EncodeTagged(f, vs[0]).value;
      assert done + [back] == done + RestoredEach(f.ltype, vs);
    } else {
      var st' := Filled(st, k, Many(done + [back]));
      EachStep(fields, st', k, done + [back], tail, rest);
      var first, others := EncodeTagged(f, vs[0]), EncodeEach(f, tail).value;
      TaggedStep(fields, st, k, vs[0], others + rest);
      assert first.value + others + rest == first.value + (others + rest);
      var all := Many(done + RestoredEach(f.ltype, vs));
      assert done + [back] + RestoredEach(f.ltype, tail) == done + RestoredEach(f.ltype, vs);
      assert Filled(st', k, all) == Filled(st, k, all);
    }
  }

  /** A packed array. */
  lemma {:induction false} ItemsRoundTrip(lt: LType, arraySize: nat, done: seq<Value>, vs: seq<Value>)
    requires Packable(lt) && |done| + |vs| <= arraySize && forall i :: 0 <= i < |vs| ==> Fits(lt, vs[i])
    ensures EncodeItems(lt, vs).Some?
    ensures DecodePacked(lt, arraySize, done, EncodeItems(lt, vs).value) == Some(done + vs)
    decreases lt, 1, |vs|
  {
    hide DecodeValue, EncodeValue, Fits;
    if vs == [] {
      assert done + vs == done;
    } else {
      var tail := vs[1..];
      ItemsRoundTrip(lt, arraySize, done + [vs[0]], tail);
      var others := EncodeItems(lt, tail).value;
      ValueRoundTrip(lt, vs[0], others);
      assert DefaultValue(lt) == Int(0);
      assert done + [vs[0]] + tail == done + vs;
    }
  }

  /** The entries of a packed array are appended likewise. */
  lemma PackedStep(fields: seq<Field>, st: Reading, k: nat, done: seq<Value>, vs: seq<Value>, rest: Bytes)
    requires WellFormed(fields) && st.Of(fields) && k < |fields| && Alone(fields, st.slots, k)
             && st.slots[k] == Many(done)
    requires fields[k].htype.Repeated? && Packable(fields[k].ltype) && |done| + |vs| <= fields[k].htype.arraySize
    requires vs != [] && forall i :: 0 <= i < |vs| ==> Fits(fields[k].ltype, vs[i])
    ensures EncodeItems(fields[k].ltype, vs).Some?
    ensures var items := EncodeItems(fields[k].ltype, vs).value;
            |items| < P32 ==>
              DecodeLoop(fields, st, Tag(fields[k], WT_STRING) + Delimited(items) + rest)
              == DecodeLoop(fields, Filled(st, k, Many(done + vs)), rest)
    ensures var items := EncodeItems(fields[k].ltype, vs).value;
            P32 <= |items| < P63 ==>
              DecodeLoop(fields, st, Tag(fields[k], WT_STRING) + Delimited(items) + rest) == None
    decreases fields[k].ltype, 3
  {
    hide DecodeLoop, DecodePacked, DecodeValue, EncodeItems, Fits, Store, Tag, Delimited, WellFormed, InitialValue;
    var f := fields[k];
    ItemsRoundTrip(f.ltype, f.htype.arraySize, done, vs);
    var items := EncodeItems(f.ltype, vs).value;
    if |items| < P32 {
      DelimitedRoundTrip(items, rest);
      TookAlone(fields, st, k, Many(done + vs));
      FieldStep(fields, st, k, WT_STRING, Delimited(items), Many(done + vs), rest);
    } else if |items| < P63 {
      DelimitedTooLong(items, rest);
      FieldFails(fields, st, k, WT_STRING, Delimited(items), rest);
    }
  }

  /** What has been read when field k has come back. */
  function Back(fields: seq<Field>, st: Reading, k: nat, s: Slot): Reading
    requires k < |fields| && k < |st.slots|
  {
    if Written(fields[k], s) then Filled(st, k, RestoredSlot(fields[k], s)) else st
  }

  /** One field, as the loop meets it in a message that still holds its default there. */
  lemma SlotStep(fields: seq<Field>, st: Reading, k: nat, s: Slot, rest: Bytes)
    requires WellFormed(fields) && st.Of(fields) && k < |fields| && FitsSlot(fields[k], s)
    requires st.slots[k] == DefaultSlot(fields[k]) && (Alone(fields, st.slots, k) || s.Absent?)
    ensures EncodeSlot(fields[k], s).Some?
    ensures PrefixesFitSlot(fields[k], s) ==>
              DecodeLoop(fields, st, EncodeSlot(fields[k], s).value + rest)
              == DecodeLoop(fields, Back(fields, st, k, s), rest)
    ensures !PrefixesFitSlot(fields[k], s) && |EncodeSlot(fields[k], s).value| < P63 ==>
              DecodeLoop(fields, st, EncodeSlot(fields[k], s).value + rest) == None
    decreases fields[k], 5
  {
    hide DecodeLoop, EncodeTagged, EncodeEach, EncodeItems, Fits, WellFormed, Alone, Tag, Delimited, IsDefaultValue,
         DefaultValue, InitialValue, PrefixesFit, Restored;
    var f := fields[k];
    if !Written(f, s) {
      assert [] + rest == rest;
    } else if !f.htype.Repeated? {
      TaggedStep(fields, st, k, s.v, rest);
    } else if Packable(f.ltype) {
      assert [] + s.vs == s.vs;
      PackedStep(fields, st, k, [], s.vs, rest);
      ItemsPrefixesFit(f.ltype, s.vs);
      ItemsRestored(f.ltype, s.vs);
      BodyIsShorter(EncodeItems(f.ltype, s.vs).value);
    } else {
      assert [] + RestoredEach(f.ltype, s.vs) == RestoredEach(f.ltype, s.vs);
      EachStep(fields, st, k, [], s.vs, rest);
    }
  }

  lemma ItemsPrefixesFit(lt: LType, vs: seq<Value>)
    requires Packable(lt)
    ensures forall i :: 0 <= i < |vs| ==> PrefixesFit(lt, vs[i])
  {
  }

  lemma ItemsRestored(lt: LType, vs: seq<Value>)
    requires Packable(lt)
    ensures RestoredEach(lt, vs) == vs
  {
    assert forall i :: 0 <= i < |vs| ==> RestoredEach(lt, vs)[i] == vs[i];
  }

  lemma FieldIsWellFormed(fields: seq<Field>, k: nat)
    requires WellFormed(fields) && k < |fields|
    ensures WellFormedField(fields[k])
  {
  }

  /** The message when its first k fields have been read. */
  function SoFar(fields: seq<Field>, slots: seq<Slot>, k: nat): (r: seq<Slot>)
    requires k <= |fields| == |slots|
    ensures |r| == |fields|
    ensures forall i :: 0 <= i < |fields| ==>
              r[i] == if i < k then RestoredSlot(fields[i], slots[i]) else DefaultSlot(fields[i])
  {
    RestoredAll(fields, slots)[..k] + DefaultSlots(fields)[k..]
  }

  lemma AloneSoFar(fields: seq<Field>, slots: seq<Slot>, k: nat)
    requires FitsAll(fields, slots) && k < |fields| == |slots|
    ensures Alone(fields, SoFar(fields, slots, k), k) || slots[k].Absent?
    ensures FitsSlot(fields[k], slots[k])
  {
    hide FitsSlot, DefaultValue, InitialValue, Restored, RestoredEach;
    if !slots[k].Absent? {
      forall i | 0 <= i < |fields| && i != k && SameGroup(fields[i], fields[k])
        ensures SoFar(fields, slots, k)[i].Absent?
      {
        assert i < k ==> SameGroup(fields[i], fields[k]);
      }
    }
  }

  /** Every field before k that is always written has been seen. */
  ghost predicate AllSeen(fields: seq<Field>, seen: set<nat>, k: nat) {
    forall i :: 0 <= i < k && i < |fields| && fields[i].htype.Required? ==> i in seen
  }

  predicate PrefixesFitFrom(fields: seq<Field>, slots: seq<Slot>, k: nat)
    requires |slots| == |fields|
  {
    forall i :: k <= i < |fields| ==> PrefixesFitSlot(fields[i], slots[i])
  }

  /** The fields from k on, read into a message that holds those before. */
  lemma {:induction false} FieldsRoundTrip(fields: seq<Field>, slots: seq<Slot>, k: nat, st: Reading)
    requires WellFormed(fields) && FitsAll(fields, slots) && k <= |fields| == |slots| && st.Of(fields)
    requires st.slots == SoFar(fields, slots, k) && AllSeen(fields, st.seen, k)
    ensures EncodeFrom(fields, slots, k).Some?
    ensures PrefixesFitFrom(fields, slots, k) ==>
              var r := DecodeLoop(fields, st, EncodeFrom(fields, slots, k).value);
              r.Some? && r.value.slots == RestoredAll(fields, slots) && AllSeen(fields, r.value.seen, |fields|)
    ensures !PrefixesFitFrom(fields, slots, k) && |EncodeFrom(fields, slots, k).value| < P63 ==>
              DecodeLoop(fields, st, EncodeFrom(fields, slots, k).value) == None
    decreases fields, 1, |fields| - k
  {
    hide EncodeSlot, WellFormed, FitsAll, FitsSlot, PrefixesFitSlot, Restored, RestoredEach;
    if k == |fields| {
      assert SoFar(fields, slots, k) == RestoredAll(fields, slots);
    } else {
      AloneSoFar(fields, slots, k);
      var st' := Back(fields, st, k, slots[k]);
      assert st'.slots == st.slots[k := RestoredSlot(fields[k], slots[k])] == SoFar(fields, slots, k + 1);
      FieldsRoundTrip(fields, slots, k + 1, st');
      SlotStep(fields, st, k, slots[k], EncodeFrom(fields, slots, k + 1).value);
    }
  }

  /** pb_encode succeeds on every message within its bounds. pb_decode reports an error exactly when a submessage or a
      packed array in it takes 4 GiB or more, and otherwise gives back the message with its own defaults where nothing
      was written. */
  lemma {:induction false} MessageRoundTrip(fields: seq<Field>, slots: seq<Slot>)
    requires WellFormed(fields) && FitsAll(fields, slots) && |slots| == |fields|
    ensures Encode(fields, slots).Some?
    ensures PrefixesFitAll(fields, slots) ==>
              Decode(fields, Encode(fields, slots).value) == Some(RestoredAll(fields, slots))
    ensures !PrefixesFitAll(fields, slots) && |Encode(fields, slots).value| < P63 ==>
              Decode(fields, Encode(fields, slots).value) == None
    decreases fields, 2
  {
    assert SoFar(fields, slots, 0) == DefaultSlots(fields);
    FieldsRoundTrip(fields, slots, 0, Reading(DefaultSlots(fields), {}, 0));
  }
}
