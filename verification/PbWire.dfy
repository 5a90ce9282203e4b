/** What an encoded message looks like to a reader that knows no descriptor: a sequence of fields. */
module PbWire {
  import opened Octets
  import opened Wrappers
  import opened PbVarint
  import opened PbMessage
  import opened PbRoundTrip
  import opened PbUnknown

  /** A tag and a wire type. */
  datatype Head = Head(tag: nat, wireType: nat)

  /** The fields on the wire, one after the other to the end of the input. */
  function Scan(s: Bytes): Option<seq<Head>>
    decreases |s|
  {
    if s == [] then Some([])
    else match DecodeTag(s)
      case TagRead(tag, wireType, rest) =>
        (match Skip(wireType, rest)
         case None => None
         case Some(rest') =>
           match Scan(rest')
           case None => None
           case Some(heads) => Some([Head(tag, wireType)] + heads))
      case _ => None
  }

  /** What a field is written as: an integer array packed, under one tag; any other array entry by entry; anything else
      once, unless it is omitted. */
  function HeadsOf(f: Field, s: Slot): seq<Head> {
    if !Written(f, s) then []
    else if s.Many? && Packable(f.ltype) then [Head(f.tag, WT_STRING)]
    else Repeat(Head(f.tag, WireType(f.ltype)), if s.Many? then |s.vs| else 1)
  }

  function Repeat(head: Head, n: nat): (r: seq<Head>)
    ensures |r| == n && forall i :: 0 <= i < n ==> r[i] == head
  {
    if n == 0 then [] else [head] + Repeat(head, n - 1)
  }

  function HeadsFrom(fields: seq<Field>, slots: seq<Slot>, k: nat): seq<Head>
    requires k <= |fields| == |slots|
    decreases |fields| - k
  {
    if k == |fields| then [] else HeadsOf(fields[k], slots[k]) + HeadsFrom(fields, slots, k + 1)
  }

  function Prefixed(heads: seq<Head>, rest: Option<seq<Head>>): Option<seq<Head>> {
    if rest.None? then None else Some(heads + rest.value)
  }

  lemma PrefixedNone(rest: Option<seq<Head>>)
    ensures Prefixed([], rest) == rest
  {
    if rest.Some? { assert [] + rest.value == rest.value; }
  }

  lemma PrefixedTwice(a: seq<Head>, b: seq<Head>, rest: Option<seq<Head>>)
    ensures Prefixed(a, Prefixed(b, rest)) == Prefixed(a + b, rest)
  {
    if rest.Some? { assert a + (b + rest.value) == a + b + rest.value; }
  }

  lemma OneHead(f: Field, wireType: nat, payload: Bytes, x: Bytes)
    requires 1 <= f.tag < TAG_LIMIT && wireType < 8 && Skip(wireType, payload) == Some([])
    ensures Scan(Tag(f, wireType) + payload + x) == Prefixed([Head(f.tag, wireType)], Scan(x))
  {
    hide DecodeTag, Skip, Tag;
    TagRoundTrip(f, wireType, payload + x);
    assert Tag(f, wireType) + payload + x == Tag(f, wireType) + (payload + x);
    assert Tag(f, wireType) + (payload + x) != [] by { TagNotEmpty(f, wireType); }
    SkipLocal(wireType, payload, x);
    assert Consumed(payload, []) == payload;
  }

  lemma ValueHead(f: Field, v: Value, x: Bytes)
    requires 1 <= f.tag < TAG_LIMIT && Fits(f.ltype, v) && PrefixesFit(f.ltype, v)
    ensures EncodeTagged(f, v).Some?
    ensures Scan(EncodeTagged(f, v).value + x) == Prefixed([Head(f.tag, WireType(f.ltype))], Scan(x))
  {
    hide EncodeValue, Fits, PrefixesFit, Tag, Scan, Skip;
    FittingIsEncoded(f.ltype, v);
    PayloadIsSkipped(f.ltype, v);
    OneHead(f, WireType(f.ltype), EncodeValue(f.ltype, v).value, x);
  }

  lemma {:induction false} EntryHeads(f: Field, vs: seq<Value>, x: Bytes)
    requires 1 <= f.tag < TAG_LIMIT && forall i :: 0 <= i < |vs| ==> Fits(f.ltype, vs[i]) && PrefixesFit(f.ltype, vs[i])
    ensures EncodeEach(f, vs).Some?
    ensures Scan(EncodeEach(f, vs).value + x)
         == Prefixed(Repeat(Head(f.tag, WireType(f.ltype)), |vs|), Scan(x))
    decreases |vs|
  {
    hide EncodeTagged, Fits, PrefixesFit, Scan;
    if vs == [] {
      assert [] + x == x;
      PrefixedNone(Scan(x));
    } else {
      EntryHeads(f, vs[1..], x);
      var first, others := EncodeTagged(f, vs[0]), EncodeEach(f, vs[1..]).value;
      ValueHead(f, vs[0], others + x);
      assert first.value + others + x == first.value + (others + x);
      PrefixedTwice([Head(f.tag, WireType(f.ltype))], Repeat(Head(f.tag, WireType(f.ltype)), |vs| - 1), Scan(x));
    }
  }

  lemma PackedHead(f: Field, vs: seq<Value>, x: Bytes)
    requires 1 <= f.tag < TAG_LIMIT && EncodeItems(f.ltype, vs).Some? && |EncodeItems(f.ltype, vs).value| < P32
    ensures Scan(Tag(f, WT_STRING) + Delimited(EncodeItems(f.ltype, vs).value) + x)
         == Prefixed([Head(f.tag, WT_STRING)], Scan(x))
  {
    hide Scan, Tag, EncodeItems, Delimited, ReadDelimited;
    var items := EncodeItems(f.ltype, vs).value;
    DelimitedRoundTrip(items, []);
    assert Delimited(items) + [] == Delimited(items);
    OneHead(f, WT_STRING, Delimited(items), x);
  }

  lemma SlotHeads(f: Field, s: Slot, x: Bytes)
    requires 1 <= f.tag < TAG_LIMIT && FitsSlot(f, s) && PrefixesFitSlot(f, s)
    ensures EncodeSlot(f, s).Some?
    ensures Scan(EncodeSlot(f, s).value + x) == Prefixed(HeadsOf(f, s), Scan(x))
  {
    hide EncodeTagged, EncodeEach, EncodeItems, Fits, PrefixesFit, Scan, IsDefaultValue, Tag, Delimited;
    FittingSlotIsEncoded(f, s);
    if !Written(f, s) {
      assert [] + x == x;
      PrefixedNone(Scan(x));
    } else if !s.Many? {
      ValueHead(f, s.v, x);
      assert Repeat(Head(f.tag, WireType(f.ltype)), 1) == [Head(f.tag, WireType(f.ltype))];
    } else if Packable(f.ltype) {
      PackedHead(f, s.vs, x);
    } else {
      EntryHeads(f, s.vs, x);
    }
  }

  lemma {:induction false} FieldHeads(fields: seq<Field>, slots: seq<Slot>, k: nat)
    requires FitsAll(fields, slots) && k <= |fields| == |slots| && PrefixesFitAll(fields, slots)
    requires forall i :: 0 <= i < |fields| ==> 1 <= fields[i].tag < TAG_LIMIT
    ensures EncodeFrom(fields, slots, k).Some?
    ensures Scan(EncodeFrom(fields, slots, k).value) == Some(HeadsFrom(fields, slots, k))
    decreases |fields| - k
  {
    hide EncodeSlot, FitsSlot, PrefixesFitSlot, HeadsOf, Scan;
    if k == |fields| {
      assert Scan([]) == Some([]) by { NothingToScan(); }
    } else {
      FieldHeads(fields, slots, k + 1);
      SlotHeads(fields[k], slots[k], EncodeFrom(fields, slots, k + 1).value);
    }
  }

  lemma NothingToScan()
    ensures Scan([]) == Some([])
  {
  }

  /** An encoded message is on the wire what its fields are written as, in the order of the descriptor, and nothing
      else: each under its own tag and wire type, integer arrays packed, omitted fields not at all. */
  lemma EncodedIsFields(fields: seq<Field>, slots: seq<Slot>)
    requires FitsAll(fields, slots) && |fields| == |slots| && PrefixesFitAll(fields, slots)
    requires forall i :: 0 <= i < |fields| ==> 1 <= fields[i].tag < TAG_LIMIT
    ensures Encode(fields, slots).Some?
    ensures Scan(Encode(fields, slots).value) == Some(HeadsFrom(fields, slots, 0))
  {
    FieldHeads(fields, slots, 0);
  }

  // What cannot be encoded.

  /** The sizes that the encoder checks, at every depth of what is written: a byte array leaves room for its header, a
      text is no longer than its storage, and no array has more entries than its field. */
  predicate SizesOk(lt: LType, v: Value)
    decreases lt
  {
    match lt
    case Signed(size) => IntSize(size)
    case Unsigned(size) => IntSize(size)
    case ZigZagged(size) => IntSize(size)
    case ByteArray(dataSize) => v.Raw? && |v.b| + SIZE_HEADER <= dataSize
    case Text(dataSize) => v.Raw? && |v.b| <= dataSize
    case FixedBytes(dataSize) => v.Raw? && |v.b| == dataSize
    case Submessage(fields) => v.Message? && SizesOkAll(fields, v.slots)
    case _ => true
  }

  predicate SizesOkSlot(f: Field, s: Slot)
    decreases f
  {
    Written(f, s) ==>
    match s
    case One(v) => SizesOk(f.ltype, v)
    case Present(v) => SizesOk(f.ltype, v)
    case Many(vs) =>
      (f.htype.Repeated? ==> |vs| <= f.htype.arraySize) && forall i :: 0 <= i < |vs| ==> SizesOk(f.ltype, vs[i])
    case Absent => true
  }

  predicate SizesOkAll(fields: seq<Field>, slots: seq<Slot>)
    decreases fields
  {
    |slots| == |fields| && forall i :: 0 <= i < |fields| ==> SizesOkSlot(fields[i], slots[i])
  }

  lemma {:induction false} ValueIsEncoded(lt: LType, v: Value)
    requires Typed(lt, v)
    ensures EncodeValue(lt, v).Some? <==> SizesOk(lt, v)
    decreases lt, 0
  {
    hide TypedAll, SizesOkAll, EncodeFrom;
    if lt.Submessage? {
      TypedLength(lt.fields, v.slots);
      FieldsAreEncoded(lt.fields, v.slots, 0);
      AllOk(lt.fields, v.slots);
    }
  }

  lemma TypedLength(fields: seq<Field>, slots: seq<Slot>)
    requires TypedAll(fields, slots)
    ensures |slots| == |fields| && forall i :: 0 <= i < |fields| ==> TypedSlot(fields[i], slots[i])
  {
  }

  lemma AllOk(fields: seq<Field>, slots: seq<Slot>)
    requires |slots| == |fields|
    ensures SizesOkAll(fields, slots) <==> forall i :: 0 <= i < |fields| ==> SizesOkSlot(fields[i], slots[i])
  {
  }

  lemma {:induction false} FieldsAreEncoded(fields: seq<Field>, slots: seq<Slot>, k: nat)
    requires TypedAll(fields, slots) && k <= |fields| == |slots|
    ensures EncodeFrom(fields, slots, k).Some? <==> forall i :: k <= i < |fields| ==> SizesOkSlot(fields[i], slots[i])
    decreases fields, |fields| - k
  {
    hide EncodeSlot, TypedSlot, SizesOkSlot;
    if k == |fields| {
    } else {
      assert TypedSlot(fields[k], slots[k]);
      SlotIsEncoded(fields[k], slots[k]);
      FieldsAreEncoded(fields, slots, k + 1);
    }
  }

  lemma {:induction false} SlotIsEncoded(f: Field, s: Slot)
    requires TypedSlot(f, s)
    ensures EncodeSlot(f, s).Some? <==> SizesOkSlot(f, s)
    decreases f, 0
  {
    hide Typed, SizesOk, EncodeValue, IsDefaultValue, EncodeItems, EncodeEach, Delimited, Tag;
    if f.htype.Repeated? {
      EntriesAreEncoded(f, s.vs);
    } else if !s.Absent? {
      ValueIsEncoded(f.ltype, s.v);
    }
  }

  lemma {:induction false} EntriesAreEncoded(f: Field, vs: seq<Value>)
    requires forall i :: 0 <= i < |vs| ==> Typed(f.ltype, vs[i])
    ensures EncodeItems(f.ltype, vs).Some? <==> forall i :: 0 <= i < |vs| ==> SizesOk(f.ltype, vs[i])
    ensures EncodeEach(f, vs).Some? <==> forall i :: 0 <= i < |vs| ==> SizesOk(f.ltype, vs[i])
    decreases f.ltype, 1 + |vs|
  {
    hide Typed, SizesOk, EncodeValue, Tag;
    if vs == [] {
    } else {
      ValueIsEncoded(f.ltype, vs[0]);
      EntriesAreEncoded(f, vs[1..]);
      assert (forall i :: 0 <= i < |vs| ==> SizesOk(f.ltype, vs[i])) <==>
               SizesOk(f.ltype, vs[0]) && forall i :: 0 <= i < |vs[1..]| ==> SizesOk(f.ltype, vs[1..][i]) by {
        assert forall i :: 0 < i < |vs| ==> vs[i] == vs[1..][i - 1];
      }
    }
  }

  /** Any message that its struct can hold is encoded if and only if what is written of it keeps to these sizes. */
  lemma EncodedIff(fields: seq<Field>, slots: seq<Slot>)
    requires TypedAll(fields, slots)
    ensures |slots| == |fields| && (Encode(fields, slots).Some? <==> SizesOkAll(fields, slots))
  {
    TypedLength(fields, slots);
    FieldsAreEncoded(fields, slots, 0);
    AllOk(fields, slots);
  }

  // What is refused.

  /** Wire types that have no payload to be skipped, groups among them, make an unknown field an error. */
  lemma OnlyFourWireTypes(wireType: nat, s: Bytes)
    ensures Skip(wireType, s).Some? ==> wireType in {WT_VARINT, WT_64BIT, WT_STRING, WT_32BIT}
  {
  }

  /** A zero tag ends the message, whatever follows. */
  lemma ZeroEnds(fields: seq<Field>, st: Reading, rest: Bytes)
    requires st.Of(fields)
    ensures DecodeLoop(fields, st, [0] + rest) == Some(st)
  {
    hide Search;
    assert ([0] + rest)[0] == 0;
  }
}
