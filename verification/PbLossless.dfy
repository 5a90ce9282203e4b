/** When the message that comes back is the one that was encoded: for one message, and for all of a descriptor. */
module PbLossless {
  import opened Octets
  import opened Wrappers
  import opened PbVarint
  import opened PbMessage
  import opened PbRoundTrip

  // What is omitted.

  /** Zero, empty, or a message of nothing else: what pb_check_proto3_default_value looks for. */
  function ZeroValue(lt: LType): Value
    decreases lt
  {
    if lt.Submessage? then Message(ZeroSlots(lt.fields)) else DefaultValue(lt)
  }

  function ZeroSlot(f: Field): Slot
    decreases f
  {
    match f.htype
    case Required => One(ZeroValue(f.ltype))
    case Singular => One(ZeroValue(f.ltype))
    case Optional => Absent
    case Oneof(_) => Absent
    case Repeated(_) => Many([])
  }

  function ZeroSlots(fields: seq<Field>): (r: seq<Slot>)
    ensures |r| == |fields|
    ensures forall i :: 0 <= i < |fields| ==> r[i] == ZeroSlot(fields[i])
    decreases fields
  {
    seq(|fields|, i requires 0 <= i < |fields| => ZeroSlot(fields[i]))
  }

  /** A proto3 field is omitted only when it holds the zero of its type. */
  lemma {:induction false} OmittedIsZero(lt: LType, v: Value)
    requires IsDefaultValue(lt, v) && Fits(lt, v)
    ensures v == ZeroValue(lt)
    decreases lt
  {
    match lt
    case Submessage(fields) =>
      forall i | 0 <= i < |fields| ensures v.slots[i] == ZeroSlot(fields[i]) {
        OmittedSlotIsZero(fields[i], v.slots[i]);
      }
      assert v.slots == ZeroSlots(fields);
    case FixedBytes(n) => assert v.b == seq(n, _ => 0);
    case _ =>
  }

  lemma OmittedSlotIsZero(f: Field, s: Slot)
    requires IsDefault(f, s) && FitsSlot(f, s)
    ensures s == ZeroSlot(f)
    decreases f
  {
    if f.htype.Singular? {
      OmittedIsZero(f.ltype, s.v);
    }
  }

  // One message.

  predicate Kept(lt: LType, v: Value)
    decreases lt
  {
    lt.Submessage? && v.Message? && |v.slots| == |lt.fields| ==> KeptAll(lt.fields, v.slots)
  }

  predicate KeptSlot(f: Field, s: Slot)
    decreases f
  {
    if !Written(f, s) then f.htype.Singular? && s.One? ==> s.v == InitialValue(f)
    else match s
      case One(v) => Kept(f.ltype, v)
      case Present(v) => Kept(f.ltype, v)
      case Many(vs) => forall i :: 0 <= i < |vs| ==> Kept(f.ltype, vs[i])
      case Absent => true
  }

  /** Every proto3 value that is omitted, at any depth, is the one the decoder puts in its place. */
  predicate KeptAll(fields: seq<Field>, slots: seq<Slot>)
    requires |slots| == |fields|
    decreases fields
  {
    forall i :: 0 <= i < |fields| ==> KeptSlot(fields[i], slots[i])
  }

  lemma {:induction false} RestoredIsSame(fields: seq<Field>, slots: seq<Slot>)
    requires FitsAll(fields, slots) && |slots| == |fields|
    ensures RestoredAll(fields, slots) == slots <==> KeptAll(fields, slots)
    decreases fields
  {
    hide FitsSlot, KeptSlot, RestoredSlot;
    forall i | 0 <= i < |fields|
      ensures RestoredSlot(fields[i], slots[i]) == slots[i] <==> KeptSlot(fields[i], slots[i])
    {
      RestoredSlotIsSame(fields[i], slots[i]);
    }
    if KeptAll(fields, slots) {
      assert RestoredAll(fields, slots) == slots;
    }
  }

  lemma {:induction false} RestoredSlotIsSame(f: Field, s: Slot)
    requires FitsSlot(f, s)
    ensures RestoredSlot(f, s) == s <==> KeptSlot(f, s)
    decreases f
  {
    hide Restored, Kept, Fits, IsDefaultValue, InitialValue, DefaultValue;
    if !Written(f, s) {
    } else if f.htype.Repeated? {
      var lt := f.ltype;
      forall i | 0 <= i < |s.vs| ensures Restored(lt, s.vs[i]) == s.vs[i] <==> Kept(lt, s.vs[i]) {
        RestoredValueIsSame(lt, s.vs[i]);
      }
      var back := RestoredEach(lt, s.vs);
      assert forall i :: 0 <= i < |s.vs| ==> back[i] == Restored(lt, s.vs[i]);
      assert back == s.vs <==> forall i :: 0 <= i < |s.vs| ==> back[i] == s.vs[i];
    } else {
      RestoredValueIsSame(f.ltype, s.v);
    }
  }

  lemma {:induction false} RestoredValueIsSame(lt: LType, v: Value)
    requires Fits(lt, v)
    ensures Restored(lt, v) == v <==> Kept(lt, v)
    decreases lt
  {
    hide FitsAll, KeptAll, RestoredAll;
    if lt.Submessage? {
      FitsAllLength(lt.fields, v.slots);
      RestoredIsSame(lt.fields, v.slots);
    }
  }

  /** The same message comes back exactly when no submessage and no packed array in it takes 4 GiB or more, and every
      value that is omitted is what the decoder puts in its place. */
  lemma SameMessageReturns(fields: seq<Field>, slots: seq<Slot>)
    requires WellFormed(fields) && FitsAll(fields, slots) && |slots| == |fields|
    ensures Encode(fields, slots).Some?
    ensures |Encode(fields, slots).value| < P63 ==>
              (Decode(fields, Encode(fields, slots).value) == Some(slots)
               <==> PrefixesFitAll(fields, slots) && KeptAll(fields, slots))
  {
    hide WellFormed, FitsAll, PrefixesFitAll, KeptAll, RestoredAll, Decode, Encode;
    MessageRoundTrip(fields, slots);
    RestoredIsSame(fields, slots);
  }

  /** A proto3 field that declares another default than zero loses its zero, whatever message it is part of: the
      declared value comes back. */
  lemma DeclaredDefaultReplacesZero(fields: seq<Field>, slots: seq<Slot>, k: nat)
    requires WellFormed(fields) && FitsAll(fields, slots) && |slots| == |fields| && PrefixesFitAll(fields, slots)
    requires k < |fields| && fields[k].htype.Singular? && slots[k].One? && IsDefaultValue(fields[k].ltype, slots[k].v)
    ensures Encode(fields, slots).Some? && Decode(fields, Encode(fields, slots).value).Some?
    ensures var back := Decode(fields, Encode(fields, slots).value).value;
            && slots[k] == One(ZeroValue(fields[k].ltype))
            && back[k] == One(InitialValue(fields[k]))
  {
    hide WellFormed, Decode, Encode, IsDefaultValue, InitialValue, PrefixesFitAll;
    MessageRoundTrip(fields, slots);
    assert FitsSlot(fields[k], slots[k]);
    OmittedIsZero(fields[k].ltype, slots[k].v);
    assert RestoredAll(fields, slots)[k] == RestoredSlot(fields[k], slots[k]);
  }

  // All messages of a descriptor.

  /** The type has values within its bounds. */
  predicate Holdable(lt: LType)
    decreases lt
  {
    match lt
    case Signed(size) => IntSize(size)
    case Unsigned(size) => IntSize(size)
    case ZigZagged(size) => IntSize(size)
    case Fixed32 => true
    case Fixed64 => true
    case ByteArray(dataSize) => dataSize >= SIZE_HEADER
    case Text(dataSize) => dataSize >= 1
    case FixedBytes(dataSize) => dataSize < P32
    case Submessage(fields) => HoldableAll(fields)
  }

  predicate HoldableField(f: Field)
    decreases f
  {
    f.htype.Required? || f.htype.Singular? ==> Holdable(f.ltype)
  }

  /** There are messages within these bounds: the fields that always have a value can have one. */
  predicate HoldableAll(fields: seq<Field>)
    decreases fields
  {
    forall i :: 0 <= i < |fields| ==> HoldableField(fields[i])
  }

  /** A proto3 field that pb_encode omits at zero has zero for its default; and so on in submessages. */
  predicate KeepsZero(f: Field)
    decreases f
  {
    && (f.htype.Singular? && IsDefaultValue(f.ltype, DefaultValue(f.ltype)) && !f.ltype.Submessage? ==>
          InitialValue(f) == DefaultValue(f.ltype))
    && (f.ltype.Submessage? && !(f.htype.Repeated? && f.htype.arraySize == 0) ==> KeepsZeros(f.ltype.fields))
  }

  predicate KeepsZeros(fields: seq<Field>)
    decreases fields
  {
    HoldableAll(fields) ==> forall i :: 0 <= i < |fields| ==> KeepsZero(fields[i])
  }

  lemma {:induction false} FittingIsHoldable(lt: LType, v: Value)
    requires Fits(lt, v)
    ensures Holdable(lt)
    decreases lt
  {
    match lt
    case Submessage(fields) => FittingAreHoldable(fields, v.slots);
    case _ =>
  }

  lemma {:induction false} FittingAreHoldable(fields: seq<Field>, slots: seq<Slot>)
    requires FitsAll(fields, slots)
    ensures HoldableAll(fields)
    decreases fields
  {
    forall i | 0 <= i < |fields| ensures HoldableField(fields[i]) {
      FittingSlotIsHoldable(fields[i], slots[i]);
    }
  }

  lemma {:induction false} FittingSlotIsHoldable(f: Field, s: Slot)
    requires FitsSlot(f, s)
    ensures HoldableField(f)
    decreases f
  {
    if f.htype.Required? || f.htype.Singular? {
      FittingIsHoldable(f.ltype, s.v);
    }
  }

  lemma {:induction false} ZeroFits(lt: LType)
    requires Holdable(lt)
    ensures Fits(lt, ZeroValue(lt))
    decreases lt
  {
    match lt
    case Submessage(fields) => ZerosFit(fields);
    case _ => Bounds();
  }

  lemma {:induction false} ZerosFit(fields: seq<Field>)
    requires HoldableAll(fields)
    ensures FitsAll(fields, ZeroSlots(fields))
    decreases fields
  {
    hide Fits, HoldableField, ZeroValue;
    forall i | 0 <= i < |fields| ensures FitsSlot(fields[i], ZeroSlots(fields)[i]) {
      ZeroFitsSlot(fields[i]);
    }
  }

  lemma {:induction false} ZeroFitsSlot(f: Field)
    requires HoldableField(f)
    ensures FitsSlot(f, ZeroSlot(f))
    decreases f
  {
    hide Fits, Holdable, ZeroValue;
    if f.htype.Required? || f.htype.Singular? {
      ZeroFits(f.ltype);
    }
  }

  /** The decoder's own defaults always come back. */
  lemma {:induction false} DefaultsAreKept(fields: seq<Field>)
    ensures KeptAll(fields, DefaultSlots(fields))
    decreases fields
  {
    forall i | 0 <= i < |fields| ensures KeptSlot(fields[i], DefaultSlots(fields)[i]) {
      DefaultIsKept(fields[i]);
    }
  }

  lemma {:induction false} DefaultIsKept(f: Field)
    ensures KeptSlot(f, DefaultSlot(f))
    decreases f
  {
    hide KeptAll;
    if f.ltype.Submessage? {
      DefaultsAreKept(f.ltype.fields);
      InitialOf(f);
    }
  }

  /** With defaults that are zero, what is omitted is the default. */
  lemma {:induction false} OmittedIsDefault(lt: LType, v: Value)
    requires IsDefaultValue(lt, v) && Fits(lt, v) && (lt.Submessage? ==> KeepsZeros(lt.fields))
    ensures v == DefaultValue(lt)
    decreases lt, 1
  {
    match lt
    case Submessage(fields) =>
      FittingAreHoldable(fields, v.slots);
      forall i | 0 <= i < |fields| ensures v.slots[i] == DefaultSlot(fields[i]) {
        OmittedSlotIsDefault(fields[i], v.slots[i]);
      }
      assert v.slots == DefaultSlots(fields);
    case _ => OmittedIsZero(lt, v);
  }

  lemma OmittedSlotIsDefault(f: Field, s: Slot)
    requires IsDefault(f, s) && FitsSlot(f, s) && KeepsZero(f)
    ensures s == DefaultSlot(f)
    decreases f
  {
    if f.htype.Singular? {
      OmittedIsDefault(f.ltype, s.v);
    }
  }

  lemma {:induction false} ZeroDefaultsKeep(fields: seq<Field>, slots: seq<Slot>)
    requires KeepsZeros(fields) && FitsAll(fields, slots) && |slots| == |fields|
    ensures KeptAll(fields, slots)
    decreases fields
  {
    hide KeepsZero, KeptSlot, FitsSlot;
    FittingAreHoldable(fields, slots);
    forall i | 0 <= i < |fields| ensures KeptSlot(fields[i], slots[i]) {
      ZeroDefaultKeeps(fields[i], slots[i]);
    }
  }

  lemma {:induction false} ZeroDefaultKeeps(f: Field, s: Slot)
    requires KeepsZero(f) && FitsSlot(f, s)
    ensures KeptSlot(f, s)
    decreases f
  {
    hide IsDefaultValue, InitialValue, KeepsZeros, KeptAll, FitsAll, DefaultValue;
    if f.htype.Singular? && !Written(f, s) {
      OmittedIsDefault(f.ltype, s.v);
      InitialOf(f);
    } else if f.htype.Repeated? {
      forall i | 0 <= i < |s.vs| ensures Kept(f.ltype, s.vs[i]) {
        ZeroDefaultsKeepValue(f.ltype, s.vs[i]);
      }
    } else if !s.Absent? {
      ZeroDefaultsKeepValue(f.ltype, s.v);
    }
  }

  lemma InitialOf(f: Field)
    ensures f.ltype.Submessage? ==> InitialValue(f) == DefaultValue(f.ltype)
  {
  }

  lemma {:induction false} ZeroDefaultsKeepValue(lt: LType, v: Value)
    requires Fits(lt, v) && (lt.Submessage? ==> KeepsZeros(lt.fields))
    ensures Kept(lt, v)
    decreases lt
  {
    hide KeepsZeros, KeptAll;
    if lt.Submessage? {
      FitsAllLength(lt.fields, v.slots);
      ZeroDefaultsKeep(lt.fields, v.slots);
    }
  }

  lemma DescriptorReturns(fields: seq<Field>, slots: seq<Slot>)
    requires WellFormed(fields) && KeepsZeros(fields) && FitsAll(fields, slots) && |slots| == |fields|
    ensures Encode(fields, slots).Some?
    ensures PrefixesFitAll(fields, slots) ==> Decode(fields, Encode(fields, slots).value) == Some(slots)
  {
    hide WellFormed, KeepsZeros, FitsAll, PrefixesFitAll, KeptAll, RestoredAll, Decode, Encode;
    ZeroDefaultsKeep(fields, slots);
    MessageRoundTrip(fields, slots);
    RestoredIsSame(fields, slots);
  }

  /** Otherwise some message within its bounds does not come back: the field is left at zero and all else too. */
  lemma {:induction false} LostZero(fields: seq<Field>) returns (slots: seq<Slot>)
    requires !KeepsZeros(fields)
    ensures |slots| == |fields| && FitsAll(fields, slots) && !KeptAll(fields, slots)
    decreases fields
  {
    hide KeptSlot, FitsSlot, KeepsZero;
    var k :| 0 <= k < |fields| && !KeepsZero(fields[k]);
    ZerosFit(fields);
    assert HoldableField(fields[k]);
    var s := LostZeroIn(fields[k]);
    slots := ZeroSlots(fields)[k := s];
    forall i | 0 <= i < |fields| ensures FitsSlot(fields[i], slots[i]) {
      assert FitsSlot(fields[i], ZeroSlots(fields)[i]);
    }
    forall i, j | 0 <= i < j < |fields| && SameGroup(fields[i], fields[j])
      ensures slots[i].Absent? || slots[j].Absent?
    {
      assert ZeroSlots(fields)[i] == ZeroSlot(fields[i]) && ZeroSlots(fields)[j] == ZeroSlot(fields[j]);
    }
    assert slots[k] == s;
  }

  lemma {:induction false} LostZeroIn(f: Field) returns (s: Slot)
    requires !KeepsZero(f) && HoldableField(f)
    ensures FitsSlot(f, s) && !KeptSlot(f, s)
    decreases f
  {
    if f.ltype.Submessage? {
      hide KeepsZeros, FitsAll, IsDefaultValue, DefaultSlots;
      var inner := LostZero(f.ltype.fields);
      var v := Message(inner);
      DefaultsAreKept(f.ltype.fields);
      assert v != DefaultValue(f.ltype);
      InitialOf(f);
      assert !Kept(f.ltype, v);
      match f.htype
      case Required => s := One(v);
      case Singular => s := One(v);
      case Optional => s := Present(v);
      case Oneof(_) => s := Present(v);
      case Repeated(_) =>
        s := Many([v]);
        assert s.vs[0] == v;
    } else {
      ZeroFits(f.ltype);
      s := One(DefaultValue(f.ltype));
    }
  }

  /** All messages of a descriptor come back, as far as lengths allow, exactly when every proto3 field that is omitted
      at zero has zero for its default. */
  lemma EveryMessageReturns(fields: seq<Field>)
    ensures KeepsZeros(fields) <==>
              forall slots :: |slots| == |fields| && FitsAll(fields, slots) ==> KeptAll(fields, slots)
  {
    hide KeepsZeros, FitsAll, KeptAll;
    if KeepsZeros(fields) {
      forall slots | |slots| == |fields| && FitsAll(fields, slots) ensures KeptAll(fields, slots) {
        ZeroDefaultsKeep(fields, slots);
      }
    } else {
      var slots := LostZero(fields);
    }
  }

  // A length that 32 bits do not hold.

  /** pb_encode writes any array of 2^29 and more 64-bit integers that its field has room for, and pb_decode refuses
      what it wrote. */
  lemma LongArrayIsRefused(f: Field, vs: seq<Value>)
    requires 1 <= f.tag < TAG_LIMIT && f.ltype.Fixed64? && f.htype.Repeated? && |vs| <= f.htype.arraySize
    requires P32 <= 8 * |vs| < P63 / 2 && forall i :: 0 <= i < |vs| ==> Fits(Fixed64, vs[i])
    ensures WellFormed([f]) && FitsAll([f], [Many(vs)])
    ensures Encode([f], [Many(vs)]).Some? && Decode([f], Encode([f], [Many(vs)]).value) == None
  {
    hide Encode, Decode, EncodeItems, Varint;
    var slots := [Many(vs)];
    assert FitsSlot(f, slots[0]);
    MessageRoundTrip([f], slots);
    FixedItems(f.ltype, vs);
    var items := EncodeItems(f.ltype, vs).value;
    assert !PrefixesFitSlot(f, slots[0]);
    VarintIsShort(f.tag * 8 + WT_STRING);
    VarintIsShort(|items|);
    AloneEncoded(f, slots[0]);
  }

  lemma AloneEncoded(f: Field, s: Slot)
    ensures Encode([f], [s]) == EncodeSlot(f, s)
  {
    var nothing: Bytes := [];
    assert EncodeFrom([f], [s], 1) == Some(nothing);
    if EncodeSlot(f, s).Some? { assert EncodeSlot(f, s).value + nothing == EncodeSlot(f, s).value; }
  }
}
