/** What a decoder makes of a field that comes more than once, or into storage that holds something already: the
    merging that the wire format promises. */
module PbMerge {
  import opened Octets
  import opened Wrappers
  import opened PbVarint
  import opened PbMessage
  import opened PbRoundTrip

  // Arrays in pieces.

  /** A stretch of a repeated field: one packed array, or one entry after the other. */
  datatype Piece = Packed(vs: seq<Value>) | Unpacked(vs: seq<Value>)

  function PieceBytes(f: Field, p: Piece): Option<Bytes> {
    match p
    case Packed(vs) =>
      (match EncodeItems(f.ltype, vs)
       case None => None
       case Some(items) => Some(Tag(f, WT_STRING) + Delimited(items)))
    case Unpacked(vs) => EncodeEach(f, vs)
  }

  function PiecesBytes(f: Field, ps: seq<Piece>): Option<Bytes> {
    if ps == [] then Some([]) else Then(PieceBytes(f, ps[0]), PiecesBytes(f, ps[1..]))
  }

  function Entries(ps: seq<Piece>): seq<Value> {
    if ps == [] then [] else ps[0].vs + Entries(ps[1..])
  }

  ghost predicate PieceOk(f: Field, p: Piece) {
    && p.vs != [] && (forall i :: 0 <= i < |p.vs| ==> Fits(f.ltype, p.vs[i]))
    && (p.Packed? ==> ShorterThan4GiB(EncodeItems(f.ltype, p.vs)))
  }

  lemma PieceStep(fields: seq<Field>, st: Reading, k: nat, done: seq<Value>, p: Piece, rest: Bytes)
    requires WellFormed(fields) && st.Of(fields) && k < |fields| && st.slots[k] == Many(done)
    requires fields[k].htype.Repeated? && Packable(fields[k].ltype) && PieceOk(fields[k], p)
    requires |done| + |p.vs| <= fields[k].htype.arraySize
    ensures PieceBytes(fields[k], p).Some?
    ensures DecodeLoop(fields, st, PieceBytes(fields[k], p).value + rest)
         == DecodeLoop(fields, Filled(st, k, Many(done + p.vs)), rest)
  {
    hide DecodeLoop, EncodeItems, EncodeEach, Fits, WellFormed, Tag, Delimited;
    match p
    case Packed(vs) => PackedStep(fields, st, k, done, vs, rest);
    case Unpacked(vs) =>
      ItemsPrefixesFit(fields[k].ltype, vs);
      ItemsRestored(fields[k].ltype, vs);
      EachStep(fields, st, k, done, vs, rest);
  }

  /** Packed and unpacked stretches of an integer array may be mixed: their entries follow one another, behind those
      that are there already. */
  lemma {:induction false} PiecesFollow(fields: seq<Field>, st: Reading, k: nat, done: seq<Value>, ps: seq<Piece>,
                                        rest: Bytes)
    requires WellFormed(fields) && st.Of(fields) && k < |fields| && st.slots[k] == Many(done)
    requires fields[k].htype.Repeated? && Packable(fields[k].ltype)
    requires forall i :: 0 <= i < |ps| ==> PieceOk(fields[k], ps[i])
    requires |done| + |Entries(ps)| <= fields[k].htype.arraySize
    ensures PiecesBytes(fields[k], ps).Some?
    ensures DecodeLoop(fields, st, PiecesBytes(fields[k], ps).value + rest)
         == DecodeLoop(fields, if ps == [] then st else Filled(st, k, Many(done + Entries(ps))), rest)
    decreases |ps|
  {
    hide DecodeLoop, PieceBytes, PieceOk, WellFormed;
    if ps == [] {
      assert [] + rest == rest;
    } else {
      var p, tail := ps[0], ps[1..];
      var st' := Filled(st, k, Many(done + p.vs));
      PiecesFollow(fields, st', k, done + p.vs, tail, rest);
      var first, others := PieceBytes(fields[k], p), PiecesBytes(fields[k], tail).value;
      PieceStep(fields, st, k, done, p, others + rest);
      assert first.value + others + rest == first.value + (others + rest);
      assert done + p.vs + Entries(tail) == done + Entries(ps);
      if tail == [] {
        assert done + p.vs == done + Entries(ps);
      } else {
        assert Filled(st', k, Many(done + Entries(ps))) == Filled(st, k, Many(done + Entries(ps)));
      }
    }
  }

  /** A whole integer array on the wire, in whatever pieces, is read as the entries in order. */
  lemma ArrayInPieces(f: Field, ps: seq<Piece>)
    requires 1 <= f.tag < TAG_LIMIT && f.htype.Repeated? && Packable(f.ltype)
    requires (forall i :: 0 <= i < |ps| ==> PieceOk(f, ps[i])) && |Entries(ps)| <= f.htype.arraySize
    ensures PiecesBytes(f, ps).Some? && Decode([f], PiecesBytes(f, ps).value) == Some([Many(Entries(ps))])
  {
    hide DecodeLoop, PieceOk, PiecesBytes, Entries;
    var st := Reading(DefaultSlots([f]), {}, 0);
    assert st.slots == [Many([])];
    assert st.slots[0] == Many([]);
    FieldAlone(f);
    PiecesFollow([f], st, 0, [], ps, []);
    assert PiecesBytes(f, ps).value + [] == PiecesBytes(f, ps).value;
    assert [] + Entries(ps) == Entries(ps);
    NoEntries();
    var st' := if ps == [] then st else Filled(st, 0, Many(Entries(ps)));
    NothingMore([f], st');
    assert st'.slots == [Many(Entries(ps))];
  }

  lemma FieldAlone(f: Field)
    requires WellFormedField(f)
    ensures WellFormed([f])
  {
  }

  lemma NoEntries()
    ensures Entries([]) == []
  {
  }

  lemma NothingMore(fields: seq<Field>, st: Reading)
    requires st.Of(fields)
    ensures DecodeLoop(fields, st, []) == Some(st)
  {
  }

  /** An entry for which the array has no room ends the decoding. */
  lemma EntryTooMany(fields: seq<Field>, st: Reading, k: nat, v: Value, rest: Bytes)
    requires WellFormed(fields) && st.Of(fields) && k < |fields| && st.slots[k].Many?
    requires fields[k].htype.Repeated? && |st.slots[k].vs| >= fields[k].htype.arraySize && Fits(fields[k].ltype, v)
    requires WireType(fields[k].ltype) != WT_STRING || !Packable(fields[k].ltype)
    ensures EncodeTagged(fields[k], v).Some? ==>
              DecodeLoop(fields, st, EncodeTagged(fields[k], v).value + rest) == None
  {
    hide DecodeLoop, WellFormed, EncodeValue, DecodeValue, Tag, Fits;
    if EncodeTagged(fields[k], v).Some? {
      FieldFails(fields, st, k, WireType(fields[k].ltype), EncodeValue(fields[k].ltype, v).value, rest);
    }
  }

  // Merging.

  /** What a value that is read becomes, given what its storage held: a submessage is merged field by field, anything
      else replaces what was there. */
  function MergedValue(lt: LType, was: Value, v: Value): Value
    decreases lt
  {
    if lt.Submessage? && v.Message? && |v.slots| == |lt.fields|
    then Message(MergedAll(lt.fields, SlotsOf(lt.fields, was), v.slots))
    else v
  }

  /** A field that is read: the last value counts, submessages are merged, entries are appended, and a member of a
      oneof starts afresh. */
  function MergedSlot(f: Field, was: Slot, s: Slot): Slot
    decreases f
  {
    match s
    case One(v) => One(MergedValue(f.ltype, if was.One? then was.v else DefaultValue(f.ltype), v))
    case Present(v) =>
      if f.htype.Oneof? then Present(Restored(f.ltype, v))
      else Present(MergedValue(f.ltype, if was.Present? then was.v else DefaultValue(f.ltype), v))
    case Many(vs) => Many((if was.Many? then was.vs else []) + RestoredEach(f.ltype, vs))
    case Absent => was
  }

  /** Another member of i's oneof is read. */
  ghost predicate Displaced(fields: seq<Field>, slots: seq<Slot>, k: nat, i: nat)
    requires i < |fields| == |slots|
  {
    exists j: nat :: j < k && j < |fields| && SameGroup(fields[i], fields[j]) && Written(fields[j], slots[j])
  }

  function MergedAll(fields: seq<Field>, was: seq<Slot>, slots: seq<Slot>): (r: seq<Slot>)
    requires |was| == |slots| == |fields|
    ensures |r| == |fields|
    ensures forall i :: 0 <= i < |fields| ==>
              r[i] == if Written(fields[i], slots[i]) then MergedSlot(fields[i], was[i], slots[i])
                      else if Displaced(fields, slots, |fields|, i) then Absent
                      else was[i]
    decreases fields
  {
    seq(|fields|, i requires 0 <= i < |fields| =>
      if Written(fields[i], slots[i]) then MergedSlot(fields[i], was[i], slots[i])
      else if exists j: nat :: j < |fields| && SameGroup(fields[i], fields[j]) && Written(fields[j], slots[j])
      then Absent
      else was[i])
  }

  // Room: arrays that are appended to must not grow beyond their size.

  predicate RoomValue(lt: LType, was: Value, v: Value)
    decreases lt
  {
    lt.Submessage? && v.Message? && |v.slots| == |lt.fields| ==> RoomAll(lt.fields, SlotsOf(lt.fields, was), v.slots)
  }

  predicate RoomSlot(f: Field, was: Slot, s: Slot)
    decreases f
  {
    Written(f, s) ==>
    match s
    case One(v) => RoomValue(f.ltype, if was.One? then was.v else DefaultValue(f.ltype), v)
    case Present(v) =>
      f.htype.Oneof? || RoomValue(f.ltype, if was.Present? then was.v else DefaultValue(f.ltype), v)
    case Many(vs) => was.Many? && (f.htype.Repeated? ==> |was.vs| + |vs| <= f.htype.arraySize)
    case Absent => true
  }

  predicate RoomAll(fields: seq<Field>, was: seq<Slot>, slots: seq<Slot>)
    requires |was| == |slots| == |fields|
    decreases fields
  {
    forall i :: 0 <= i < |fields| ==> RoomSlot(fields[i], was[i], slots[i])
  }

  lemma {:induction false} ValueMerges(lt: LType, was: Value, v: Value, rest: Bytes)
    requires Fits(lt, v) && WellFormedType(lt) && PrefixesFit(lt, v) && RoomValue(lt, was, v)
    ensures EncodeValue(lt, v).Some?
    ensures DecodeValue(lt, was, EncodeValue(lt, v).value + rest) == Some((MergedValue(lt, was, v), rest))
    decreases lt, 0
  {
    hide FitsAll, WellFormed, EncodeFrom, DecodeMessage, PrefixesFitAll, RoomAll, MergedAll, RestoredAll, Delimited,
         ReadDelimited, Varint, Decode64, Decode32, LittleEndian, FromLittleEndian, UpToZero, Bound, ZigZag64;
    if lt.Submessage? {
      FitsAllLength(lt.fields, v.slots);
      MessageMerges(lt.fields, SlotsOf(lt.fields, was), v.slots);
      DelimitedRoundTrip(EncodeFrom(lt.fields, v.slots, 0).value, rest);
    } else {
      ValueRoundTrip(lt, v, rest);
      StorageDoesNotMatter(lt, DefaultValue(lt), was, EncodeValue(lt, v).value + rest);
    }
  }

  /** A field that has one value. */
  lemma {:induction false} OneMerges(fields: seq<Field>, st: Reading, k: nat, s: Slot, rest: Bytes)
    requires WellFormed(fields) && st.Of(fields) && k < |fields| && FitsSlot(fields[k], s)
    requires !fields[k].htype.Repeated? && Written(fields[k], s)
    requires PrefixesFitSlot(fields[k], s) && RoomSlot(fields[k], st.slots[k], s)
    ensures EncodeSlot(fields[k], s).Some?
    ensures DecodeLoop(fields, st, EncodeSlot(fields[k], s).value + rest)
         == DecodeLoop(fields, st.Took(fields, k, MergedSlot(fields[k], st.slots[k], s)), rest)
    decreases fields[k], 1
  {
    hide DecodeLoop, DecodeValue, EncodeValue, Store, Fits, Tag, WellFormed, WellFormedType, InitialValue, PrefixesFit,
         Restored, MergedValue, RoomValue, IsDefaultValue, DefaultValue;
    var f := fields[k];
    assert WellFormedField(f) by { FieldIsWellFormed(fields, k); }
    if f.htype.Oneof? {
      ValueRoundTrip(f.ltype, s.v, rest);
    } else {
      ValueMerges(f.ltype, Was(f, st.slots[k]), s.v, rest);
    }
    var payload := EncodeValue(f.ltype, s.v).value;
    FieldStep(fields, st, k, WireType(f.ltype), payload, MergedSlot(f, st.slots[k], s), rest);
  }

  /** What a value is decoded into. */
  function Was(f: Field, was: Slot): Value {
    if f.htype.Optional? then (if was.Present? then was.v else DefaultValue(f.ltype))
    else if was.One? then was.v else DefaultValue(f.ltype)
  }

  /** What the loop has read after field k. */
  function Next(fields: seq<Field>, st: Reading, k: nat, s: Slot): (r: Reading)
    requires st.Of(fields) && k < |fields|
    ensures r.Of(fields)
  {
    if Written(fields[k], s) then st.Took(fields, k, MergedSlot(fields[k], st.slots[k], s)) else st
  }

  lemma {:induction false} SlotMerges(fields: seq<Field>, st: Reading, k: nat, s: Slot, rest: Bytes)
    requires WellFormed(fields) && st.Of(fields) && k < |fields| && FitsSlot(fields[k], s)
    requires PrefixesFitSlot(fields[k], s) && RoomSlot(fields[k], st.slots[k], s)
    ensures EncodeSlot(fields[k], s).Some?
    ensures DecodeLoop(fields, st, EncodeSlot(fields[k], s).value + rest)
         == DecodeLoop(fields, Next(fields, st, k, s), rest)
    decreases fields[k], 2
  {
    hide DecodeLoop, EncodeTagged, EncodeEach, EncodeItems, Fits, WellFormed, Tag, Delimited, IsDefaultValue,
         DefaultValue, InitialValue, PrefixesFit, Restored, RestoredEach, RoomValue, MergedValue, Reading.Took;
    var f := fields[k];
    if !Written(f, s) {
      assert [] + rest == rest;
    } else if !f.htype.Repeated? {
      OneMerges(fields, st, k, s, rest);
    } else {
      var done := st.slots[k].vs;
      TookAlone(fields, st, k, Many(done + RestoredEach(f.ltype, s.vs)));
      if Packable(f.ltype) {
        ItemsRestored(f.ltype, s.vs);
        PackedStep(fields, st, k, done, s.vs, rest);
      } else {
        EachStep(fields, st, k, done, s.vs, rest);
      }
    }
  }

  /** The storage when the first k fields have been read into `was`. */
  ghost function MergedSoFar(fields: seq<Field>, was: seq<Slot>, slots: seq<Slot>, k: nat): (r: seq<Slot>)
    requires k <= |fields| == |was| == |slots|
    ensures |r| == |fields|
    ensures forall i :: 0 <= i < |fields| ==>
              r[i] == if i < k && Written(fields[i], slots[i]) then MergedSlot(fields[i], was[i], slots[i])
                      else if Displaced(fields, slots, k, i) then Absent
                      else was[i]
  {
    seq(|fields|, i requires 0 <= i < |fields| =>
      if i < k && Written(fields[i], slots[i]) then MergedSlot(fields[i], was[i], slots[i])
      else if Displaced(fields, slots, k, i) then Absent
      else was[i])
  }

  /** Members of a oneof that are not the one read next have not been read. */
  lemma OneOfEach(fields: seq<Field>, slots: seq<Slot>, i: nat, k: nat)
    requires FitsAll(fields, slots) && i < |fields| && k < |fields| && i != k && SameGroup(fields[i], fields[k])
    requires Written(fields[k], slots[k])
    ensures !Written(fields[i], slots[i])
  {
    hide FitsSlot;
    assert if i < k then SameGroup(fields[i], fields[k]) else SameGroup(fields[k], fields[i]);
  }

  lemma DisplacedByOneMore(fields: seq<Field>, slots: seq<Slot>, k: nat, i: nat)
    requires k < |fields| == |slots| && i < |fields|
    ensures Displaced(fields, slots, k + 1, i) <==>
              Displaced(fields, slots, k, i) || (SameGroup(fields[i], fields[k]) && Written(fields[k], slots[k]))
  {
    hide Written;
  }

  lemma NextSoFar(fields: seq<Field>, was: seq<Slot>, slots: seq<Slot>, k: nat, st: Reading)
    requires FitsAll(fields, slots) && k < |fields| == |was| == |slots| && st.Of(fields)
    requires st.slots == MergedSoFar(fields, was, slots, k)
    ensures Next(fields, st, k, slots[k]).slots == MergedSoFar(fields, was, slots, k + 1)
    ensures RoomSlot(fields[k], st.slots[k], slots[k]) == RoomSlot(fields[k], was[k], slots[k])
    ensures FitsSlot(fields[k], slots[k])
  {
    hide Next, MergedSoFar, FitsSlot, RoomSlot, Written;
    assert FitsSlot(fields[k], slots[k]);
    StillThere(fields, was, slots, k);
    SameMerge(fields[k], was[k], st.slots[k], slots[k]);
    var st' := Next(fields, st, k, slots[k]);
    forall i | 0 <= i < |fields| ensures st'.slots[i] == MergedSoFar(fields, was, slots, k + 1)[i] {
      NextAt(fields, was, slots, k, st, i);
    }
  }

  /** What a member of a oneof held before does not matter. */
  lemma SameMerge(f: Field, was: Slot, was': Slot, s: Slot)
    requires FitsSlot(f, s) && (!f.htype.Oneof? ==> was' == was)
    ensures RoomSlot(f, was', s) == RoomSlot(f, was, s)
    ensures Written(f, s) ==> MergedSlot(f, was', s) == MergedSlot(f, was, s)
  {
    hide IsDefaultValue, MergedValue, RoomValue, RestoredEach, Restored, DefaultValue, Fits;
  }

  lemma NextAt(fields: seq<Field>, was: seq<Slot>, slots: seq<Slot>, k: nat, st: Reading, i: nat)
    requires FitsAll(fields, slots) && k < |fields| == |was| == |slots| && st.Of(fields) && i < |fields|
    requires st.slots == MergedSoFar(fields, was, slots, k)
    requires Written(fields[k], slots[k]) ==>
               MergedSlot(fields[k], st.slots[k], slots[k]) == MergedSlot(fields[k], was[k], slots[k])
    ensures Next(fields, st, k, slots[k]).slots[i] == MergedSoFar(fields, was, slots, k + 1)[i]
  {
    hide Displaced, FitsAll, FitsSlot, Written, MergedSlot;
    DisplacedByOneMore(fields, slots, k, i);
    if i != k && SameGroup(fields[i], fields[k]) && Written(fields[k], slots[k]) {
      OneOfEach(fields, slots, i, k);
    }
  }

  /** A field that is no member of a oneof still holds what it held. */
  lemma StillThere(fields: seq<Field>, was: seq<Slot>, slots: seq<Slot>, k: nat)
    requires k < |fields| == |was| == |slots|
    ensures !fields[k].htype.Oneof? ==> MergedSoFar(fields, was, slots, k)[k] == was[k]
  {
  }

  lemma {:induction false} FieldsMerge(fields: seq<Field>, was: seq<Slot>, slots: seq<Slot>, k: nat, st: Reading,
                                       rest: Bytes)
    returns (st': Reading)
    requires WellFormed(fields) && FitsAll(fields, slots) && k <= |fields| == |slots| == |was| && st.Of(fields)
    requires PrefixesFitAll(fields, slots) && RoomAll(fields, was, slots)
    requires st.slots == MergedSoFar(fields, was, slots, k) && AllSeen(fields, st.seen, k)
    ensures EncodeFrom(fields, slots, k).Some? && st'.Of(fields)
    ensures DecodeLoop(fields, st, EncodeFrom(fields, slots, k).value + rest) == DecodeLoop(fields, st', rest)
    ensures st'.slots == MergedAll(fields, was, slots) && AllSeen(fields, st'.seen, |fields|)
    decreases fields, 1, |fields| - k
  {
    hide EncodeSlot, WellFormed, FitsAll, FitsSlot, PrefixesFitSlot, RoomSlot, MergedSlot, DecodeLoop, Displaced;
    if k == |fields| {
      st' := st;
      assert [] + rest == rest;
      assert st.slots == MergedAll(fields, was, slots);
    } else {
      NextSoFar(fields, was, slots, k, st);
      st' := FieldsMerge(fields, was, slots, k + 1, Next(fields, st, k, slots[k]), rest);
      var first, others := EncodeSlot(fields[k], slots[k]), EncodeFrom(fields, slots, k + 1).value;
      SlotMerges(fields, st, k, slots[k], others + rest);
      assert first.value + others + rest == first.value + (others + rest);
    }
  }

  lemma NothingSoFar(fields: seq<Field>, was: seq<Slot>, slots: seq<Slot>)
    requires |fields| == |was| == |slots|
    ensures MergedSoFar(fields, was, slots, 0) == was
  {
    assert forall i: nat :: i < |fields| ==> !Displaced(fields, slots, 0, i);
  }

  /** pb_decode_noinit into a message that holds something: what was encoded is merged into it. */
  lemma {:induction false} MessageMerges(fields: seq<Field>, was: seq<Slot>, slots: seq<Slot>)
    requires WellFormed(fields) && FitsAll(fields, slots) && |slots| == |fields| == |was|
    requires PrefixesFitAll(fields, slots) && RoomAll(fields, was, slots)
    ensures Encode(fields, slots).Some?
    ensures DecodeMessage(fields, was, Encode(fields, slots).value) == Some(MergedAll(fields, was, slots))
    decreases fields, 2
  {
    hide DecodeLoop, WellFormed, FitsAll, PrefixesFitAll, RoomAll, MergedAll, MergedSoFar, EncodeFrom;
    NothingSoFar(fields, was, slots);
    var st := FieldsMerge(fields, was, slots, 0, Reading(was, {}, 0), []);
    var s := EncodeFrom(fields, slots, 0).value;
    assert s + [] == s;
    NothingMore(fields, st);
  }

  // Merging into defaults, and concatenation.

  lemma {:induction false} ValueIntoDefault(lt: LType, v: Value)
    requires Fits(lt, v)
    ensures RoomValue(lt, DefaultValue(lt), v) && MergedValue(lt, DefaultValue(lt), v) == Restored(lt, v)
    decreases lt
  {
    hide FitsAll, RoomAll, MergedAll, RestoredAll;
    if lt.Submessage? {
      FitsAllLength(lt.fields, v.slots);
      IntoDefaults(lt.fields, v.slots);
    }
  }

  lemma {:induction false} SlotIntoDefault(f: Field, s: Slot)
    requires FitsSlot(f, s)
    ensures RoomSlot(f, DefaultSlot(f), s)
    ensures Written(f, s) ==> MergedSlot(f, DefaultSlot(f), s) == RestoredSlot(f, s)
    decreases f
  {
    hide Fits, IsDefaultValue, DefaultValue, RoomValue, MergedValue, Restored;
    if Written(f, s) && f.htype.Repeated? {
      assert [] + RestoredEach(f.ltype, s.vs) == RestoredEach(f.ltype, s.vs);
    } else if Written(f, s) {
      InitialIsDefault(f);
      if f.ltype.Submessage? || f.htype.Optional? {
        ValueIntoDefault(f.ltype, s.v);
      } else {
        NoSubmessage(f.ltype, InitialValue(f), s.v);
      }
    }
  }

  lemma InitialIsDefault(f: Field)
    ensures f.ltype.Submessage? ==> InitialValue(f) == DefaultValue(f.ltype)
  {
  }

  lemma NoSubmessage(lt: LType, was: Value, v: Value)
    requires !lt.Submessage?
    ensures RoomValue(lt, was, v) && MergedValue(lt, was, v) == v == Restored(lt, v)
  {
  }

  /** Merging into defaults is what decoding a single message comes to. */
  lemma {:induction false} IntoDefaults(fields: seq<Field>, slots: seq<Slot>)
    requires FitsAll(fields, slots) && |slots| == |fields|
    ensures RoomAll(fields, DefaultSlots(fields), slots)
    ensures MergedAll(fields, DefaultSlots(fields), slots) == RestoredAll(fields, slots)
    decreases fields
  {
    hide RoomSlot, MergedSlot, RestoredSlot, FitsSlot, DefaultSlot, Written;
    forall i | 0 <= i < |fields|
      ensures RoomSlot(fields[i], DefaultSlots(fields)[i], slots[i])
      ensures MergedAll(fields, DefaultSlots(fields), slots)[i] == RestoredAll(fields, slots)[i]
    {
      SlotIntoDefault(fields[i], slots[i]);
      UnwrittenStays(fields[i], slots[i]);
    }
  }

  lemma UnwrittenStays(f: Field, s: Slot)
    ensures !Written(f, s) ==> RestoredSlot(f, s) == DefaultSlot(f)
    ensures f.htype.Oneof? ==> DefaultSlot(f) == Absent
  {
  }

  /** The encodings of two messages, one after the other, decode to the merging of the two: where both have a field,
      the second one's value counts, submessages are merged field by field, the entries of arrays follow one another,
      and of a oneof the second one's member remains. */
  lemma ConcatenationMerges(fields: seq<Field>, a: seq<Slot>, b: seq<Slot>)
    requires WellFormed(fields) && FitsAll(fields, a) && FitsAll(fields, b) && |a| == |b| == |fields|
    requires PrefixesFitAll(fields, a) && PrefixesFitAll(fields, b) && RoomAll(fields, RestoredAll(fields, a), b)
    ensures Encode(fields, a).Some? && Encode(fields, b).Some?
    ensures Decode(fields, Encode(fields, a).value + Encode(fields, b).value)
         == Some(MergedAll(fields, RestoredAll(fields, a), b))
  {
    hide DecodeLoop, WellFormed, FitsAll, PrefixesFitAll, RoomAll, MergedAll, MergedSoFar, EncodeFrom, RestoredAll;
    var was := DefaultSlots(fields);
    IntoDefaults(fields, a);
    NothingSoFar(fields, was, a);
    MessageMerges(fields, RestoredAll(fields, a), b);
    var s := EncodeFrom(fields, b, 0).value;
    var st := FieldsMerge(fields, was, a, 0, Reading(was, {}, 0), s);
    NothingSoFar(fields, st.slots, b);
    var st' := FieldsMerge(fields, st.slots, b, 0, st, []);
    assert s + [] == s;
    NothingMore(fields, st');
  }
}
