/** Message descriptors and values, and what the encoder and the decoder make of them. */
module PbMessage {
  import opened Octets
  import opened Wrappers
  import opened PbVarint

  const MAX_REQUIRED: nat := 64 // PB_MAX_REQUIRED_FIELDS
  const SIZE_HEADER: nat := 4   // offsetof(pb_bytes_array_t, bytes), with a 32-bit pb_size_t

  // Wire types.
  const WT_VARINT: nat := 0
  const WT_64BIT: nat := 1
  const WT_STRING: nat := 2
  const WT_32BIT: nat := 5

  /** PB_LTYPE: how one value of a field is stored, with its data_size. */
  datatype LType =
    | Signed(size: nat)                // PB_LTYPE_VARINT
    | Unsigned(size: nat)              // PB_LTYPE_UVARINT
    | ZigZagged(size: nat)             // PB_LTYPE_SVARINT
    | Fixed32
    | Fixed64
    | ByteArray(dataSize: nat)         // PB_LTYPE_BYTES
    | Text(dataSize: nat)              // PB_LTYPE_STRING
    | Submessage(fields: seq<Field>)
    | FixedBytes(dataSize: nat)        // PB_LTYPE_FIXED_LENGTH_BYTES

  /** PB_HTYPE, for static allocation. Singular is the proto3 form: optional without a has_ flag. The members of one
      oneof share a `group`. */
  datatype HType = Required | Optional | Singular | Repeated(arraySize: nat) | Oneof(group: nat)

  /** Where a field lies in its struct: data_offset, size_offset and data_size. */
  datatype Layout = Layout(dataOffset: nat, sizeOffset: int, dataSize: nat)

  /** pb_field_t. `declared` is a default value declared in the message definition. */
  datatype Field = Field(tag: nat, ltype: LType, htype: HType, layout: Layout, declared: Option<Value>)

  /** One stored value. Text is what precedes the terminating zero. */
  datatype Value = Int(n: int) | Raw(b: Bytes) | Message(slots: seq<Slot>)

  /** The storage of a field. Absent and Present are an optional field or a oneof member without or with a value. */
  datatype Slot = One(v: Value) | Absent | Present(v: Value) | Many(vs: seq<Value>)

  predicate Packable(lt: LType) {
    lt.Signed? || lt.Unsigned? || lt.ZigZagged? || lt.Fixed32? || lt.Fixed64?
  }

  function WireType(lt: LType): nat {
    match lt
    case Signed(_) => WT_VARINT
    case Unsigned(_) => WT_VARINT
    case ZigZagged(_) => WT_VARINT
    case Fixed32 => WT_32BIT
    case Fixed64 => WT_64BIT
    case _ => WT_STRING
  }

  predicate IntSize(size: nat) {
    size == 1 || size == 2 || size == 4 || size == 8
  }

  /** `n` is a value of a signed, or an unsigned, integer type of so many bytes. */
  predicate InSigned(n: int, size: nat) {
    IntSize(size) && -(Bound(size) / 2) <= n < Bound(size) / 2
  }

  predicate InUnsigned(n: int, size: nat) {
    IntSize(size) && 0 <= n < Bound(size)
  }

  // What a C struct can hold: an integer field holds nothing but integers of its type.

  predicate Typed(lt: LType, v: Value)
    decreases lt
  {
    match lt
    case Signed(size) => v.Int? && (IntSize(size) ==> InSigned(v.n, size))
    case Unsigned(size) => v.Int? && (IntSize(size) ==> InUnsigned(v.n, size))
    case ZigZagged(size) => v.Int? && (IntSize(size) ==> InSigned(v.n, size))
    case Fixed32 => v.Int? && InUnsigned(v.n, 4)
    case Fixed64 => v.Int? && InUnsigned(v.n, 8)
    case Submessage(fields) => v.Message? && TypedAll(fields, v.slots)
    case _ => v.Raw?
  }

  predicate TypedSlot(f: Field, s: Slot)
    decreases f
  {
    match f.htype
    case Required => s.One? && Typed(f.ltype, s.v)
    case Singular => s.One? && Typed(f.ltype, s.v)
    case Optional => s.Absent? || (s.Present? && Typed(f.ltype, s.v))
    case Oneof(_) => s.Absent? || (s.Present? && Typed(f.ltype, s.v))
    case Repeated(_) => s.Many? && forall i :: 0 <= i < |s.vs| ==> Typed(f.ltype, s.vs[i])
  }

  predicate TypedAll(fields: seq<Field>, slots: seq<Slot>)
    ensures TypedAll(fields, slots) ==> |slots| == |fields|
    decreases fields
  {
    |slots| == |fields| && forall i :: 0 <= i < |fields| ==> TypedSlot(fields[i], slots[i])
  }

  // Values within their declared bounds.

  predicate Fits(lt: LType, v: Value)
    decreases lt
  {
    match lt
    case Signed(size) => v.Int? && InSigned(v.n, size)
    case Unsigned(size) => v.Int? && InUnsigned(v.n, size)
    case ZigZagged(size) => v.Int? && InSigned(v.n, size)
    case Fixed32 => v.Int? && InUnsigned(v.n, 4)
    case Fixed64 => v.Int? && InUnsigned(v.n, 8)
    case ByteArray(dataSize) => v.Raw? && |v.b| + SIZE_HEADER <= dataSize && |v.b| < P32
    case Text(dataSize) =>
      v.Raw? && |v.b| + 1 <= dataSize && |v.b| + 1 < P32 && forall i :: 0 <= i < |v.b| ==> v.b[i] != 0
    case FixedBytes(dataSize) => v.Raw? && |v.b| == dataSize < P32
    case Submessage(fields) => v.Message? && FitsAll(fields, v.slots)
  }

  predicate FitsSlot(f: Field, s: Slot)
    decreases f
  {
    match f.htype
    case Required => s.One? && Fits(f.ltype, s.v)
    case Singular => s.One? && Fits(f.ltype, s.v)
    case Optional => s.Absent? || (s.Present? && Fits(f.ltype, s.v))
    case Oneof(_) => s.Absent? || (s.Present? && Fits(f.ltype, s.v))
    case Repeated(n) => s.Many? && |s.vs| <= n && forall i :: 0 <= i < |s.vs| ==> Fits(f.ltype, s.vs[i])
  }

  predicate FitsAll(fields: seq<Field>, slots: seq<Slot>)
    decreases fields
  {
    && |slots| == |fields|
    && (forall i :: 0 <= i < |fields| ==> FitsSlot(fields[i], slots[i]))
    && forall i, j :: 0 <= i < j < |fields| && SameGroup(fields[i], fields[j]) ==> slots[i].Absent? || slots[j].Absent?
  }

  predicate SameGroup(f: Field, g: Field) {
    f.htype.Oneof? && g.htype.Oneof? && f.htype.group == g.htype.group
  }

  // Defaults.

  /** The zero of a type: what memset leaves, and for a submessage the defaults of its fields. */
  function DefaultValue(lt: LType): Value
    decreases lt
  {
    match lt
    case ByteArray(_) => Raw([])
    case Text(_) => Raw([])
    case FixedBytes(n) => Raw(seq(n, _ => 0))
    case Submessage(fields) => Message(DefaultSlots(fields))
    case _ => Int(0)
  }

  function DefaultSlots(fields: seq<Field>): (r: seq<Slot>)
    ensures |r| == |fields|
    ensures forall i :: 0 <= i < |fields| ==> r[i] == DefaultSlot(fields[i])
    decreases fields
  {
    seq(|fields|, i requires 0 <= i < |fields| => DefaultSlot(fields[i]))
  }

  /** pb_field_set_to_default: absent or empty, or the declared default, or zero. */
  function DefaultSlot(f: Field): Slot
    decreases f, 1
  {
    match f.htype
    case Required => One(InitialValue(f))
    case Singular => One(InitialValue(f))
    case Optional => Absent
    case Oneof(_) => Absent
    case Repeated(_) => Many([])
  }

  function InitialValue(f: Field): Value
    decreases f, 0
  {
    if f.declared.Some? && !f.ltype.Submessage? then f.declared.value else DefaultValue(f.ltype)
  }

  /** pb_check_proto3_default_value. */
  predicate IsDefault(f: Field, s: Slot)
    decreases f
  {
    match f.htype
    case Required => false
    case Repeated(_) => s.Many? && s.vs == []
    case Oneof(_) => s.Absent?
    case Optional => s.Absent?
    case Singular => s.One? && IsDefaultValue(f.ltype, s.v)
  }

  predicate IsDefaultValue(lt: LType, v: Value)
    decreases lt
  {
    match lt
    case ByteArray(_) => v == Raw([])
    case Text(_) => v == Raw([])
    case FixedBytes(n) => n == 0
    case Submessage(fields) =>
      v.Message? && |v.slots| == |fields| && forall i :: 0 <= i < |fields| ==> IsDefault(fields[i], v.slots[i])
    case _ => v == Int(0)
  }

  // Encoding. None: the encoder fails whatever room it has.

  function Then(a: Option<Bytes>, b: Option<Bytes>): Option<Bytes> {
    if a.Some? && b.Some? then Some(a.value + b.value) else None
  }

  /** pb_encode_string. */
  function Delimited(body: Bytes): Bytes {
    Varint(|body|) + body
  }

  /** The encoders of PB_ENCODERS. */
  function EncodeValue(lt: LType, v: Value): Option<Bytes>
    decreases lt, 0
  {
    match lt
    case Signed(size) => if v.Int? && InSigned(v.n, size) then Some(Varint(Uint64(v.n))) else None
    case Unsigned(size) => if v.Int? && InUnsigned(v.n, size) then Some(Varint(v.n)) else None
    case ZigZagged(size) => if v.Int? && InSigned(v.n, size) then Some(Varint(ZigZag64(v.n))) else None
    case Fixed32 => if v.Int? && InUnsigned(v.n, 4) then Some(LittleEndian(v.n, 4)) else None
    case Fixed64 => if v.Int? && InUnsigned(v.n, 8) then Some(LittleEndian(v.n, 8)) else None
    case ByteArray(dataSize) => if v.Raw? && |v.b| + SIZE_HEADER <= dataSize then Some(Delimited(v.b)) else None
    case Text(dataSize) => if v.Raw? && |v.b| <= dataSize then Some(Delimited(v.b)) else None
    case FixedBytes(dataSize) => if v.Raw? && |v.b| == dataSize then Some(Delimited(v.b)) else None
    case Submessage(fields) =>
      if !v.Message? || |v.slots| != |fields| then None
      else match EncodeFrom(fields, v.slots, 0)
        case None => None
        case Some(body) => Some(Delimited(body))
  }

  function Uint64(n: int): nat {
    if AsUint64(n) < 0 then 0 else AsUint64(n)
  }

  function ZigZag64(n: int): nat {
    if MIN64 <= n < P63 then ZigZag(n) else 0
  }

  /** pb_encode_tag. */
  function Tag(f: Field, wireType: nat): Bytes {
    Varint(f.tag * 8 + wireType)
  }

  function EncodeTagged(f: Field, v: Value): Option<Bytes>
    decreases f, 0
  {
    Then(Some(Tag(f, WireType(f.ltype))), EncodeValue(f.ltype, v))
  }

  /** encode_array, one tag for each entry. */
  function EncodeEach(f: Field, vs: seq<Value>): Option<Bytes>
    decreases f, 1 + |vs|
  {
    if vs == [] then Some([]) else Then(EncodeTagged(f, vs[0]), EncodeEach(f, vs[1..]))
  }

  /** The entries of a packed array. */
  function EncodeItems(lt: LType, vs: seq<Value>): Option<Bytes>
    decreases lt, 1 + |vs|
  {
    if vs == [] then Some([]) else Then(EncodeValue(lt, vs[0]), EncodeItems(lt, vs[1..]))
  }

  /** The entries of a packed array of fixed width take that width each. */
  lemma {:induction false} FixedItems(lt: LType, vs: seq<Value>)
    requires (lt.Fixed32? || lt.Fixed64?) && forall i :: 0 <= i < |vs| ==> Typed(lt, vs[i])
    ensures EncodeItems(lt, vs).Some?
    ensures |EncodeItems(lt, vs).value| == (if lt.Fixed32? then 4 else 8) * |vs|
  {
    hide LittleEndian;
    if vs == [] {
    } else {
      FixedItems(lt, vs[1..]);
      assert Typed(lt, vs[0]);
    }
  }

  /** encode_basic_field. */
  function EncodeSlot(f: Field, s: Slot): Option<Bytes>
    decreases f, 2 + if s.Many? then |s.vs| else 0
  {
    match f.htype
    case Required => if s.One? then EncodeTagged(f, s.v) else None
    case Singular =>
      if !s.One? then None
      else if IsDefaultValue(f.ltype, s.v) then Some([])
      else EncodeTagged(f, s.v)
    case Optional => if s.Present? then EncodeTagged(f, s.v) else if s.Absent? then Some([]) else None
    case Oneof(_) => if s.Present? then EncodeTagged(f, s.v) else if s.Absent? then Some([]) else None
    case Repeated(n) =>
      if !s.Many? then None
      else if s.vs == [] then Some([])
      else if |s.vs| > n then None
      else if Packable(f.ltype) then
        match EncodeItems(f.ltype, s.vs)
        case None => None
        case Some(items) => Some(Tag(f, WT_STRING) + Delimited(items))
      else EncodeEach(f, s.vs)
  }

  /** pb_encode from field k on. */
  function EncodeFrom(fields: seq<Field>, slots: seq<Slot>, k: nat): Option<Bytes>
    requires k <= |fields| == |slots|
    decreases fields, |fields| - k
  {
    if k == |fields| then Some([]) else Then(EncodeSlot(fields[k], slots[k]), EncodeFrom(fields, slots, k + 1))
  }

  // Decoding. None: the decoder reports an error.

  datatype TagResult = End | Bad | TagRead(tag: nat, wireType: nat, rest: Bytes)

  /** pb_decode_tag. A zero ends the message. */
  function DecodeTag(s: Bytes): (r: TagResult)
    ensures r.TagRead? ==> |r.rest| < |s|
  {
    match Decode32(s)
    case None => Bad
    case Some((t, rest)) => if t == 0 then End else TagRead(t / 8, t % 8, rest)
  }

  function SkipVarint(s: Bytes): (r: Option<Bytes>)
    ensures r.Some? ==> |r.value| < |s|
  {
    if s == [] then None else if s[0] >= 128 then SkipVarint(s[1..]) else Some(s[1..])
  }

  /** pb_read, with the bytes read and what is left. */
  function Read(s: Bytes, n: nat): Option<(Bytes, Bytes)> {
    if |s| < n then None else Some((s[..n], s[n..]))
  }

  /** A length and that many bytes: pb_make_string_substream. */
  function ReadDelimited(s: Bytes): (r: Option<(Bytes, Bytes)>)
    ensures r.Some? ==> |r.value.0| + |r.value.1| < |s|
  {
    match Decode32(s)
    case None => None
    case Some((n, rest)) => Read(rest, n)
  }

  /** pb_skip_field. */
  function Skip(wireType: nat, s: Bytes): (r: Option<Bytes>)
    ensures r.Some? ==> |r.value| <= |s|
  {
    if wireType == WT_VARINT then SkipVarint(s)
    else if wireType == WT_64BIT then Rest(Read(s, 8))
    else if wireType == WT_STRING then Rest(ReadDelimited(s))
    else if wireType == WT_32BIT then Rest(Read(s, 4))
    else None
  }

  function Rest<T>(r: Option<(T, Bytes)>): Option<Bytes> {
    if r.Some? then Some(r.value.1) else None
  }

  function UpToZero(b: Bytes): Bytes {
    if b == [] || b[0] == 0 then [] else [b[0]] + UpToZero(b[1..])
  }

  /** The cast to int32_t. */
  function AsInt32(u: nat): int {
    if u % P32 >= P31 then u % P32 - P32 else u % P32
  }

  /** The decoders of PB_DECODERS. `was` is what the storage holds; only a submessage builds on it. */
  function DecodeValue(lt: LType, was: Value, s: Bytes): (r: Option<(Value, Bytes)>)
    ensures r.Some? ==> |r.value.1| < |s|
    decreases lt, 0
  {
    match lt
    case Signed(size) =>
      (match Decode64(s, 0, 0)
       case None => None
       case Some((u, rest)) =>
         var n := if size == 8 then AsInt64(u) else AsInt32(u);
         if InSigned(n, size) then Some((Int(n), rest)) else None)
    case Unsigned(size) =>
      (match Decode64(s, 0, 0)
       case None => None
       case Some((u, rest)) => if InUnsigned(u, size) then Some((Int(u), rest)) else None)
    case ZigZagged(size) =>
      (match Decode64(s, 0, 0)
       case None => None
       case Some((u, rest)) => if InSigned(UnZigZag(u), size) then Some((Int(UnZigZag(u)), rest)) else None)
    case Fixed32 => if |s| < 4 then None else Some((Int(FromLittleEndian(s[..4])), s[4..]))
    case Fixed64 => if |s| < 8 then None else Some((Int(FromLittleEndian(s[..8])), s[8..]))
    case ByteArray(dataSize) =>
      (match ReadDelimited(s)
       case None => None
       case Some((b, rest)) => if |b| + SIZE_HEADER > dataSize then None else Some((Raw(b), rest)))
    case Text(dataSize) =>
      (match ReadDelimited(s)
       case None => None
       case Some((b, rest)) => if |b| + 1 > dataSize then None else Some((Raw(UpToZero(b)), rest)))
    case FixedBytes(dataSize) =>
      (match ReadDelimited(s)
       case None => None
       case Some((b, rest)) =>
         if b == [] then Some((Raw(seq(dataSize, _ => 0)), rest))
         else if |b| != dataSize then None else Some((Raw(b), rest)))
    case Submessage(fields) =>
      match ReadDelimited(s)
      case None => None
      case Some((body, rest)) =>
        match DecodeMessage(fields, SlotsOf(fields, was), body)
        case None => None
        case Some(slots) => Some((Message(slots), rest))
  }

  function SlotsOf(fields: seq<Field>, was: Value): (r: seq<Slot>)
    ensures |r| == |fields|
  {
    if was.Message? && |was.slots| == |fields| then was.slots else DefaultSlots(fields)
  }

  /** The packed branch of decode_static_field. */
  function DecodePacked(lt: LType, arraySize: nat, vs: seq<Value>, s: Bytes): Option<seq<Value>>
    decreases lt, 1 + |s|
  {
    if s == [] then Some(vs)
    else if |vs| >= arraySize then None
    else match DecodeValue(lt, Int(0), s)
      case None => None
      case Some((v, rest)) => DecodePacked(lt, arraySize, vs + [v], rest)
  }

  /** decode_static_field: the new contents of the field's own slot. */
  function DecodeSlot(f: Field, slot: Slot, wireType: nat, s: Bytes): (r: Option<(Slot, Bytes)>)
    ensures r.Some? ==> |r.value.1| < |s|
    decreases f, 0
  {
    var default := DefaultValue(f.ltype);
    match f.htype
    case Required => MapOne(DecodeValue(f.ltype, if slot.One? then slot.v else default, s))
    case Singular => MapOne(DecodeValue(f.ltype, if slot.One? then slot.v else default, s))
    case Optional => MapPresent(DecodeValue(f.ltype, if slot.Present? then slot.v else default, s))
    case Oneof(_) => MapPresent(DecodeValue(f.ltype, default, s))
    case Repeated(n) =>
      var vs := if slot.Many? then slot.vs else [];
      if wireType == WT_STRING && Packable(f.ltype) then
        match ReadDelimited(s)
        case None => None
        case Some((body, rest)) =>
          match DecodePacked(f.ltype, n, vs, body)
          case None => None
          case Some(items) => Some((Many(items), rest))
      else if |vs| >= n then None
      else match DecodeValue(f.ltype, default, s)
        case None => None
        case Some((v, rest)) => Some((Many(vs + [v]), rest))
  }

  function MapOne(r: Option<(Value, Bytes)>): Option<(Slot, Bytes)> {
    if r.Some? then Some((One(r.value.0), r.value.1)) else None
  }

  function MapPresent(r: Option<(Value, Bytes)>): Option<(Slot, Bytes)> {
    if r.Some? then Some((Present(r.value.0), r.value.1)) else None
  }

  /** Storing a oneof member makes it the only one of its group. */
  function Store(fields: seq<Field>, slots: seq<Slot>, k: nat, slot: Slot): (r: seq<Slot>)
    requires k < |fields| == |slots|
    ensures |r| == |fields|
  {
    seq(|slots|, i requires 0 <= i < |slots| =>
      if i == k then slot else if SameGroup(fields[i], fields[k]) then Absent else slots[i])
  }

  /** The field with this tag. */
  function Find(fields: seq<Field>, tag: nat): (r: Option<nat>)
    ensures r.Some? ==> r.value < |fields| && fields[r.value].tag == tag
    ensures r.None? ==> forall i :: 0 <= i < |fields| ==> fields[i].tag != tag
  {
    if fields == [] then None
    else if fields[0].tag == tag then Some(0)
    else match Find(fields[1..], tag)
      case None => None
      case Some(i) => Some(i + 1)
  }

  /** pb_field_iter_find: the search goes on from the field found last, to the end and round again. */
  function Search(fields: seq<Field>, pos: nat, tag: nat): (r: Option<nat>)
    requires pos <= |fields|
    ensures r.Some? ==> r.value < |fields| && fields[r.value].tag == tag
    ensures r.None? <==> forall i :: 0 <= i < |fields| ==> fields[i].tag != tag
  {
    match Find(fields[pos..], tag)
    case Some(i) =>
      assert fields[pos..][i] == fields[pos + i];
      Some(pos + i)
    case None =>
      assert forall i :: pos <= i < |fields| ==> fields[i] == fields[pos..][i - pos];
      Find(fields[..pos], tag)
  }

  /** What the loop of pb_decode_noinit has got so far: the message, the fields that occurred, and where its iterator
      stands. */
  datatype Reading = Reading(slots: seq<Slot>, seen: set<nat>, pos: nat) {
    predicate Of(fields: seq<Field>) {
      |slots| == |fields| && pos <= |fields|
    }

    /** Field k has been read. */
    function Took(fields: seq<Field>, k: nat, slot: Slot): (r: Reading)
      requires Of(fields) && k < |fields|
      ensures r.Of(fields)
    {
      Reading(Store(fields, slots, k, slot), seen + {k}, k)
    }
  }

  /** The loop of pb_decode_noinit. With no fields at all, tag zero matches the terminator of the descriptor, which
      cannot be decoded. */
  function DecodeLoop(fields: seq<Field>, st: Reading, s: Bytes): (r: Option<Reading>)
    requires st.Of(fields)
    ensures r.Some? ==> r.value.Of(fields)
    decreases fields, 1 + |s|
  {
    if s == [] then Some(st)
    else match DecodeTag(s)
      case Bad => None
      case End => Some(st)
      case TagRead(tag, wireType, rest) =>
        match Search(fields, st.pos, tag)
        case None =>
          if fields == [] && tag == 0 then None
          else (match Skip(wireType, rest)
                case None => None
                case Some(rest') => DecodeLoop(fields, st, rest'))
        case Some(k) =>
          match DecodeSlot(fields[k], st.slots[k], wireType, rest)
          case None => None
          case Some((slot, rest')) => DecodeLoop(fields, st.Took(fields, k, slot), rest')
  }

  function RequiredBefore(fields: seq<Field>, k: nat): nat
    requires k <= |fields|
  {
    if k == 0 then 0 else RequiredBefore(fields, k - 1) + if fields[k - 1].htype.Required? then 1 else 0
  }

  /** One of the first 64 required fields. */
  predicate MustOccur(fields: seq<Field>, k: nat)
    requires k < |fields|
  {
    fields[k].htype.Required? && RequiredBefore(fields, k) < MAX_REQUIRED
  }

  /** The check at the end of pb_decode_noinit covers the first 64 required fields. */
  predicate RequiredSeen(fields: seq<Field>, seen: set<nat>) {
    forall k :: 0 <= k < |fields| && MustOccur(fields, k) ==> k in seen
  }

  /** pb_decode_noinit. */
  function DecodeMessage(fields: seq<Field>, slots: seq<Slot>, s: Bytes): (r: Option<seq<Slot>>)
    requires |slots| == |fields|
    ensures r.Some? ==> |r.value| == |fields|
    decreases fields, 2 + |s|
  {
    match DecodeLoop(fields, Reading(slots, {}, 0), s)
    case None => None
    case Some(st) => if RequiredSeen(fields, st.seen) then Some(st.slots) else None
  }

  /** pb_decode. */
  function Decode(fields: seq<Field>, s: Bytes): Option<seq<Slot>> {
    DecodeMessage(fields, DefaultSlots(fields), s)
  }

  /** pb_encode. */
  function Encode(fields: seq<Field>, slots: seq<Slot>): Option<Bytes>
    requires |slots| == |fields|
  {
    EncodeFrom(fields, slots, 0)
  }
}
