/** pb_ostream_t and pb_encode: the same code sizes a message and writes it. */
module PbEncoder {
  import opened Octets
  import opened Wrappers
  import opened PbVarint
  import opened PbMessage
  import opened PbIter

  class OStream {
    const buf: array?<Byte>      // null: a sizing stream, without a callback
    const start: nat             // where this stream's part of the buffer begins
    const maxSize: nat
    var state: nat               // the next place in the buffer
    var bytesWritten: nat
    ghost var out: Bytes         // the bytes written, or only counted

    ghost predicate Valid()
      reads this, buf
    {
      && |out| == bytesWritten
      && (buf != null ==>
            && start + maxSize <= buf.Length && bytesWritten <= maxSize && state == start + bytesWritten
            && buf[start..state] == out)
    }

    ghost predicate HasRoom(n: nat)
      reads this
    {
      buf == null || bytesWritten + n <= maxSize
    }

    /** The buffer outside this stream's part is as it was. */
    twostate predicate Kept()
      reads this, buf
    {
      buf != null && start + maxSize <= buf.Length ==>
        buf[..start] == old(buf[..start]) && buf[start + maxSize..] == old(buf[start + maxSize..])
    }

    /** A call that emits `e` succeeds if and only if `e` exists and there is room for all of it, on a writing stream
        as on a sizing one; and then exactly `e` was appended. */
    twostate predicate Emits(ok: bool, new e: Option<Bytes>)
      reads this, buf
    {
      && Valid() && Kept()
      && (ok <==> e.Some? && old(HasRoom(|e.value|)))
      && (ok ==> out == old(out) + e.value)
      && old(bytesWritten) <= bytesWritten
    }

    /** PB_OSTREAM_SIZING. */
    constructor Sizing()
      ensures Valid() && buf == null && out == []
    {
      buf, start, maxSize, state, bytesWritten, out := null, 0, 0, 0, 0, [];
    }

    /** pb_ostream_from_buffer, and the substream of pb_encode_submessage. */
    constructor FromBuffer(buf: array<Byte>, start: nat, maxSize: nat)
      requires start + maxSize <= buf.Length
      ensures Valid() && this.buf == buf && this.start == start && this.maxSize == maxSize && out == []
    {
      this.buf, this.start, this.maxSize := buf, start, maxSize;
      state, bytesWritten, out := start, 0, [];
    }

    /** pb_write. */
    method Write(b: Bytes) returns (ok: bool)
      requires Valid()
      modifies this, buf
      ensures Emits(ok, Some(b))
      ensures !ok ==> out == old(out)
    {
      if buf != null {
        if bytesWritten + |b| > maxSize {
          return false;
        }
        BufWrite(b);
      }
      bytesWritten := bytesWritten + |b|;
      out := out + b;
      ok := true;
      if buf != null {
        assert buf[start..state] == old(buf[start..state]) + b;
      }
    }

    /** buf_write. */
    method BufWrite(b: Bytes)
      requires buf != null && state + |b| <= buf.Length
      modifies this`state, buf
      ensures state == old(state) + |b|
      ensures buf[old(state)..state] == b
      ensures buf[..old(state)] == old(buf[..state]) && buf[state..] == old(buf[state + |b|..])
    {
      var dest := state;
      state := state + |b|;
      for i := 0 to |b|
        invariant state == dest + |b| && dest == old(state)
        invariant buf[dest..dest + i] == b[..i]
        invariant buf[..dest] == old(buf[..state]) && buf[dest + |b|..] == old(buf[state + |b|..])
      {
        buf[dest + i] := b[i];
      }
    }

    /** pb_write(stream, NULL, size) on a sizing stream: `b` is only counted. */
    method Count(ghost b: Bytes, size: nat) returns (ok: bool)
      requires Valid() && buf == null && size == |b|
      modifies this
      ensures ok && Emits(ok, Some(b))
    {
      bytesWritten := bytesWritten + size;
      out := out + b;
      ok := true;
    }

    /** pb_encode_varint. */
    method EncodeVarint(v: nat) returns (ok: bool)
      requires Valid()
      modifies this, buf
      ensures Emits(ok, Some(Varint(v)))
    {
      hide Varint;
      if v <= 0x7F {
        VarintOfSmall(v);
        ok := Write([v]);
        return;
      }
      var buffer := Groups(v);
      ok := Write(buffer);
    }

    /** pb_encode_svarint. */
    method EncodeSvarint(n: int) returns (ok: bool)
      requires Valid() && MIN64 <= n < P63
      modifies this, buf
      ensures Emits(ok, Some(Varint(ZigZag(n))))
    {
      var zigzagged := if n < 0 then P64 - 1 - (AsUint64(n) * 2) % P64 else (AsUint64(n) * 2) % P64;
      ok := EncodeVarint(zigzagged);
    }

    /** pb_encode_string. */
    method EncodeString(b: Bytes) returns (ok: bool)
      requires Valid()
      modifies this, buf
      ensures Emits(ok, Some(Delimited(b)))
    {
      hide Varint;
      ok := EncodeVarint(|b|);
      if ok {
        ok := Write(b);
      }
    }

    /** pb_encode_tag_for_field, or pb_encode_tag for a packed array. */
    method EncodeTag(f: Field, wireType: nat) returns (ok: bool)
      requires Valid()
      modifies this, buf
      ensures Emits(ok, Some(Tag(f, wireType)))
    {
      ok := EncodeVarint(f.tag * 8 + wireType);
    }

    /** The encoders of PB_ENCODERS. */
    method EncodeValue(lt: LType, v: Value) returns (ok: bool)
      requires Valid() && Typed(lt, v)
      modifies this, buf
      ensures Emits(ok, PbMessage.EncodeValue(lt, v))
      decreases lt, 0
    {
      hide Varint, LittleEndian, Delimited, EncodeFrom, InSigned, ZigZag, Bound;
      match lt
      case Signed(size) =>
        if v.Int? && InSigned(v.n, size) { ok := EncodeVarint(Uint64(v.n)); } else { ok := false; }
      case Unsigned(size) =>
        if v.Int? && InUnsigned(v.n, size) { ok := EncodeVarint(v.n); } else { ok := false; }
      case ZigZagged(size) =>
        if v.Int? && InSigned(v.n, size) {
          SignedIs64Bit(v.n, size);
          ok := EncodeSvarint(v.n);
        } else {
          ok := false;
        }
      case Fixed32 =>
        if v.Int? && InUnsigned(v.n, 4) { ok := Write(LittleEndian(v.n, 4)); } else { ok := false; }
      case Fixed64 =>
        if v.Int? && InUnsigned(v.n, 8) { ok := Write(LittleEndian(v.n, 8)); } else { ok := false; }
      case ByteArray(dataSize) =>
        if v.Raw? && |v.b| + SIZE_HEADER <= dataSize { ok := EncodeString(v.b); } else { ok := false; }
      case Text(dataSize) =>
        if v.Raw? && |v.b| <= dataSize { ok := EncodeString(v.b); } else { ok := false; }
      case FixedBytes(dataSize) =>
        if v.Raw? && |v.b| == dataSize { ok := EncodeString(v.b); } else { ok := false; }
      case Submessage(fields) =>
        if v.Message? && |v.slots| == |fields| { ok := EncodeSubmessage(fields, v.slots); } else { ok := false; }
    }

    /** pb_encode_submessage: once to find the size, once to write. */
    method EncodeSubmessage(fields: seq<Field>, slots: seq<Slot>) returns (ok: bool)
      requires Valid() && TypedAll(fields, slots)
      modifies this, buf
      ensures Emits(ok, DelimitedMessage(fields, slots))
      decreases fields, 5
    {
      hide Varint, EncodeFrom, TypedAll;
      var sizing := new OStream.Sizing();
      var sized := sizing.EncodeFields(fields, slots);
      if !sized {
        return false;
      }
      ghost var body := EncodeFrom(fields, slots, 0).value;
      assert sizing.out == [] + body == body;
      ok := EncodeVarint(sizing.bytesWritten);
      if !ok {
        return;
      }
      if buf == null {
        ok := Count(body, sizing.bytesWritten);
      } else {
        ok := WriteSubmessage(fields, slots, sizing.bytesWritten, body);
      }
      TwoParts(old(out), Varint(|body|), body);
    }

    /** The second pass, into a substream of the size found. The check that it wrote as much never fails. */
    method WriteSubmessage(fields: seq<Field>, slots: seq<Slot>, size: nat, ghost body: Bytes) returns (ok: bool)
      requires Valid() && TypedAll(fields, slots) && buf != null
      requires EncodeFrom(fields, slots, 0) == Some(body) && size == |body|
      modifies this, buf
      ensures Emits(ok, Some(body))
      decreases fields, 4
    {
      hide EncodeFrom, TypedAll;
      if bytesWritten + size > maxSize {
        return false;
      }
      var substream := new OStream.FromBuffer(buf, state, size);
      var status := substream.EncodeFields(fields, slots);
      assert substream.out == [] + body == body;
      bytesWritten := bytesWritten + substream.bytesWritten;
      state := substream.state;
      out := out + body;
      if substream.bytesWritten != size {
        assert false;
      }
      ok := status;
      WrittenBehind(buf[..], start, substream.start, state, old(out), body);
      assert buf[start..substream.start] == old(buf[start..state]);
      Untouched(old(buf[..]), buf[..], start, substream.start, substream.start + size, start + maxSize);
    }

    /** encode_array. */
    method EncodeArray(f: Field, vs: seq<Value>, arraySize: nat) returns (ok: bool)
      requires Valid() && AllTyped(f.ltype, vs)
      modifies this, buf
      ensures Emits(ok, ArrayBytes(f, vs, arraySize))
      decreases f, 3
    {
      hide Varint, Tag, PbMessage.EncodeValue;
      if vs == [] {
        return true;
      }
      if |vs| > arraySize {
        return false;
      }
      if Packable(f.ltype) {
        ok := EncodePacked(f, vs);
      } else {
        ok := EncodeUnpacked(f, vs);
      }
    }

    method EncodePacked(f: Field, vs: seq<Value>) returns (ok: bool)
      requires Valid() && Packable(f.ltype) && AllTyped(f.ltype, vs)
      modifies this, buf
      ensures Emits(ok, PackedBytes(f, vs))
      decreases f, 2
    {
      hide Varint, Tag, PbMessage.EncodeValue, EncodeItems;
      ok := EncodeTag(f, WT_STRING);
      if !ok {
        return;
      }
      ok := EncodeItemBlock(f.ltype, vs);
      if PackedBytes(f, vs).Some? {
        TwoParts(old(out), Tag(f, WT_STRING), Delimited(EncodeItems(f.ltype, vs).value));
      }
    }

    /** The size of the packed entries, and the entries. */
    method EncodeItemBlock(lt: LType, vs: seq<Value>) returns (ok: bool)
      requires Valid() && Packable(lt) && AllTyped(lt, vs)
      modifies this, buf
      ensures Emits(ok, ItemBlock(lt, vs))
      decreases lt, 3
    {
      hide Varint, PbMessage.EncodeValue, EncodeItems, AllTyped;
      var size := PackedSize(lt, vs);
      if size.None? {
        return false;
      }
      ghost var items := EncodeItems(lt, vs).value;
      ok := EncodeVarint(size.value);
      if !ok {
        return;
      }
      if buf == null {
        ok := Count(items, size.value);
      } else {
        ok := EncodeAllItems(lt, vs);
      }
      TwoParts(old(out), Varint(|items|), items);
    }

    /** The total size of a packed array: computed for fixed-width entries, found by a sizing stream for others. */
    static method PackedSize(lt: LType, vs: seq<Value>) returns (size: Option<nat>)
      requires Packable(lt) && AllTyped(lt, vs)
      ensures size == match EncodeItems(lt, vs) case None => None case Some(items) => Some(|items|)
      decreases lt, 2
    {
      hide PbMessage.EncodeValue, EncodeItems;
      if lt.Fixed32? || lt.Fixed64? {
        FixedItems(lt, vs);
        return Some((if lt.Fixed32? then 4 else 8) * |vs|);
      }
      var sizing := new OStream.Sizing();
      var sized := sizing.EncodeAllItems(lt, vs);
      if !sized {
        return None;
      }
      assert [] + EncodeItems(lt, vs).value == EncodeItems(lt, vs).value;
      size := Some(sizing.bytesWritten);
    }

    method EncodeAllItems(lt: LType, vs: seq<Value>) returns (ok: bool)
      requires Valid() && AllTyped(lt, vs)
      modifies this, buf
      ensures Emits(ok, EncodeItems(lt, vs))
      decreases lt, 1
    {
      hide PbMessage.EncodeValue, EncodeItems, Typed;
      ghost var done: Bytes := [];
      assert vs[0..] == vs;
      ThenNothing(EncodeItems(lt, vs));
      for i := 0 to |vs|
        invariant Valid() && Kept() && old(bytesWritten) <= bytesWritten && out == old(out) + done
        invariant EncodeItems(lt, vs) == Then(Some(done), EncodeItems(lt, vs[i..]))
      {
        ItemsUnfold(lt, vs, i);
        ghost var e := PbMessage.EncodeValue(lt, vs[i]);
        ThenThen(done, e, EncodeItems(lt, vs[i + 1..]));
        ok := EncodeValue(lt, vs[i]);
        if !ok {
          return;
        }
        done := done + e.value;
      }
      ItemsEnd(lt, vs);
      ok := true;
    }

    method EncodeUnpacked(f: Field, vs: seq<Value>) returns (ok: bool)
      requires Valid() && AllTyped(f.ltype, vs)
      modifies this, buf
      ensures Emits(ok, EncodeEach(f, vs))
      decreases f, 2
    {
      hide EncodeTagged, EncodeEach;
      ghost var done: Bytes := [];
      assert vs[0..] == vs;
      ThenNothing(EncodeEach(f, vs));
      for i := 0 to |vs|
        invariant Valid() && Kept() && old(bytesWritten) <= bytesWritten && out == old(out) + done
        invariant EncodeEach(f, vs) == Then(Some(done), EncodeEach(f, vs[i..]))
      {
        EachUnfolds(f, vs, i);
        ghost var e := EncodeTagged(f, vs[i]);
        ThenThen(done, e, EncodeEach(f, vs[i + 1..]));
        ok := EncodeTaggedValue(f, vs[i]);
        if !ok {
          return;
        }
        done := done + e.value;
      }
      EachUnfolds(f, vs, |vs|);
      ok := true;
    }

    method EncodeTaggedValue(f: Field, v: Value) returns (ok: bool)
      requires Valid() && Typed(f.ltype, v)
      modifies this, buf
      ensures Emits(ok, EncodeTagged(f, v))
      decreases f, 1
    {
      hide Tag, PbMessage.EncodeValue;
      ok := EncodeTag(f, WireType(f.ltype));
      if ok {
        ok := EncodeValue(f.ltype, v);
      }
    }

    /** encode_basic_field. */
    method EncodeField(f: Field, s: Slot) returns (ok: bool)
      requires Valid() && TypedSlot(f, s)
      modifies this, buf
      ensures Emits(ok, EncodeSlot(f, s))
      decreases f, 4
    {
      hide EncodeTagged, EncodeEach, EncodeItems, IsDefaultValue;
      match f.htype
      case Required =>
        if s.One? { ok := EncodeTaggedValue(f, s.v); } else { ok := false; }
      case Singular =>
        if !s.One? {
          return false;
        }
        var implicitHas := !IsDefaultValue(f.ltype, s.v);
        if implicitHas { ok := EncodeTaggedValue(f, s.v); } else { ok := true; }
      case Optional =>
        if s.Present? { ok := EncodeTaggedValue(f, s.v); } else { ok := s.Absent?; }
      case Oneof(_) =>
        if s.Present? { ok := EncodeTaggedValue(f, s.v); } else { ok := s.Absent?; }
      case Repeated(n) =>
        if s.Many? { ok := EncodeArray(f, s.vs, n); } else { ok := false; }
    }

    /** pb_encode. */
    method EncodeFields(fields: seq<Field>, slots: seq<Slot>) returns (ok: bool)
      requires Valid() && TypedAll(fields, slots)
      modifies this, buf
      ensures Emits(ok, EncodeFrom(fields, slots, 0))
      decreases fields, 3
    {
      hide EncodeSlot, EncodeFrom, TypedSlot, Then, FieldIter.Valid, FieldIter.At;
      FromUnfolds(fields, slots, 0);
      var iter := new FieldIter(fields, 0);
      if fields == [] {
        return true;
      }
      ghost var done: Bytes := [];
      ThenNothing(EncodeFrom(fields, slots, 0));
      while true
        invariant fresh(iter) && iter.Valid() && iter.fields == fields && iter.pos < |fields|
        invariant Valid() && Kept() && old(bytesWritten) <= bytesWritten && out == old(out) + done
        invariant EncodeFrom(fields, slots, 0) == Then(Some(done), EncodeFrom(fields, slots, iter.pos))
        decreases |fields| - iter.pos
      {
        FromUnfolds(fields, slots, iter.pos);
        FromUnfolds(fields, slots, iter.pos + 1);
        ghost var e := EncodeSlot(fields[iter.pos], slots[iter.pos]);
        ThenThen(done, e, EncodeFrom(fields, slots, iter.pos + 1));
        ok := EncodeField(fields[iter.pos], slots[iter.pos]);
        if !ok {
          return;
        }
        done := done + e.value;
        var more := iter.Next();
        if !more {
          ThenEnd(done);
          return true;
        }
      }
    }
  }

  /** The loop of pb_encode_varint: groups of seven bits with the top bit set, which the last one then loses. */
  method Groups(v: nat) returns (buffer: Bytes)
    requires v > 0x7F
    ensures buffer == Varint(v)
  {
    var value: nat := v;
    ghost var last: nat := 0;
    buffer := [];
    while value != 0
      invariant value > 0 ==> Varint(v) == buffer + Varint(value)
      invariant value == 0 ==> |buffer| > 0 && last < 128 && buffer[|buffer| - 1] == last + 128
      invariant value == 0 ==> Varint(v) == buffer[..|buffer| - 1] + [last]
      invariant buffer == [] ==> value == v
      decreases value
    {
      last := value % 128;
      GroupWritten(buffer, value);
      buffer := buffer + [value % 128 + 128];
      value := value / 128;
    }
    buffer := buffer[|buffer| - 1 := buffer[|buffer| - 1] - 128];
  }

  lemma GroupWritten(buffer: Bytes, value: nat)
    requires value > 0
    ensures var next := buffer + [value % 128 + 128];
            && next[..|next| - 1] == buffer
            && buffer + Varint(value) == if value < 128 then buffer + [value] else next + Varint(value / 128)
  {
    hide Varint;
    var byte: Byte := value % 128 + 128;
    if value < 128 {
      VarintOfSmall(value);
    } else {
      VarintUnfolds(value, []);
      assert Varint(value) + [] == Varint(value);
      assert [byte] + (Varint(value / 128) + []) == [byte] + Varint(value / 128);
      assert buffer + ([byte] + Varint(value / 128)) == (buffer + [byte]) + Varint(value / 128);
    }
  }

  predicate AllTyped(lt: LType, vs: seq<Value>) {
    forall i :: 0 <= i < |vs| ==> Typed(lt, vs[i])
  }

  // Bookkeeping on what has been written.

  lemma ThenNothing(e: Option<Bytes>)
    ensures Then(Some([]), e) == e
  {
    if e.Some? { assert [] + e.value == e.value; }
  }

  lemma ThenEnd(done: Bytes)
    ensures Then(Some(done), Some([])) == Some(done)
  {
    assert done + [] == done;
  }

  lemma ThenThen(done: Bytes, e: Option<Bytes>, rest: Option<Bytes>)
    ensures Then(Some(done), Then(e, rest)) == if e.None? then None else Then(Some(done + e.value), rest)
    ensures Then(Some(done), Then(e, rest)).Some? ==> |Then(Some(done), Then(e, rest)).value| >= |done| + |e.value|
  {
    if e.Some? && rest.Some? {
      assert done + (e.value + rest.value) == done + e.value + rest.value;
    }
  }

  lemma ItemsUnfold(lt: LType, vs: seq<Value>, i: nat)
    requires i < |vs|
    ensures EncodeItems(lt, vs[i..]) == Then(PbMessage.EncodeValue(lt, vs[i]), EncodeItems(lt, vs[i + 1..]))
  {
    assert vs[i..][1..] == vs[i + 1..];
  }

  lemma ItemsEnd(lt: LType, vs: seq<Value>)
    ensures EncodeItems(lt, vs[|vs|..]) == Some([])
  {
  }

  lemma EachUnfolds(f: Field, vs: seq<Value>, i: nat)
    requires i <= |vs|
    ensures i < |vs| ==> EncodeEach(f, vs[i..]) == Then(EncodeTagged(f, vs[i]), EncodeEach(f, vs[i + 1..]))
    ensures i == |vs| ==> EncodeEach(f, vs[i..]) == Some([])
  {
    if i < |vs| { assert vs[i..][1..] == vs[i + 1..]; }
  }

  lemma FromUnfolds(fields: seq<Field>, slots: seq<Slot>, k: nat)
    requires k <= |fields| == |slots|
    ensures k < |fields| ==>
              EncodeFrom(fields, slots, k) == Then(EncodeSlot(fields[k], slots[k]), EncodeFrom(fields, slots, k + 1))
    ensures k == |fields| ==> EncodeFrom(fields, slots, k) == Some([])
  {
  }

  lemma TwoParts(a: Bytes, b: Bytes, c: Bytes)
    ensures a + (b + c) == a + b + c && |b + c| == |b| + |c|
  {
  }

  lemma WrittenBehind(buf: Bytes, start: nat, mid: nat, end: nat, a: Bytes, b: Bytes)
    requires start <= mid <= end <= |buf| && buf[start..mid] == a && buf[mid..end] == b
    ensures buf[start..end] == a + b
  {
  }

  /** Bytes that did not change within a part did not change within the whole. */
  lemma Untouched(before: Bytes, after: Bytes, start: nat, from: nat, to: nat, end: nat)
    requires start <= from <= to <= end <= |before| == |after|
    requires before[..from] == after[..from] && before[to..] == after[to..]
    ensures before[..start] == after[..start] && before[end..] == after[end..]
    ensures before[start..from] == after[start..from]
  {
    assert before[..start] == before[..from][..start] && after[..start] == after[..from][..start];
    assert before[end..] == before[to..][end - to..] && after[end..] == after[to..][end - to..];
    assert before[start..from] == before[..from][start..] && after[start..from] == after[..from][start..];
  }

  function DelimitedMessage(fields: seq<Field>, slots: seq<Slot>): Option<Bytes>
    requires |slots| == |fields|
  {
    match EncodeFrom(fields, slots, 0)
    case None => None
    case Some(body) => Some(Delimited(body))
  }

  function ItemBlock(lt: LType, vs: seq<Value>): Option<Bytes> {
    match EncodeItems(lt, vs)
    case None => None
    case Some(items) => Some(Delimited(items))
  }

  function PackedBytes(f: Field, vs: seq<Value>): Option<Bytes> {
    Then(Some(Tag(f, WT_STRING)), ItemBlock(f.ltype, vs))
  }

  function ArrayBytes(f: Field, vs: seq<Value>, arraySize: nat): Option<Bytes> {
    if vs == [] then Some([])
    else if |vs| > arraySize then None
    else if Packable(f.ltype) then PackedBytes(f, vs)
    else EncodeEach(f, vs)
  }

  lemma SignedIs64Bit(n: int, size: nat)
    requires InSigned(n, size)
    ensures MIN64 <= n < P63
  {
    Bounds();
  }

  /** pb_get_encoded_size. */
  method GetEncodedSize(fields: seq<Field>, slots: seq<Slot>) returns (size: Option<nat>)
    requires TypedAll(fields, slots)
    ensures size.Some? <==> Encode(fields, slots).Some?
    ensures size.Some? ==> size.value == |Encode(fields, slots).value|
  {
    hide EncodeFrom;
    var stream := new OStream.Sizing();
    var ok := stream.EncodeFields(fields, slots);
    size := if ok then Some(stream.bytesWritten) else None;
  }
}
