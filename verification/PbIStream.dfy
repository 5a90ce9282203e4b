/** pb_istream_t over a buffer: reading, substreams, and the wire-level decoders (pb_decode.c). */
module PbIStream {
  import opened Octets
  import opened Wrappers
  import opened PbVarint
  import opened PbMessage

  class IStream {
    const src: Bytes
    var state: nat          // the next byte of src
    var bytesLeft: nat

    ghost predicate Valid()
      reads this
    {
      state + bytesLeft <= |src|
    }

    /** What a reader of this stream has yet to see. */
    ghost function Rest(): Bytes
      reads this
      requires Valid()
    {
      src[state..state + bytesLeft]
    }

    ghost function Limit(): nat
      reads this
    {
      state + bytesLeft
    }

    /** A call that turns what is left into `rest` succeeds if and only if there is such a `rest`. */
    twostate predicate Leaves(ok: bool, new rest: Option<Bytes>)
      requires old(Valid())
      reads this
    {
      && Valid() && Limit() <= old(Limit())
      && (ok <==> rest.Some?)
      && (ok ==> Limit() == old(Limit()) && Rest() == rest.value)
    }

    /** pb_istream_from_buffer, and the substream of pb_make_string_substream. */
    constructor (src: Bytes, state: nat, bytesLeft: nat)
      requires state + bytesLeft <= |src|
      ensures this.src == src && this.state == state && this.bytesLeft == bytesLeft
    {
      this.src, this.state, this.bytesLeft := src, state, bytesLeft;
    }

    /** pb_read, with buf_read. */
    method Read(count: nat) returns (ok: bool, b: Bytes)
      requires Valid()
      modifies this
      ensures Leaves(ok, PbMessage.Rest(PbMessage.Read(old(Rest()), count)))
      ensures ok ==> b == old(Rest())[..count]
      ensures ok ==> state == old(state) + count
      ensures !ok ==> state == old(state) && bytesLeft == old(bytesLeft)
    {
      b := [];
      if bytesLeft < count {
        return false, b;
      }
      var source := state;
      state := state + count;
      for i := 0 to count
        invariant b == src[source..source + i]
      {
        b := b + [src[source + i]];
      }
      bytesLeft := bytesLeft - count;
      ok := true;
    }

    /** pb_read into a null pointer. */
    method Discard(count: nat) returns (ok: bool)
      requires Valid()
      modifies this
      ensures Leaves(ok, PbMessage.Rest(PbMessage.Read(old(Rest()), count)))
      ensures ok ==> state == old(state) + count
    {
      if bytesLeft < count {
        return false;
      }
      state := state + count;
      bytesLeft := bytesLeft - count;
      ok := true;
    }

    /** pb_readbyte. */
    method ReadByte() returns (ok: bool, b: Byte)
      requires Valid()
      modifies this
      ensures Leaves(ok, if old(Rest()) == [] then None else Some(old(Rest())[1..]))
      ensures ok ==> b == old(Rest())[0]
      ensures !ok ==> bytesLeft == 0 && Limit() == old(Limit())
    {
      if bytesLeft == 0 {
        return false, 0;
      }
      b := src[state];
      state := state + 1;
      bytesLeft := bytesLeft - 1;
      ok := true;
    }

    /** pb_decode_varint. */
    method DecodeVarint() returns (ok: bool, dest: nat)
      requires Valid()
      modifies this
      ensures Leaves(ok, PbMessage.Rest(Decode64(old(Rest()), 0, 0)))
      ensures ok ==> dest == Decode64(old(Rest()), 0, 0).value.0
    {
      var bitpos: nat, result: nat, more := 0, 0, true;
      dest := 0;
      while more
        invariant Valid() && Limit() == old(Limit()) && bitpos < 71
        invariant more ==> Decode64(Rest(), bitpos, result) == Decode64(old(Rest()), 0, 0)
        invariant !more ==> Decode64(old(Rest()), 0, 0) == Some((result, Rest()))
        decreases more, bytesLeft
      {
        if bitpos >= 64 {
          return false, 0;
        }
        var got, byte := ReadByte();
        if !got {
          return false, 0;
        }
        result := (result + (byte % 128) * Pow2(bitpos)) % P64;
        bitpos := bitpos + 7;
        more := byte >= 128;
      }
      return true, result;
    }

    /** pb_decode_varint32_eof: `eof` if there was not even a first byte. */
    method DecodeVarint32() returns (ok: bool, dest: nat, eof: bool)
      requires Valid()
      modifies this
      ensures Leaves(ok, PbMessage.Rest(Decode32(old(Rest()))))
      ensures ok ==> dest == Decode32(old(Rest())).value.0
      ensures eof <==> old(Rest()) == []
      ensures eof ==> Limit() == old(Limit())
    {
      eof, dest := false, 0;
      var got, byte := ReadByte();
      if !got {
        return false, 0, bytesLeft == 0;
      }
      if byte < 128 {
        return true, byte, false;
      }
      var bitpos: nat, result: nat, more := 7, byte % 128, true;
      while more
        invariant Valid() && Limit() == old(Limit()) && bitpos < 256
        invariant more ==> Decode32From(Rest(), bitpos, result) == Decode32(old(Rest()))
        invariant !more ==> Decode32(old(Rest())) ==
                              if bitpos == 35 && (byte / 16) % 8 != 0 then None else Some((result, Rest()))
        decreases more, bytesLeft
      {
        got, byte := ReadByte();
        if !got {
          return false, 0, false;
        }
        if bitpos >= 32 {
          var signExtension := if bitpos < 63 then 0xFF else 0x01;
          if byte % 128 != 0 && (result < P31 || byte != signExtension) {
            return false, 0, false;
          }
        } else {
          result := Or(result, (byte % 128) * Pow2(bitpos)) % P32;
        }
        bitpos := (bitpos + 7) % 256;
        more := byte >= 128;
      }
      if bitpos == 35 && (byte / 16) % 8 != 0 {
        return false, 0, false;
      }
      return true, result, false;
    }

    /** pb_skip_varint. */
    method SkipVarint() returns (ok: bool)
      requires Valid()
      modifies this
      ensures Leaves(ok, PbMessage.SkipVarint(old(Rest())))
    {
      var more := true;
      while more
        invariant Valid() && Limit() == old(Limit())
        invariant PbMessage.SkipVarint(old(Rest())) == if more then PbMessage.SkipVarint(Rest()) else Some(Rest())
        decreases more, bytesLeft
      {
        ghost var before := Rest();
        var got, b := Read(1);
        if !got {
          return false;
        }
        assert b[0] == before[0];
        more := b[0] >= 128;
      }
      ok := true;
    }

    /** pb_skip_string. */
    method SkipString() returns (ok: bool)
      requires Valid()
      modifies this
      ensures Leaves(ok, PbMessage.Rest(ReadDelimited(old(Rest()))))
    {
      hide Decode32;
      var got, length, _ := DecodeVarint32();
      if !got {
        return false;
      }
      ok := Discard(length);
    }

    /** pb_decode_tag. */
    method DecodeTag() returns (ok: bool, eof: bool, wireType: nat, tag: nat)
      requires Valid()
      modifies this
      ensures Valid() && Limit() <= old(Limit())
      ensures ok <==> PbMessage.DecodeTag(old(Rest())).TagRead?
      ensures ok ==> Limit() == old(Limit()) && PbMessage.DecodeTag(old(Rest())) == TagRead(tag, wireType, Rest())
      ensures eof <==> old(Rest()) == [] || PbMessage.DecodeTag(old(Rest())).End?
      ensures eof ==> Limit() == old(Limit())
    {
      hide Decode32;
      NothingToDecode();
      eof, wireType, tag := false, 0, 0;
      var got, temp, atEnd := DecodeVarint32();
      if !got {
        return false, atEnd, 0, 0;
      }
      if temp == 0 {
        return false, true, 0, 0;
      }
      tag := temp / 8;
      wireType := temp % 8;
      ok := true;
    }

    /** pb_skip_field. */
    method SkipField(wireType: nat) returns (ok: bool)
      requires Valid()
      modifies this
      ensures Leaves(ok, Skip(wireType, old(Rest())))
    {
      hide PbMessage.SkipVarint, ReadDelimited;
      if wireType == WT_VARINT {
        ok := SkipVarint();
      } else if wireType == WT_64BIT {
        ok := Discard(8);
      } else if wireType == WT_STRING {
        ok := SkipString();
      } else if wireType == WT_32BIT {
        ok := Discard(4);
      } else {
        ok := false;
      }
    }

    /** Between making a substream and closing it, the parent's bytes are those behind the substream's. */
    ghost predicate Lent(sub: IStream, limit: nat, rest: Bytes)
      reads this, sub
    {
      && sub != this && sub.src == src && sub.Valid()
      && sub.Limit() + bytesLeft == limit <= |src|
      && rest == src[sub.Limit()..limit]
    }

    /** pb_make_string_substream. */
    method MakeSubstream() returns (ok: bool, sub: IStream)
      requires Valid()
      modifies this
      ensures fresh(sub) && Valid() && Limit() <= old(Limit())
      ensures ok <==> ReadDelimited(old(Rest())).Some?
      ensures ok ==> Lent(sub, old(Limit()), ReadDelimited(old(Rest())).value.1)
      ensures ok ==> sub.Rest() == ReadDelimited(old(Rest())).value.0
    {
      hide Decode32;
      var got, size, _ := DecodeVarint32();
      sub := new IStream(src, state, bytesLeft);
      if !got {
        return false, sub;
      }
      if sub.bytesLeft < size {
        return false, sub;
      }
      sub.bytesLeft := size;
      bytesLeft := bytesLeft - size;
      ok := true;
    }

    /** pb_close_string_substream: what the substream did not read is skipped. */
    method CloseSubstream(sub: IStream, ghost limit: nat, ghost rest: Bytes) returns (ok: bool)
      requires Lent(sub, limit, rest)
      modifies this, sub
      ensures ok && Valid() && Limit() == limit && Rest() == rest
    {
      if sub.bytesLeft > 0 {
        var got := sub.Discard(sub.bytesLeft);
        if !got {
          assert false;
        }
      }
      state := sub.state;
      ok := true;
    }
  }

  lemma NothingToDecode()
    ensures Decode32([]) == None
  {
  }
}
