/** hm_fragment: one incoming handshake message, possibly not yet assembled. */
module Reassembly {
  import opened Octets
  import opened Wrappers
  import opened DtlsWire
  import opened ByteBits

  /** What has been received of a message: `got` maps body offsets to the bytes accepted for them. */
  datatype Frag = Frag(mtype: nat, seqNo: nat, msgLen: nat, got: map<nat, Byte>) {
    ghost predicate Valid() {
      && FullHeader().Fits()
      && forall i :: i in got ==> i < msgLen
    }

    /** The header of the reassembled message: one fragment holding all of it. */
    function FullHeader(): HmHeader {
      HmHeader(mtype, msgLen, seqNo, 0, msgLen)
    }

    ghost predicate Complete() {
      forall i :: 0 <= i < msgLen ==> i in got
    }

    /** The `raw` bytes handed to the handshake: header, then body. */
    ghost function Raw(): Bytes
      requires Valid() && Complete()
    {
      HeaderBytes(FullHeader()) + seq(msgLen, i requires 0 <= i < msgLen => got[i])
    }

    /** A further fragment with `body` at offset `off`; a complete message ignores it. */
    ghost function Accept(off: nat, body: Bytes): Frag {
      if Complete() then this
      else this.(got := got + Placed(off, body))
    }
  }

  function NewFrag(h: HmHeader): Frag {
    Frag(h.mtype, h.seqNo, h.msgLen, map[])
  }

  /** The positions from `start` up to but not including `end`. */
  ghost function Range(start: nat, end: nat): (r: set<nat>)
    ensures forall i :: i in r <==> start <= i < end
  {
    if start >= end then {} else Range(start, end - 1) + {end - 1}
  }

  /** The bytes of `body` at their offsets in the message. */
  ghost function Placed(off: nat, body: Bytes): (m: map<nat, Byte>)
    ensures m.Keys == Range(off, off + |body|)
    ensures forall i :: i in m ==> off <= i < off + |body| && m[i] == body[i - off]
  {
    if body == [] then map[]
    else Placed(off, body[..|body| - 1])[off + |body| - 1 := body[|body| - 1]]
  }

  ghost predicate Marked(marked: set<nat>, k: nat, j: nat) {
    8 * k + j in marked
  }

  /** The bits set in `bytes`, least significant first, are exactly the positions in `marked`. */
  ghost predicate Tracks(bytes: seq<bv8>, marked: set<nat>) {
    forall k: nat, j: nat :: k < |bytes| && j < 8 ==> (Bit(bytes[k], j) <==> Marked(marked, k, j))
  }

  lemma OrTracks(bytes: seq<bv8>, marked: set<nat>, k: nat, a: nat, b: nat)
    requires Tracks(bytes, marked) && k < |bytes| && a <= b <= 8
    ensures Tracks(bytes[k := bytes[k] | BitRange(a, b)], marked + Range(8 * k + a, 8 * k + b))
  {
    var bytes' := bytes[k := bytes[k] | BitRange(a, b)];
    forall l: nat, j: nat | l < |bytes'| && j < 8
      ensures Bit(bytes'[l], j) <==> Marked(marked + Range(8 * k + a, 8 * k + b), l, j)
    {
      assert Bit(bytes[l], j) <==> Marked(marked, l, j);
      BitOr(bytes[k], BitRange(a, b), j);
      BitOfRange(a, b, j);
    }
  }

  lemma FillTracks(bytes: seq<bv8>, marked: set<nat>, k: nat)
    requires Tracks(bytes, marked) && k < |bytes|
    ensures Tracks(bytes[k := 0xFF], marked + Range(8 * k, 8 * k + 8))
  {
    OrTracks(bytes, marked, k, 0, 8);
    assert BitRange(0, 8) == 0xFF by { Powers(); }
    assert bytes[k] | 0xFF == 0xFF;
  }

  /** A byte equals bit_range(0, n) exactly when its first n positions, and no others, are marked. */
  lemma ByteIsRange(bytes: seq<bv8>, marked: set<nat>, k: nat, n: nat)
    requires Tracks(bytes, marked) && k < |bytes| && n <= 8
    ensures bytes[k] == BitRange(0, n) <==> forall j: nat :: j < 8 ==> (Marked(marked, k, j) <==> j < n)
  {
    forall j: nat | j < 8 ensures Bit(BitRange(0, n), j) <==> j < n {
      BitOfRange(0, n, j);
    }
    assert forall j: nat :: j < 8 ==> (Bit(bytes[k], j) <==> Marked(marked, k, j));
    if forall j: nat :: j < 8 ==> (Marked(marked, k, j) <==> j < n) {
      SameBits(bytes[k], BitRange(0, n));
    }
  }

  class HmFragment {
    const mtype: nat
    const seqNo: nat
    const msgLen: nat
    const data: array<Byte>
    var reassembly: array?<bv8>      // null once the message is complete
    ghost var got: map<nat, Byte>

    ghost function View(): Frag
      reads this
    {
      Frag(mtype, seqNo, msgLen, got)
    }

    ghost function Footprint(): set<object>
      reads this
    {
      {this, data} + if reassembly == null then {} else {reassembly}
    }

    ghost predicate Valid()
      reads this, data, reassembly
    {
      && View().Valid()
      && data.Length == HM_HEADER + msgLen
      && data[..HM_HEADER] == HeaderBytes(View().FullHeader())
      && (forall i :: i in got ==> data[HM_HEADER + i] == got[i])
      && (reassembly == null <==> View().Complete())
      && (reassembly != null ==> reassembly.Length == (msgLen + 7) / 8 && Tracks(reassembly[..], got.Keys))
    }

    /** dtls1_hm_fragment_new. */
    constructor (h: HmHeader)
      requires h.Fits()
      ensures Valid() && View() == NewFrag(h)
      ensures fresh(Footprint())
    {
      mtype, seqNo, msgLen, got := h.mtype, h.seqNo, h.msgLen, map[];
      var header := HeaderBytes(HmHeader(h.mtype, h.msgLen, h.seqNo, 0, h.msgLen));
      data := new Byte[HM_HEADER + h.msgLen](i => if 0 <= i < HM_HEADER then header[i] else 0);
      reassembly := null;
      new;
      assert data[..HM_HEADER] == header;
      if msgLen > 0 {
        reassembly := new bv8[(msgLen + 7) / 8](_ => 0);
        forall j: nat | j < 8 ensures !Bit(0, j) {}
        assert 0 !in got;
      }
    }

    /** dtls1_hm_fragment_mark. `marked` names the positions the bit mask holds on entry. */
    method Mark(start: nat, end: nat, ghost marked: set<nat>)
      requires reassembly != null && reassembly.Length == (msgLen + 7) / 8
      requires start <= end <= msgLen
      requires Tracks(reassembly[..], marked) && (forall i :: i in marked ==> i < msgLen)
      requires !(Range(0, msgLen) <= marked)
      modifies this`reassembly, reassembly
      ensures var marked' := marked + Range(start, end);
              && (reassembly == null <==> Range(0, msgLen) <= marked')
              && (reassembly != null ==> reassembly == old(reassembly) && Tracks(reassembly[..], marked'))
    {
      if start == end {
        assert marked + Range(start, end) == marked;
        return;
      }
      MarkRange(start, end, marked);
      var complete := AllMarked(marked + Range(start, end));
      if complete {
        reassembly := null;
      }
    }

    method MarkRange(start: nat, end: nat, ghost marked: set<nat>)
      requires reassembly != null && reassembly.Length == (msgLen + 7) / 8
      requires start < end <= msgLen && Tracks(reassembly[..], marked)
      modifies reassembly
      ensures Tracks(reassembly[..], marked + Range(start, end))
    {
      if start / 8 == end / 8 {
        OrByte(start / 8, start % 8, end % 8, marked);
      } else {
        OrByte(start / 8, start % 8, 8, marked);
        MarkBytes(start, end, marked);
      }
    }

    /** `reassembly[k] |= bit_range(a, b)`. */
    method OrByte(k: nat, a: nat, b: nat, ghost marked: set<nat>)
      requires reassembly != null && k < reassembly.Length && a <= b <= 8
      requires Tracks(reassembly[..], marked)
      modifies reassembly
      ensures Tracks(reassembly[..], marked + Range(8 * k + a, 8 * k + b))
    {
      ghost var before := reassembly[..];
      OrTracks(before, marked, k, a, b);
      reassembly[k] := reassembly[k] | BitRange(a, b);
      assert reassembly[..] == before[k := before[k] | BitRange(a, b)];
    }

    method MarkBytes(start: nat, end: nat, ghost marked: set<nat>)
      requires reassembly != null && reassembly.Length == (msgLen + 7) / 8
      requires start / 8 < end / 8 && end <= msgLen
      requires Tracks(reassembly[..], marked + Range(start, 8 * (start / 8) + 8))
      modifies reassembly
      ensures Tracks(reassembly[..], marked + Range(start, end))
    {
      for i := start / 8 + 1 to end / 8
        invariant Tracks(reassembly[..], marked + Range(start, 8 * i))
      {
        ghost var before := reassembly[..];
        FillTracks(before, marked + Range(start, 8 * i), i);
        reassembly[i] := 0xFF;
        assert reassembly[..] == before[i := 0xFF];
        assert marked + Range(start, 8 * i) + Range(8 * i, 8 * i + 8) == marked + Range(start, 8 * (i + 1));
      }
      if end % 8 != 0 {
        OrByte(end / 8, 0, end % 8, marked + Range(start, 8 * (end / 8)));
        assert marked + Range(start, 8 * (end / 8)) + Range(8 * (end / 8), end) == marked + Range(start, end);
      }
    }

    /** The completeness test at the end of dtls1_hm_fragment_mark. */
    method AllMarked(ghost marked: set<nat>) returns (all: bool)
      requires reassembly != null && reassembly.Length == (msgLen + 7) / 8
      requires Tracks(reassembly[..], marked) && forall i :: i in marked ==> i < msgLen
      ensures all <==> Range(0, msgLen) <= marked
    {
      assert BitRange(0, 8) == 0xFF by { Powers(); }
      for i := 0 to msgLen / 8
        invariant Range(0, 8 * i) <= marked
      {
        ByteIsRange(reassembly[..], marked, i, 8);
        if reassembly[i] != 0xFF {
          ghost var j: nat :| j < 8 && !Marked(marked, i, j);
          assert 8 * i + j in Range(0, msgLen);
          return false;
        }
        forall m | m in Range(0, 8 * (i + 1)) ensures m in marked {
          assert m >= 8 * i ==> Marked(marked, i, m - 8 * i);
          assert m < 8 * i ==> m in Range(0, 8 * i);
        }
      }
      if msgLen % 8 != 0 {
        var k := msgLen / 8;
        ByteIsRange(reassembly[..], marked, k, msgLen % 8);
        if reassembly[k] != BitRange(0, msgLen % 8) {
          ghost var j: nat :| j < 8 && !(Marked(marked, k, j) <==> j < msgLen % 8);
          assert 8 * k + j in Range(0, msgLen);
          return false;
        }
        forall m | m in Range(0, msgLen) ensures m in marked {
          assert m >= 8 * k ==> Marked(marked, k, m - 8 * k);
          assert m < 8 * k ==> m in Range(0, 8 * k);
        }
      }
      return true;
    }

    /** The copy and the mark with which dtls1_open_handshake adds a fragment to an incomplete message. */
    method Accept(off: nat, body: Bytes)
      requires Valid() && reassembly != null && off + |body| <= msgLen
      modifies this`reassembly, this`got, data, reassembly
      ensures Valid() && View() == old(View()).Accept(off, body)
      ensures reassembly == null || reassembly == old(reassembly)
    {
      CopyBody(off, body);
      ghost var added := Placed(off, body);
      assert (got + added).Keys == got.Keys + Range(off, off + |body|);
      CompleteIffMarked(got, msgLen);
      CompleteIffMarked(got + added, msgLen);
      Mark(off, off + |body|, got.Keys);
      got := got + added;
    }

    /** The bytes dtls1_get_message hands out. */
    method RawBytes() returns (raw: Bytes)
      requires Valid() && reassembly == null
      ensures raw == View().Raw()
    {
      raw := data[..];
      assert raw == raw[..HM_HEADER] + raw[HM_HEADER..];
    }

    /** OPENSSL_memcpy into the message body. */
    method CopyBody(off: nat, body: Bytes)
      requires data.Length == HM_HEADER + msgLen && off + |body| <= msgLen
      requires forall i :: i in got ==> i < msgLen && data[HM_HEADER + i] == got[i]
      modifies data
      ensures data[..HM_HEADER] == old(data[..HM_HEADER])
      ensures forall i :: i in got + Placed(off, body) ==>
                i < msgLen && data[HM_HEADER + i] == (got + Placed(off, body))[i]
    {
      var start := HM_HEADER + off;
      for k := 0 to |body|
        invariant data[..HM_HEADER] == old(data[..HM_HEADER])
        invariant forall j :: start <= j < start + k ==> data[j] == body[j - start]
        invariant forall j :: HM_HEADER <= j < start || start + k <= j < data.Length ==> data[j] == old(data[j])
      {
        data[start + k] := body[k];
      }
    }
  }

  lemma CompleteIffMarked(got: map<nat, Byte>, msgLen: nat)
    ensures (forall i :: 0 <= i < msgLen ==> i in got) <==> Range(0, msgLen) <= got.Keys
  {
    if Range(0, msgLen) <= got.Keys {
      forall i | 0 <= i < msgLen ensures i in got {
        assert i in Range(0, msgLen);
      }
    }
  }
}
