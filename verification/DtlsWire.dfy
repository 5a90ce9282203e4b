/** Constants of DTLS, and handshake fragments on the wire (RFC 6347 section 4.2.2). */
module DtlsWire {
  import opened Octets
  import opened Wrappers

  const HM_HEADER: nat := 12 // DTLS1_HM_HEADER_LENGTH
  const U16: nat := 0x1_0000
  const U24: nat := 0x100_0000
  const SEQ48: nat := 0x1_0000_0000_0000
  const MAX_PLAIN: nat := 16384  // SSL3_RT_MAX_PLAIN_LENGTH
  const FLIGHT: nat := 7         // SSL_MAX_HANDSHAKE_FLIGHT
  const RT_CHANGE_CIPHER_SPEC: nat := 20
  const RT_ALERT: nat := 21
  const RT_HANDSHAKE: nat := 22
  const RT_APPLICATION_DATA: nat := 23
  const MT_FINISHED: nat := 20

  datatype HmHeader = HmHeader(mtype: nat, msgLen: nat, seqNo: nat, fragOff: nat, fragLen: nat) {
    /** The fields fit their places on the wire. */
    predicate Fits() {
      mtype < 256 && msgLen < U24 && seqNo < U16 && fragOff < U24 && fragLen < U24
    }
  }

  function BE2(n: nat): (r: Bytes)
    requires n < U16
    ensures |r| == 2
  {
    [n / 256, n % 256]
  }

  function BE3(n: nat): (r: Bytes)
    requires n < U24
    ensures |r| == 3
  {
    [n / 65536, (n / 256) % 256, n % 256]
  }

  function Get2(b: Bytes, at: nat): (r: nat)
    requires at + 2 <= |b|
    ensures r < U16
  {
    var hi: nat, lo: nat := b[at], b[at + 1];
    hi * 256 + lo
  }

  function Get3(b: Bytes, at: nat): (r: nat)
    requires at + 3 <= |b|
    ensures r < U24
  {
    var hi: nat, mid: nat, lo: nat := b[at], b[at + 1], b[at + 2];
    hi * 65536 + mid * 256 + lo
  }

  /** The twelve header bytes, as dtls1_init_message, dtls1_hm_fragment_new and seal_next_message write them. */
  function HeaderBytes(h: HmHeader): (r: Bytes)
    requires h.Fits()
    ensures |r| == HM_HEADER
  {
    [h.mtype] + BE3(h.msgLen) + BE2(h.seqNo) + BE3(h.fragOff) + BE3(h.fragLen)
  }

  datatype Fragment = Fragment(header: HmHeader, body: Bytes) {
    predicate Fits() {
      header.Fits() && header.fragLen == |body|
    }
  }

  /** dtls1_parse_fragment: the first fragment of `cbs` and what follows it. */
  function ParseFragment(cbs: Bytes): (r: Option<(Fragment, Bytes)>)
    ensures r.Some? ==> r.value.0.Fits() && |r.value.1| < |cbs|
  {
    if |cbs| < HM_HEADER then None
    else
      var h := HmHeader(cbs[0], Get3(cbs, 1), Get2(cbs, 4), Get3(cbs, 6), Get3(cbs, 9));
      if |cbs| - HM_HEADER < h.fragLen then None
      else Some((Fragment(h, cbs[HM_HEADER..HM_HEADER + h.fragLen]), cbs[HM_HEADER + h.fragLen..]))
  }

  function FragmentBytes(f: Fragment): (r: Bytes)
    requires f.Fits()
    ensures |r| == HM_HEADER + |f.body|
  {
    HeaderBytes(f.header) + f.body
  }

  lemma Get3Of(b: Bytes, at: nat, n: nat)
    requires n < U24 && at + 3 <= |b| && b[at..at + 3] == BE3(n)
    ensures Get3(b, at) == n
  {
    assert b[at] == BE3(n)[0] && b[at + 1] == BE3(n)[1] && b[at + 2] == BE3(n)[2];
  }

  lemma Get2Of(b: Bytes, at: nat, n: nat)
    requires n < U16 && at + 2 <= |b| && b[at..at + 2] == BE2(n)
    ensures Get2(b, at) == n
  {
    assert b[at] == BE2(n)[0] && b[at + 1] == BE2(n)[1];
  }

  lemma HeaderParses(h: HmHeader, tail: Bytes)
    requires h.Fits()
    ensures var b := HeaderBytes(h) + tail;
            && b[0] == h.mtype && Get3(b, 1) == h.msgLen && Get2(b, 4) == h.seqNo
            && Get3(b, 6) == h.fragOff && Get3(b, 9) == h.fragLen
  {
    hide BE2, BE3, Get2, Get3;
    var b := HeaderBytes(h) + tail;
    assert b[1..4] == BE3(h.msgLen);
    assert b[4..6] == BE2(h.seqNo);
    assert b[6..9] == BE3(h.fragOff);
    assert b[9..12] == BE3(h.fragLen);
    Get3Of(b, 1, h.msgLen);
    Get2Of(b, 4, h.seqNo);
    Get3Of(b, 6, h.fragOff);
    Get3Of(b, 9, h.fragLen);
  }

  /** Reading inverts writing, whatever follows in the record. */
  lemma ParseInvertsWrite(f: Fragment, rest: Bytes)
    requires f.Fits()
    ensures ParseFragment(FragmentBytes(f) + rest) == Some((f, rest))
  {
    hide HeaderBytes, Get2, Get3;
    var b := FragmentBytes(f) + rest;
    HeaderParses(f.header, f.body + rest);
    assert b == HeaderBytes(f.header) + (f.body + rest);
    assert b[HM_HEADER..HM_HEADER + |f.body|] == f.body;
    assert b[HM_HEADER + |f.body|..] == rest;
  }
}
