/** The constant-time selection of the RSA premaster secret in do_read_client_key_exchange. */
module RsaPremaster {
  import opened ConstantTime

  // SSL_MAX_MASTER_KEY_LENGTH, and the smallest PKCS#1 type 2 overhead around it.
  const PREMASTER_LEN := 48
  const MIN_OVERHEAD := 11

  type Bytes = seq<bv8>

  /** RFC 3447 section 7.2.2: `em` is 0x00 || 0x02 || ps || 0x00 || m with at least eight nonzero padding
      octets, and `m` is a premaster secret that begins with the client's version (RFC 5246 section 7.4.7.1). */
  ghost predicate Encodes(em: Bytes, clientVersion: bv16, ps: Bytes, m: Bytes) {
    && em == [0, 2] + ps + [0] + m
    && |ps| >= 8 && (forall i :: 0 <= i < |ps| ==> ps[i] != 0)
    && |m| == PREMASTER_LEN
    && m[0] as bv16 == clientVersion >> 8 && m[1] as bv16 == clientVersion & 0xFF
  }

  ghost predicate WellFormed(em: Bytes, clientVersion: bv16) {
    exists ps, m :: Encodes(em, clientVersion, ps, m)
  }

  /** The same condition by position, as the branch-free code tests it. */
  predicate PaddingGood(em: Bytes, clientVersion: bv16)
    requires |em| >= MIN_OVERHEAD + PREMASTER_LEN
  {
    var paddingLen := |em| - PREMASTER_LEN;
    && em[0] == 0 && em[1] == 2
    && (forall i :: 2 <= i < paddingLen - 1 ==> em[i] != 0)
    && em[paddingLen - 1] == 0
    && em[paddingLen] as bv16 == clientVersion >> 8
    && em[paddingLen + 1] as bv16 == clientVersion & 0xFF
  }

  lemma PaddingGoodIffWellFormed(em: Bytes, clientVersion: bv16)
    requires |em| >= MIN_OVERHEAD + PREMASTER_LEN
    ensures PaddingGood(em, clientVersion) <==> WellFormed(em, clientVersion)
  {
    var paddingLen := |em| - PREMASTER_LEN;
    if PaddingGood(em, clientVersion) {
      var ps, m := em[2..paddingLen - 1], em[paddingLen..];
      assert em == [0, 2] + ps + [0] + m;
      assert Encodes(em, clientVersion, ps, m);
    }
    if WellFormed(em, clientVersion) {
      var ps, m :| Encodes(em, clientVersion, ps, m);
      assert |ps| == paddingLen - 3;
      assert forall i :: 2 <= i < paddingLen - 1 ==> em[i] == ps[i - 2];
      assert em[paddingLen - 1] == 0;
      assert em[paddingLen] == m[0] && em[paddingLen + 1] == m[1];
    }
  }

  /** A message shorter than 59 bytes encodes no premaster, so the early error rejects nothing good. */
  lemma ShortIsNotWellFormed(em: Bytes, clientVersion: bv16)
    requires |em| < MIN_OVERHEAD + PREMASTER_LEN
    ensures !WellFormed(em, clientVersion)
  {
    forall ps, m ensures !Encodes(em, clientVersion, ps, m) {
      if em == [0, 2] + ps + [0] + m && |ps| >= 8 {
        assert |m| == |em| - |ps| - 3;
      }
    }
  }

  lemma MaskAnd(p: bool, q: bool)
    ensures (if p then TRUE_8 else 0) & (if q then TRUE_8 else 0) == if p && q then TRUE_8 else 0
    ensures (if p then TRUE_8 else 0) & !(if q then TRUE_8 else 0) == if p && !q then TRUE_8 else 0
  {
  }

  /** `premaster` holds random bytes on entry. Nothing below branches on a decrypted byte. */
  method SelectPremaster(em: Bytes, clientVersion: bv16, premaster: array<bv8>) returns (ok: bool)
    requires premaster.Length == PREMASTER_LEN
    modifies premaster
    ensures ok <==> |em| >= MIN_OVERHEAD + PREMASTER_LEN
    ensures premaster[..] ==
            if WellFormed(em, clientVersion) then em[|em| - PREMASTER_LEN..] else old(premaster[..])
  {
    ghost var random := premaster[..];
    if |em| < MIN_OVERHEAD + premaster.Length {
      ShortIsNotWellFormed(em, clientVersion);
      return false;
    }
    var paddingLen := |em| - premaster.Length;
    Mask8(em[0] as bv64, 0);
    Mask8(em[1] as bv64, 2);
    var good: bv8 := Eq8(em[0] as bv64, 0) & Eq8(em[1] as bv64, 2);
    MaskAnd(em[0] == 0, em[1] == 2);
    ghost var isGood := em[0] == 0 && em[1] == 2;
    for i := 2 to paddingLen - 1
      invariant isGood <==> em[0] == 0 && em[1] == 2 && forall j :: 2 <= j < i ==> em[j] != 0
      invariant good == if isGood then TRUE_8 else 0
      invariant premaster[..] == random
    {
      Mask8(em[i] as bv64, 0);
      MaskAnd(isGood, em[i] == 0);
      good := good & !IsZero8(em[i] as bv64);
      isGood := isGood && em[i] != 0;
    }
    Mask8(em[paddingLen - 1] as bv64, 0);
    MaskAnd(isGood, em[paddingLen - 1] == 0);
    good := good & IsZero8(em[paddingLen - 1] as bv64);
    isGood := isGood && em[paddingLen - 1] == 0;

    good, isGood := MaskVersionByte(good, isGood, em[paddingLen], clientVersion >> 8);
    good, isGood := MaskVersionByte(good, isGood, em[paddingLen + 1], clientVersion & 0xFF);
    assert isGood <==> PaddingGood(em, clientVersion);
    PaddingGoodIffWellFormed(em, clientVersion);

    for i := 0 to premaster.Length
      invariant premaster[..i] == if isGood then em[paddingLen..][..i] else random[..i]
      invariant premaster[i..] == random[i..]
    {
      Select8Selects(good, em[paddingLen + i], premaster[i]);
      premaster[i] := Select8(good, em[paddingLen + i], premaster[i]);
    }
    ok := true;
  }

  method MaskVersionByte(good: bv8, ghost isGood: bool, b: bv8, expected: bv16)
    returns (good': bv8, ghost isGood': bool)
    requires good == if isGood then TRUE_8 else 0
    ensures isGood' <==> isGood && b as bv16 == expected
    ensures good' == if isGood && b as bv16 == expected then TRUE_8 else 0
  {
    Mask8(b as bv64, expected as bv64);
    assert (b as bv64 == expected as bv64) <==> (b as bv16 == expected);
    MaskAnd(isGood, b as bv16 == expected);
    good' := good & Eq8(b as bv64, expected as bv64);
    isGood' := isGood && b as bv16 == expected;
  }
}
