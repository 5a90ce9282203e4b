/** What a receiver answers: which fragments and records are ignored, stored, or end the connection. */
module DtlsAnswers {
  import opened Octets
  import opened Wrappers
  import opened DtlsWire
  import opened ReplayWindow
  import opened Reassembly
  import opened DtlsWriter
  import opened WriterRuns
  import opened DtlsReader
  import opened DtlsSystem

  // Any fragment, whoever wrote it.

  /** The fragment lies within its message, and the message is no longer than is allowed. */
  predicate Sound(f: Fragment, maxLen: nat) {
    f.header.fragOff + f.header.fragLen <= f.header.msgLen <= maxLen
  }

  /** Another message of this number, of another type or length, is buffered. */
  predicate Contradicts(r: Reader, f: Fragment)
    requires |r.slots| == FLIGHT
  {
    var s := r.slots[f.header.seqNo % FLIGHT];
    r.readSeq <= f.header.seqNo < r.readSeq + FLIGHT
    && s.Some? && (s.value.mtype != f.header.mtype || s.value.msgLen != f.header.msgLen)
  }

  /** The fragments that end the connection: malformed ones, in epoch 1 those of any message but the current one, those
      exactly seven ahead, and those at odds with what is buffered. */
  lemma FatalFragments(r: Reader, f: Fragment, maxLen: nat)
    requires |r.slots| == FLIGHT
    ensures var n := f.header.seqNo;
            r.OpenFragment(f, maxLen).None? <==>
              !Sound(f, maxLen) || (r.epoch == 1 && n != r.readSeq) || n == r.readSeq + FLIGHT || Contradicts(r, f)
  {
  }

  /** Fragments of messages taken already, or too far ahead, change nothing. */
  lemma OldFragmentIsIgnored(r: Reader, f: Fragment, maxLen: nat)
    requires |r.slots| == FLIGHT && Sound(f, maxLen) && r.epoch != 1
    requires f.header.seqNo < r.readSeq || f.header.seqNo > r.readSeq + FLIGHT
    ensures r.OpenFragment(f, maxLen) == Some(r)
  {
  }

  /** The body bytes that slot i holds. */
  ghost function Held(r: Reader, i: nat): map<nat, Byte>
    requires i < FLIGHT == |r.slots|
  {
    if r.slots[i].Some? then r.slots[i].value.got else map[]
  }

  /** All other fragments are put into the slot of their message, which then has their type and length, and leave the
      other slots alone. A message that is complete stays as it is; otherwise it holds the bytes of the fragment, and
      elsewhere what it held before. */
  lemma FragmentIsStored(r: Reader, f: Fragment, maxLen: nat)
    requires |r.slots| == FLIGHT && r.Valid() && f.Fits() && r.OpenFragment(f, maxLen).Some?
    requires r.readSeq <= f.header.seqNo < r.readSeq + FLIGHT
    ensures var r', at := r.OpenFragment(f, maxLen).value, f.header.seqNo % FLIGHT;
            && r' == r.(slots := r'.slots) && |r'.slots| == FLIGHT
            && (forall i :: 0 <= i < FLIGHT && i != at ==> r'.slots[i] == r.slots[i])
            && r'.slots[at].Some? && IsStored(Held(r, at), f, r'.slots[at].value)
  {
    hide Reader.Valid, IsStored, Frag.Accept;
    var at := f.header.seqNo % FLIGHT;
    if r.slots[at].Some? {
      FragmentFoundIsItsMessage(r, f.header);
    }
    StoredBytes(r.GetIncoming(f.header).value, f);
  }

  /** `frag` is the message of `f`, with its bytes in addition to those it had, unless it had them all. */
  ghost predicate IsStored(was: map<nat, Byte>, f: Fragment, frag: Frag) {
    var h := f.header;
    && frag.seqNo == h.seqNo && frag.mtype == h.mtype && frag.msgLen == h.msgLen
    && if forall i: nat :: i < h.msgLen ==> i in was then frag.got == was
       else
         && (forall i: nat :: i in frag.got <==> i in was || h.fragOff <= i < h.fragOff + |f.body|)
         && (forall i: nat :: h.fragOff <= i < h.fragOff + |f.body| ==> frag.got[i] == f.body[i - h.fragOff])
         && forall i: nat :: i in was && !(h.fragOff <= i < h.fragOff + |f.body|) ==> frag.got[i] == was[i]
  }

  lemma StoredBytes(frag: Frag, f: Fragment)
    requires frag.seqNo == f.header.seqNo && frag.mtype == f.header.mtype && frag.msgLen == f.header.msgLen
    ensures IsStored(frag.got, f, frag.Accept(f.header.fragOff, f.body))
  {
  }

  // Records from the other side.

  /** What a receiver makes of a record that its peer sent: a record that comes again, or in another epoch, is
      discarded; and a part of message k is an error only if k is seven ahead, or, in epoch 1, not the current one.
      Parts of messages already taken, as retransmissions bring them, do no harm. */
  lemma PeerIsAnswered(s: Sys, rec: Record, maxLen: nat, f: Fragment, k: nat, off: nat, len: nat)
    requires SysInv(s) && Deliverable(s.w, rec) && rec.opens && rec.rtype == RT_HANDSHAKE && |rec.plain| <= MAX_PLAIN
    requires Part(s.w.transcript, f, k, off, len) && ParseFragment(rec.plain) == Some((f, []))
    requires |s.w.transcript[k].body| <= maxLen
    ensures var (r', outcome) := s.r.OpenHandshake(rec, maxLen);
            if rec.epoch != s.r.epoch || Refused(s.r.seen, rec.Number()) then outcome == Discard && r' == s.r
            else
              && r'.seen == s.r.seen + {rec.Number()}
              && outcome == (if k == s.r.readSeq + FLIGHT || (s.r.epoch == 1 && k != s.r.readSeq) then Error
                             else Success)
              && (k < s.r.readSeq || k >= s.r.readSeq + FLIGHT ==> r'.slots == s.r.slots)
  {
    hide Inv, AcceptedInv, DeliveredInv, Refused, ParseFragment, Reader.OpenFragment, SlotInv, OneEpoch, Reader.Valid,
         Buffered;
    if rec.epoch == s.r.epoch && !Refused(s.r.seen, rec.Number()) {
      var after := s.r.OpenRecord(rec).0;
      OneFragmentRecord(after, f, rec.plain, maxLen);
      FatalFragments(after, f, maxLen);
      OpenRecordKeepsInv(s.w.transcript, s.r, s.log, rec);
      HandshakeKeepsCounters(s.r, rec, maxLen);
      HonestIsNoContradiction(s.w.transcript, after, s.log, f, k, off, len);
      if after.epoch != 1 && (k < after.readSeq || k > after.readSeq + FLIGHT) {
        OldFragmentIsIgnored(after, f, maxLen);
      }
    }
  }

  lemma HonestIsNoContradiction(t: seq<Message>, r: Reader, log: seq<Entry>, f: Fragment, k: nat, off: nat, len: nat)
    requires ReaderInv(t, r, log) && Part(t, f, k, off, len)
    ensures !Contradicts(r, f)
  {
    hide Reader.Valid, Covered, OneEpoch;
    if r.readSeq <= k < r.readSeq + FLIGHT && r.slots[k % FLIGHT].Some? {
      FragmentFoundIsItsMessage(r, f.header);
      assert SlotInv(t, r.epoch, log, r.slots[k % FLIGHT].value);
    }
  }

  /** In every run: a handshake record that the network delivers and that opens is never an error while the read epoch
      is not 1, unless its message is exactly seven ahead. */
  lemma EveryRunIsAnswered(s: Sys, actions: seq<Action>, rec: Record, maxLen: nat)
    returns (f: Fragment, k: nat, off: nat, len: nat)
    requires SysInit(s) && DtlsSystem.Run(s, actions).Some?
    requires var v := DtlsSystem.Run(s, actions).value;
             Deliverable(v.w, rec) && rec.opens && rec.rtype == RT_HANDSHAKE && |rec.plain| <= MAX_PLAIN
    ensures var v := DtlsSystem.Run(s, actions).value;
            && |v.r.slots| == FLIGHT
            && Part(v.w.transcript, f, k, off, len) && ParseFragment(rec.plain) == Some((f, []))
            && (|v.w.transcript[k].body| <= maxLen && v.r.epoch != 1 && k != v.r.readSeq + FLIGHT ==>
                  var outcome := v.r.OpenHandshake(rec, maxLen).1;
                  outcome == Success || outcome == Discard)
  {
    hide SysInv, Deliverable, Reader.OpenHandshake, ParseFragment, SysInit, DtlsSystem.Run, Part;
    DtlsSystem.EveryRun(s, actions);
    var v := DtlsSystem.Run(s, actions).value;
    f, k, off, len := PartDelivered(v, rec);
    if |v.w.transcript[k].body| <= maxLen {
      PeerIsAnswered(v, rec, maxLen, f, k, off, len);
    }
  }

  lemma PartDelivered(s: Sys, rec: Record) returns (f: Fragment, k: nat, off: nat, len: nat)
    requires SysInv(s) && Deliverable(s.w, rec) && rec.opens && rec.rtype == RT_HANDSHAKE
    ensures Part(s.w.transcript, f, k, off, len) && ParseFragment(rec.plain) == Some((f, []))
    ensures k < |s.w.transcript|
  {
    hide Inv, ReaderInv, AcceptedInv, Deliverable, ParseFragment;
    DeliverableIsHonest(s.w, rec);
    f, k, off, len :| Part(s.w.transcript, f, k, off, len) && ParseFragment(rec.plain) == Some((f, []));
  }

  // ChangeCipherSpec and application data.

  /** A record of the read epoch that the window lets through, that opens, and that is not too long. */
  ghost predicate Comes(r: Reader, rec: Record) {
    rec.epoch == r.epoch && !Refused(r.seen, rec.Number()) && rec.opens && |rec.plain| <= MAX_PLAIN
  }

  /** A ChangeCipherSpec in the clear is kept back, blocks a change of the read epoch until it is asked for, and is
      then reported once; until another one comes. An encrypted or malformed one is an error. */
  lemma CcsIsReportedOnce(r: Reader, rec: Record, maxLen: nat, other: Record)
    requires |r.slots| == FLIGHT && Comes(r, rec) && rec.rtype == RT_CHANGE_CIPHER_SPEC
    ensures var (r', outcome) := r.OpenHandshake(rec, maxLen);
            if r.nullCipher && rec.plain == CCS then
              && outcome == Success && r'.HasUnprocessed() && r'.slots == r.slots
              && var (r'', outcome') := r'.OpenChangeCipherSpec(other, maxLen);
                 outcome' == Success && !r''.hasCcs && r'' == r'.(hasCcs := false)
            else outcome == Error
  {
    hide Refused;
  }

  /** Asked for a ChangeCipherSpec when none is kept back, the receiver reads a record: one that brings it is a
      success, and anything else that is not an error is put aside and discarded. */
  lemma CcsIsAwaited(r: Reader, rec: Record, maxLen: nat)
    requires |r.slots| == FLIGHT && !r.hasCcs
    ensures var (r', outcome) := r.OpenChangeCipherSpec(rec, maxLen);
            && !r'.hasCcs
            && (outcome == Success <==> Comes(r, rec) && rec.rtype == RT_CHANGE_CIPHER_SPEC && r.nullCipher
                                        && rec.plain == CCS)
            && r'.slots == r.OpenHandshake(rec, maxLen).0.slots && r'.seen == r.OpenHandshake(rec, maxLen).0.seen
  {
    hide Refused, Reader.OpenFragments;
    if rec.rtype == RT_HANDSHAKE {
      FragmentsKeepCounters(r.OpenRecord(rec).0, rec.plain, maxLen);
    }
  }

  /** During a handshake, application data in the clear is an error, and encrypted data, which may overtake the end of
      the handshake, is dropped; neither touches the ring. */
  lemma EarlyDataIsDropped(r: Reader, rec: Record, maxLen: nat)
    requires |r.slots| == FLIGHT && Comes(r, rec) && rec.rtype == RT_APPLICATION_DATA
    ensures var (r', outcome) := r.OpenHandshake(rec, maxLen);
            (outcome == Error <==> r.nullCipher) && outcome != Success && r'.slots == r.slots && r'.hasCcs == r.hasCcs
  {
    hide Refused;
  }

  /** After the handshake, a record of application data is handed over once, if it is not empty: it is discarded when
      it comes again, and so is what comes of another epoch or does not open. */
  lemma DataIsHandedOverOnce(r: Reader, rec: Record, timeoutOk: bool, again: Record)
    requires rec.rtype == RT_APPLICATION_DATA && Comes(r, rec)
    requires again.epoch == rec.epoch && again.seqNo == rec.seqNo
    ensures var (r', outcome, retransmit) := r.OpenAppData(rec, timeoutOk);
            && !retransmit && r' == r.(seen := r.seen + {rec.Number()})
            && outcome == (if rec.plain == [] then Discard else Success)
            && r'.OpenAppData(again, timeoutOk) == (r', Discard, false)
  {
    assert rec.Number() in r.seen + {rec.Number()};
  }

  lemma OthersAreNotData(r: Reader, rec: Record, timeoutOk: bool)
    ensures var (r', outcome, retransmit) := r.OpenAppData(rec, timeoutOk);
            && (outcome == Success ==> Comes(r, rec) && rec.rtype == RT_APPLICATION_DATA)
            && (!Comes(r, rec) ==> outcome != Success && !retransmit && r' == r)
            && (rec.epoch != r.epoch || Refused(r.seen, rec.Number()) || !rec.opens ==> outcome == Discard)
            && (Comes(r, rec) && rec.rtype != RT_HANDSHAKE && rec.rtype != RT_APPLICATION_DATA ==>
                  outcome == if rec.rtype == RT_ALERT then Alert else Error)
  {
    hide Refused, ParseFragment;
  }
}
