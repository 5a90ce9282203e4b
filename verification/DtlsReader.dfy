/** The receiving half of a DTLS connection: records, epochs and the ring of incoming handshake messages.
    Functions on `Reader` values say what each step does; class `Dtls1Reader` carries the steps out in place. */
module DtlsReader {
  import opened Octets
  import opened Wrappers
  import opened DtlsWire
  import opened ReplayWindow
  import opened Reassembly

  /** A record with its header decoded. `opens` is what the AEAD says of it, `plain` the plaintext if it opens. */
  datatype Record = Record(rtype: nat, epoch: nat, seqNo: nat, opens: bool, plain: Bytes) {
    predicate Fits() {
      epoch < U16 && seqNo < SEQ48
    }

    /** The eight bytes of epoch and sequence number, as one 64-bit number. */
    function Number(): nat {
      epoch * SEQ48 + seqNo
    }
  }

  datatype Outcome = Success | Discard | Alert | Error

  datatype Reader = Reader(
    epoch: nat,
    seen: set<nat>,              // record numbers recorded in the current epoch
    nullCipher: bool,
    hasCcs: bool,                // has_change_cipher_spec
    readSeq: nat,                // handshake_read_seq
    hasMessage: bool,
    slots: seq<Option<Frag>>)    // incoming_messages
  {
    /** Slot i is empty or holds the one message of the current window whose number is i modulo 7. */
    ghost predicate Valid() {
      && epoch < U16 && readSeq < U16 && |slots| == FLIGHT
      && (forall n :: n in seen ==> epoch * SEQ48 <= n < (epoch + 1) * SEQ48)
      && (forall i :: 0 <= i < FLIGHT && slots[i].Some? ==> SlotOk(i, slots[i].value))
      && (hasMessage ==> CurrentComplete())
    }

    ghost predicate SlotOk(i: nat, f: Frag) {
      f.Valid() && f.seqNo % FLIGHT == i && readSeq <= f.seqNo < readSeq + FLIGHT
    }

    /** dtls1_is_current_message_complete. */
    ghost predicate CurrentComplete()
      requires |slots| == FLIGHT
    {
      slots[readSeq % FLIGHT].Some? && slots[readSeq % FLIGHT].value.Complete()
    }

    /** The message at handshake_read_seq. */
    ghost function Current(): Frag
      requires |slots| == FLIGHT && CurrentComplete()
    {
      slots[readSeq % FLIGHT].value
    }

    /** dtls_open_record. */
    ghost function OpenRecord(rec: Record): (Reader, Outcome) {
      if rec.epoch != epoch || Refused(seen, rec.Number()) then (this, Discard)
      else if !rec.opens then (this, Discard)
      else if |rec.plain| > MAX_PLAIN then (this, Error)
      else (this.(seen := seen + {rec.Number()}), if rec.rtype == RT_ALERT then Alert else Success)
    }

    /** One turn of the loop of dtls1_open_handshake: a parsed fragment. None means the turn fails. */
    ghost function OpenFragment(f: Fragment, maxLen: nat): (r: Option<Reader>)
      requires |slots| == FLIGHT
      ensures r.Some? ==> |r.value.slots| == FLIGHT
    {
      var h := f.header;
      if h.fragOff + h.fragLen > h.msgLen || h.msgLen > maxLen then None
      else if epoch == 1 && h.seqNo != readSeq then None
      else if h.seqNo < readSeq || h.seqNo > readSeq + FLIGHT then Some(this)
      else match GetIncoming(h)
        case None => None
        case Some(frag) => Some(this.(slots := slots[h.seqNo % FLIGHT := Some(frag.Accept(h.fragOff, f.body))]))
    }

    /** dtls1_get_incoming_message. */
    ghost function GetIncoming(h: HmHeader): Option<Frag>
      requires |slots| == FLIGHT
    {
      if h.seqNo < readSeq || h.seqNo - readSeq >= FLIGHT then None
      else match slots[h.seqNo % FLIGHT]
        case None => Some(NewFrag(h))
        case Some(frag) => if frag.mtype != h.mtype || frag.msgLen != h.msgLen then None else Some(frag)
    }

    /** The loop of dtls1_open_handshake over the fragments in a record. */
    ghost function OpenFragments(plain: Bytes, maxLen: nat): (r: (Reader, Outcome))
      requires |slots| == FLIGHT
      ensures |r.0.slots| == FLIGHT
      decreases |plain|
    {
      if plain == [] then (this, Success)
      else match ParseFragment(plain)
        case None => (this, Error)
        case Some((f, rest)) =>
          match OpenFragment(f, maxLen)
          case None => (this, Error)
          case Some(next) => next.OpenFragments(rest, maxLen)
    }

    /** dtls1_open_handshake. */
    ghost function OpenHandshake(rec: Record, maxLen: nat): (r: (Reader, Outcome))
      requires |slots| == FLIGHT
      ensures |r.0.slots| == FLIGHT
    {
      var (after, outcome) := OpenRecord(rec);
      if outcome != Success then (after, outcome)
      else if rec.rtype == RT_APPLICATION_DATA then (after, if nullCipher then Error else Discard)
      else if rec.rtype == RT_CHANGE_CIPHER_SPEC then
        if !nullCipher || rec.plain != [1] then (after, Error) else (after.(hasCcs := true), Success)
      else if rec.rtype == RT_HANDSHAKE then after.OpenFragments(rec.plain, maxLen)
      else (after, Error)
    }

    /** dtls1_next_message. */
    function NextMessage(): Reader
      requires |slots| == FLIGHT
    {
      this.(slots := slots[readSeq % FLIGHT := None], readSeq := (readSeq + 1) % U16, hasMessage := false)
    }

    /** dtls_has_unprocessed_handshake_data. */
    predicate HasUnprocessed()
      requires |slots| == FLIGHT
    {
      hasCcs || exists i :: 0 <= i < FLIGHT && !(hasMessage && i == readSeq % FLIGHT) && slots[i].Some?
    }

    /** dtls1_open_change_cipher_spec. */
    ghost function OpenChangeCipherSpec(rec: Record, maxLen: nat): (r: (Reader, Outcome))
      requires |slots| == FLIGHT
      ensures |r.0.slots| == FLIGHT
    {
      var (after, outcome) := if hasCcs then (this, Success) else OpenHandshake(rec, maxLen);
      if outcome != Success then (after, outcome)
      else if after.hasCcs then (after.(hasCcs := false), Success)
      else (after, Discard)
    }

    /** dtls1_open_app_data; `timeoutOk` is dtls1_check_timeout_num. The flag asks for a retransmission. */
    ghost function OpenAppData(rec: Record, timeoutOk: bool): (Reader, Outcome, bool) {
      var (after, outcome) := OpenRecord(rec);
      if outcome != Success then (after, outcome, false)
      else if rec.rtype == RT_HANDSHAKE && ParseFragment(rec.plain).None? then (after, Error, false)
      else if rec.rtype == RT_HANDSHAKE && IsLastFinished(ParseFragment(rec.plain).value.0.header) then
        if ParseFragment(rec.plain).value.0.header.fragOff != 0 then (after, Discard, false)
        else if !timeoutOk then (after, Error, false)
        else (after, Discard, true)
      else if rec.rtype != RT_APPLICATION_DATA then (after, Error, false)
      else (after, if rec.plain == [] then Discard else Success, false)
    }

    predicate IsLastFinished(h: HmHeader) {
      h.mtype == MT_FINISHED && h.seqNo == readSeq - 1
    }

    /** dtls1_set_read_state, when it succeeds. */
    function SetReadState(): Reader {
      this.(epoch := (epoch + 1) % U16, seen := {}, nullCipher := false)
    }
  }

  lemma OpenFragmentValid(r: Reader, f: Fragment, maxLen: nat)
    requires r.Valid() && f.Fits() && r.OpenFragment(f, maxLen).Some?
    ensures r.OpenFragment(f, maxLen).value.Valid()
  {
    var h := f.header;
    if r.readSeq <= h.seqNo < r.readSeq + FLIGHT {
      var frag := r.GetIncoming(h).value;
      assert r.SlotOk(h.seqNo % FLIGHT, frag) by {
        SameResidue(r.readSeq, h.seqNo, frag.seqNo);
      }
      var r' := r.OpenFragment(f, maxLen).value;
      assert r'.slots[h.seqNo % FLIGHT].value.seqNo == frag.seqNo;
      forall i | 0 <= i < FLIGHT && r'.slots[i].Some? ensures r'.SlotOk(i, r'.slots[i].value) {
        if i != h.seqNo % FLIGHT {
          assert r.SlotOk(i, r.slots[i].value);
        }
      }
    }
  }

  /** Two numbers of one window of seven with equal residues are equal. */
  lemma SameResidue(base: nat, a: nat, b: nat)
    requires base <= a < base + FLIGHT && base <= b < base + FLIGHT && a % FLIGHT == b % FLIGHT
    ensures a == b
  {
    assert a - b == FLIGHT * (a / FLIGHT - b / FLIGHT);
  }

  /** The assertion `frag->seq == msg_hdr->seq` of dtls1_get_incoming_message always holds. */
  lemma FragmentFoundIsItsMessage(r: Reader, h: HmHeader)
    requires r.Valid() && r.readSeq <= h.seqNo < r.readSeq + FLIGHT && r.slots[h.seqNo % FLIGHT].Some?
    ensures r.slots[h.seqNo % FLIGHT].value.seqNo == h.seqNo
  {
    var frag := r.slots[h.seqNo % FLIGHT].value;
    assert r.SlotOk(h.seqNo % FLIGHT, frag);
    SameResidue(r.readSeq, h.seqNo, frag.seqNo);
  }

  lemma {:induction false} OpenFragmentsValid(r: Reader, plain: Bytes, maxLen: nat)
    requires r.Valid()
    ensures r.OpenFragments(plain, maxLen).0.Valid()
    decreases |plain|
  {
    var parsed := ParseFragment(plain);
    if plain == [] || parsed.None? || r.OpenFragment(parsed.value.0, maxLen).None? {
    } else {
      OpenFragmentValid(r, parsed.value.0, maxLen);
      OpenFragmentsValid(r.OpenFragment(parsed.value.0, maxLen).value, parsed.value.1, maxLen);
    }
  }

  lemma OpenRecordValid(r: Reader, rec: Record)
    requires r.Valid() && rec.Fits()
    ensures r.OpenRecord(rec).0.Valid()
  {
    var r' := r.OpenRecord(rec).0;
    forall i | 0 <= i < FLIGHT && r'.slots[i].Some? ensures r'.SlotOk(i, r'.slots[i].value) {
      assert r.SlotOk(i, r.slots[i].value);
    }
  }

  /** Every record, whatever it holds, keeps the ring and the window in order. */
  lemma OpenHandshakeValid(r: Reader, rec: Record, maxLen: nat)
    requires r.Valid() && rec.Fits()
    ensures r.OpenHandshake(rec, maxLen).0.Valid()
  {
    OpenRecordValid(r, rec);
    OpenFragmentsValid(r.OpenRecord(rec).0, rec.plain, maxLen);
    var r' := r.OpenRecord(rec).0;
    var r'' := r'.(hasCcs := true);
    forall i | 0 <= i < FLIGHT && r''.slots[i].Some? ensures r''.SlotOk(i, r''.slots[i].value) {
      assert r'.SlotOk(i, r'.slots[i].value);
    }
  }

  /** Taking a message keeps the ring in order, even when the 16-bit message number wraps: only message 65535 can
      then be buffered, and it is the one taken. */
  lemma NextMessageValid(r: Reader)
    requires r.Valid() && r.hasMessage
    ensures r.NextMessage().Valid()
  {
    var r' := r.NextMessage();
    forall i | 0 <= i < FLIGHT && r'.slots[i].Some? ensures r'.SlotOk(i, r'.slots[i].value) {
      var f := r.slots[i].value;
      assert r.SlotOk(i, f);
      assert f.seqNo != r.readSeq;
    }
  }

  lemma SetReadStateValid(r: Reader)
    requires r.Valid()
    ensures r.SetReadState().Valid()
  {
    var r' := r.SetReadState();
    forall i | 0 <= i < FLIGHT && r'.slots[i].Some? ensures r'.SlotOk(i, r'.slots[i].value) {
      assert r.SlotOk(i, r.slots[i].value);
    }
  }

  /** After the handshake, the peer's last Finished sent again asks for a retransmission by its first fragment, and by
      no other; a Finished with another number is an error. The ring is left alone. */
  lemma RepeatedFinished(r: Reader, rec: Record, f: Fragment, rest: Bytes, timeoutOk: bool)
    requires f.Fits() && f.header.mtype == MT_FINISHED
    requires rec.rtype == RT_HANDSHAKE && rec.plain == FragmentBytes(f) + rest && r.OpenRecord(rec).1 == Success
    ensures var (r', outcome, retransmit) := r.OpenAppData(rec, timeoutOk);
            var last := f.header.seqNo + 1 == r.readSeq;
            && (retransmit <==> last && f.header.fragOff == 0 && timeoutOk)
            && outcome == (if last && (f.header.fragOff != 0 || timeoutOk) then Discard else Error)
            && r' == r.(seen := r.seen + {rec.Number()})
  {
    hide ParseFragment, FragmentBytes, Refused;
    ParseInvertsWrite(f, rest);
  }

  ghost function SlotView(f: HmFragment?): Option<Frag>
    reads f
  {
    if f == null then None else Some(f.View())
  }

  ghost function SlotViews(fs: seq<HmFragment?>): (r: seq<Option<Frag>>)
    reads fs
    ensures |r| == |fs| && forall i :: 0 <= i < |fs| ==> r[i] == SlotView(fs[i])
  {
    if fs == [] then [] else SlotViews(fs[..|fs| - 1]) + [SlotView(fs[|fs| - 1])]
  }

  /** A slot's message is well formed and its memory is part of `repr`, apart from the ring itself. */
  ghost predicate SlotIn(f: HmFragment?, ring: array<HmFragment?>, repr: set<object>)
    reads repr
  {
    f != null ==>
      f in repr && f.Footprint() <= repr && ring !in f.Footprint() && f.Valid()
  }

  ghost predicate Apart(f: HmFragment?, g: HmFragment?)
    reads f, g
  {
    f != null && g != null ==> f.Footprint() !! g.Footprint()
  }

  lemma CompleteIffNoMask(f: HmFragment)
    requires f.Valid()
    ensures f.reassembly == null <==> f.View().Complete()
  {
  }

  class Dtls1Reader {
    var epoch: nat
    var nullCipher: bool
    var hasCcs: bool
    var readSeq: nat
    var hasMessage: bool
    const bitmap: Dtls1Bitmap
    const incoming: array<HmFragment?>
    ghost var Repr: set<object>

    ghost function View(): Reader
      reads this, bitmap, incoming, incoming[..]
    {
      Reader(epoch, bitmap.seen, nullCipher, hasCcs, readSeq, hasMessage, SlotViews(incoming[..]))
    }

    ghost predicate Valid()
      reads this, Repr
      ensures Valid() ==> this in Repr
    {
      && this in Repr && bitmap in Repr && incoming in Repr
      && bitmap.Valid() && incoming.Length == FLIGHT
      && (forall i :: 0 <= i < FLIGHT ==> SlotIn(incoming[i], incoming, Repr))
      && (forall i, j :: 0 <= i < j < FLIGHT ==> Apart(incoming[i], incoming[j]))
    }

    constructor ()
      ensures Valid() && fresh(Repr)
      ensures View() == Reader(0, {}, true, false, 0, false, seq(FLIGHT, _ => None))
    {
      hide HmFragment.Valid, SlotViews;
      epoch, nullCipher, hasCcs, readSeq, hasMessage := 0, true, false, 0, false;
      bitmap := new Dtls1Bitmap();
      incoming := new HmFragment?[FLIGHT](_ => null);
      new;
      Repr := {this, bitmap, incoming};
    }

    /** dtls_open_record. */
    method OpenRecord(rec: Record) returns (outcome: Outcome)
      requires Valid() && rec.Fits()
      modifies bitmap
      ensures Valid() && (View(), outcome) == old(View()).OpenRecord(rec)
    {
      hide HmFragment.Valid, SlotViews;
      ghost var view := View();
      if rec.epoch != epoch {
        return Discard;
      }
      var discard := bitmap.ShouldDiscard(rec.Number());
      if discard || !rec.opens {
        return Discard;
      }
      if |rec.plain| > MAX_PLAIN {
        return Error;
      }
      bitmap.Record(rec.Number());
      assert SlotViews(incoming[..]) == view.slots;
      outcome := if rec.rtype == RT_ALERT then Alert else Success;
    }

    /** dtls1_get_incoming_message. The slot's message, created if there is none; null on failure. */
    method GetIncoming(h: HmHeader) returns (frag: HmFragment?)
      requires Valid() && h.Fits()
      modifies this`Repr, incoming
      ensures Valid() && fresh(Repr - old(Repr))
      ensures (frag == null) == old(View()).GetIncoming(h).None?
      ensures frag == null ==> View() == old(View())
      ensures frag != null ==>
                && frag == incoming[h.seqNo % FLIGHT] && Some(frag.View()) == old(View()).GetIncoming(h)
                && View() == old(View()).(slots := old(View()).slots[h.seqNo % FLIGHT := Some(frag.View())])
    {
      if h.seqNo < readSeq || h.seqNo - readSeq >= FLIGHT {
        return null;
      }
      var idx := h.seqNo % FLIGHT;
      frag := incoming[idx];
      if frag != null {
        if frag.mtype != h.mtype || frag.msgLen != h.msgLen {
          return null;
        }
        assert View() == old(View()).(slots := old(View()).slots[idx := Some(frag.View())]);
        return frag;
      }
      frag := NewSlot(idx, h);
    }

    method NewSlot(idx: nat, h: HmHeader) returns (frag: HmFragment)
      requires Valid() && h.Fits() && idx < FLIGHT && incoming[idx] == null
      modifies this`Repr, incoming
      ensures Valid() && fresh(Repr - old(Repr))
      ensures frag == incoming[idx] && frag.View() == NewFrag(h)
      ensures View() == old(View()).(slots := old(View()).slots[idx := Some(NewFrag(h))])
    {
      hide HmFragment.Valid, SlotViews;
      frag := new HmFragment(h);
      ghost var before := incoming[..];
      ghost var slots := SlotViews(before);
      incoming[idx] := frag;
      Repr := Repr + frag.Footprint();
      assert incoming[..] == before[idx := frag];
      forall i | 0 <= i < FLIGHT ensures SlotIn(incoming[i], incoming, Repr) {
        assert i != idx ==> old(SlotIn(incoming[i], incoming, Repr));
      }
      forall i, j | 0 <= i < j < FLIGHT ensures Apart(incoming[i], incoming[j]) {
        assert i != idx && j != idx ==> old(Apart(incoming[i], incoming[j]));
        assert i != idx ==> old(SlotIn(incoming[i], incoming, Repr));
        assert j != idx ==> old(SlotIn(incoming[j], incoming, Repr));
      }
      assert SlotViews(incoming[..]) == slots[idx := Some(NewFrag(h))];
    }

    /** One turn of the loop of dtls1_open_handshake, after the fragment is parsed. */
    method OpenFragment(f: Fragment, maxLen: nat) returns (ok: bool)
      requires Valid() && f.Fits()
      modifies Repr
      ensures Valid() && fresh(Repr - old(Repr))
      ensures ok <==> old(View()).OpenFragment(f, maxLen).Some?
      ensures ok ==> View() == old(View()).OpenFragment(f, maxLen).value
      ensures !ok ==> View() == old(View())
    {
      hide HmFragment.Valid, SlotViews, Frag.Complete;
      var h := f.header;
      if h.fragOff > h.msgLen || h.fragOff + h.fragLen > h.msgLen || h.msgLen > maxLen {
        return false;
      }
      if epoch == 1 && h.seqNo != readSeq {
        return false;
      }
      if h.seqNo < readSeq || h.seqNo > readSeq + FLIGHT {
        return true;
      }
      var frag := GetIncoming(h);
      if frag == null {
        return false;
      }
      assert SlotIn(frag, incoming, Repr);
      CompleteIffNoMask(frag);
      if frag.reassembly != null {
        AcceptInto(h.seqNo % FLIGHT, h.fragOff, f.body);
      }
      ok := true;
    }

    method AcceptInto(idx: nat, off: nat, body: Bytes)
      requires Valid() && idx < FLIGHT && incoming[idx] != null
      requires incoming[idx].reassembly != null && off + |body| <= incoming[idx].msgLen
      modifies incoming[idx], incoming[idx].data, incoming[idx].reassembly
      ensures Valid() && Repr == old(Repr)
      ensures View() ==
             old(View()).(slots := old(View()).slots[idx := Some(old(incoming[idx].View()).Accept(off, body))])
    {
      hide HmFragment.Valid, SlotViews, Frag.Accept;
      ghost var slots := SlotViews(incoming[..]);
      var frag := incoming[idx];
      frag.Accept(off, body);
      forall i | 0 <= i < FLIGHT ensures SlotIn(incoming[i], incoming, Repr) {
        assert old(SlotIn(incoming[i], incoming, Repr));
        assert i < idx ==> old(Apart(incoming[i], incoming[idx]));
        assert idx < i ==> old(Apart(incoming[idx], incoming[i]));
      }
      assert SlotViews(incoming[..]) == slots[idx := Some(frag.View())];
    }

    /** dtls1_open_handshake. */
    method OpenHandshake(rec: Record, maxLen: nat) returns (outcome: Outcome)
      requires Valid() && rec.Fits()
      modifies Repr
      ensures Valid() && fresh(Repr - old(Repr))
      ensures (View(), outcome) == old(View()).OpenHandshake(rec, maxLen)
    {
      hide HmFragment.Valid, SlotViews, Reader.OpenFragment;
      outcome := OpenRecord(rec);
      if outcome != Success {
        return;
      }
      ghost var after := View();
      if rec.rtype == RT_APPLICATION_DATA {
        return if nullCipher then Error else Discard;
      }
      if rec.rtype == RT_CHANGE_CIPHER_SPEC {
        if !nullCipher || rec.plain != [1] {
          return Error;
        }
        hasCcs := true;
        assert View() == after.(hasCcs := true);
        return Success;
      }
      if rec.rtype != RT_HANDSHAKE {
        return Error;
      }
      outcome := OpenFragments(rec.plain, maxLen);
    }

    method OpenFragments(plain: Bytes, maxLen: nat) returns (outcome: Outcome)
      requires Valid()
      modifies Repr
      ensures Valid() && fresh(Repr - old(Repr))
      ensures (View(), outcome) == old(View()).OpenFragments(plain, maxLen)
    {
      hide HmFragment.Valid, SlotViews, Reader.OpenFragment;
      ghost var start := View();
      var cbs := plain;
      while cbs != []
        invariant Valid() && fresh(Repr - old(Repr))
        invariant start.OpenFragments(plain, maxLen) == View().OpenFragments(cbs, maxLen)
        decreases |cbs|
      {
        var parsed := ParseFragment(cbs);
        if parsed.None? {
          return Error;
        }
        var ok := OpenFragment(parsed.value.0, maxLen);
        if !ok {
          return Error;
        }
        cbs := parsed.value.1;
      }
      outcome := Success;
    }

    /** dtls1_get_message: the current message, if it is complete. */
    method GetMessage() returns (raw: Option<Bytes>)
      requires Valid() && View().Valid()
      modifies this`hasMessage
      ensures Valid() && Repr == old(Repr)
      ensures raw.Some? <==> old(View()).CurrentComplete()
      ensures raw.None? ==> View() == old(View())
      ensures raw.Some? ==>
                && View() == old(View()).(hasMessage := true)
                && raw.value == old(View()).slots[readSeq % FLIGHT].value.Raw()
    {
      var frag := incoming[readSeq % FLIGHT];
      if frag == null || frag.reassembly != null {
        return None;
      }
      assert SlotIn(frag, incoming, Repr);
      hide HmFragment.Valid, SlotViews;
      ghost var slots := SlotViews(incoming[..]);
      hasMessage := true;
      var bytes := frag.RawBytes();
      raw := Some(bytes);
      assert SlotViews(incoming[..]) == slots;
    }

    /** dtls1_next_message. */
    method NextMessage()
      requires Valid() && View().Valid() && hasMessage
      modifies this`readSeq, this`hasMessage, incoming
      ensures Valid() && Repr == old(Repr) && View() == old(View()).NextMessage()
    {
      hide HmFragment.Valid, SlotViews;
      ghost var slots := SlotViews(incoming[..]);
      var index := readSeq % FLIGHT;
      incoming[index] := null;
      readSeq := (readSeq + 1) % U16;
      hasMessage := false;
      forall i | 0 <= i < FLIGHT ensures SlotIn(incoming[i], incoming, Repr) {
        assert old(SlotIn(incoming[i], incoming, Repr));
      }
      assert SlotViews(incoming[..]) == slots[index := None];
    }

    /** dtls_has_unprocessed_handshake_data. */
    method HasUnprocessed() returns (r: bool)
      requires Valid()
      ensures r <==> View().HasUnprocessed()
    {
      hide HmFragment.Valid, SlotViews;
      if hasCcs {
        return true;
      }
      var current := readSeq % FLIGHT;
      for i := 0 to FLIGHT
        invariant forall j :: 0 <= j < i ==> (hasMessage && j == current) || incoming[j] == null
      {
        if !(hasMessage && i == current) && incoming[i] != null {
          assert View().slots[i].Some?;
          return true;
        }
      }
      assert forall j :: 0 <= j < FLIGHT ==> View().slots[j] == SlotView(incoming[j]);
      r := false;
    }

    /** dtls1_set_read_state: refused while data of the current epoch is left over. */
    method SetReadState() returns (ok: bool)
      requires Valid()
      modifies this`epoch, this`nullCipher, bitmap
      ensures Valid() && Repr == old(Repr)
      ensures ok <==> !old(View()).HasUnprocessed()
      ensures View() == if ok then old(View()).SetReadState() else old(View())
    {
      hide HmFragment.Valid, HmFragment.Footprint, SlotViews, Reader.HasUnprocessed, Dtls1Bitmap.Valid;
      ghost var slots := SlotViews(incoming[..]);
      var left := HasUnprocessed();
      if left {
        return false;
      }
      epoch := (epoch + 1) % U16;
      bitmap.Clear();
      nullCipher := false;
      forall i | 0 <= i < FLIGHT ensures SlotIn(incoming[i], incoming, Repr) {
        assert old(SlotIn(incoming[i], incoming, Repr));
      }
      assert SlotViews(incoming[..]) == slots;
      ok := true;
    }

    /** dtls1_open_change_cipher_spec. */
    method OpenChangeCipherSpec(rec: Record, maxLen: nat) returns (outcome: Outcome)
      requires Valid() && rec.Fits()
      modifies Repr
      ensures Valid() && fresh(Repr - old(Repr))
      ensures (View(), outcome) == old(View()).OpenChangeCipherSpec(rec, maxLen)
    {
      hide HmFragment.Valid, SlotViews, Reader.OpenHandshake;
      if !hasCcs {
        outcome := OpenHandshake(rec, maxLen);
        if outcome != Success {
          return;
        }
      }
      ghost var slots := SlotViews(incoming[..]);
      if hasCcs {
        hasCcs := false;
        assert SlotViews(incoming[..]) == slots;
        return Success;
      }
      outcome := Discard;
    }

    /** dtls1_open_app_data. */
    method OpenAppData(rec: Record, timeoutOk: bool) returns (outcome: Outcome, retransmit: bool)
      requires Valid() && rec.Fits()
      modifies bitmap
      ensures Valid() && (View(), outcome, retransmit) == old(View()).OpenAppData(rec, timeoutOk)
    {
      hide HmFragment.Valid, SlotViews, Reader.OpenRecord, ParseFragment;
      retransmit := false;
      outcome := OpenRecord(rec);
      if outcome != Success {
        return;
      }
      if rec.rtype == RT_HANDSHAKE {
        var parsed := ParseFragment(rec.plain);
        if parsed.None? {
          return Error, false;
        }
        var h := parsed.value.0.header;
        if h.mtype == MT_FINISHED && h.seqNo == readSeq - 1 {
          if h.fragOff == 0 {
            if !timeoutOk {
              return Error, false;
            }
            retransmit := true;
          }
          return Discard, retransmit;
        }
      }
      if rec.rtype != RT_APPLICATION_DATA {
        return Error, false;
      }
      outcome := if rec.plain == [] then Discard else Success;
    }
  }
}
