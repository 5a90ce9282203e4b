/** DTLS1_STATE, the sending half, in place: what the operations of the handshake do to a flight, and that they keep
    the invariant of every run. */
module DtlsSender {
  import opened Octets
  import opened Wrappers
  import opened DtlsWire
  import opened DtlsWriter
  import opened FlightEpochs
  import opened FlightLosses
  import opened FlightTiling
  import opened RecordNumbers
  import opened WriterRuns

  lemma NumberIsFree(w: Writer)
    requires Inv(w)
    ensures w.msgSeq < U16
  {
  }

  lemma InvMeansDistinct(w: Writer)
    requires Inv(w)
    ensures w.CursorOk() && (!w.wrapped ==> Distinct(Records(w.sent)))
  {
  }

  lemma JoinedIsMessage(w: Writer, m: Message)
    requires Inv(w) && m.Fits()
    ensures IsMessage(w.transcript + [m], OutMsg(w.FinishMessage(m), w.epoch, false), |w.transcript|)
  {
    FinishedIsOneFragment(w, m);
  }

  lemma MtuKeepsInv(w: Writer, query: Option<int>)
    requires Inv(w)
    ensures Inv(w.UpdateMtu(query)) && w.CursorOk()
  {
    hide Honest, FlightFrom, Aead.Meets;
    SameCounters(w, w.UpdateMtu(query), Records(w.sent));
  }

  /** All that send_flight promises. */
  lemma FlightSent(w: Writer, budget: nat, flushOk: bool)
    requires Inv(w)
    ensures var (w', r) := w.SendPackets(budget, flushOk);
            && Inv(w') && w'.flight == w.flight && w'.mtu == w.mtu
            && w.sent <= w'.sent && (forall i :: |w.sent| <= i < |w'.sent| ==> Size(w'.sent[i]) <= w.mtu)
            && (!w'.wrapped ==> Distinct(Records(w'.sent)))
            && (r == Flushed ==> (Follow(w.flight, Records(w'.pass)) == Some(Cursor(|w.flight|, 0)) <==> !w.lost))
  {
    hide Writer.SendPackets, NumbersOk, Follow, Size;
    SendKeepsInv(w, budget, flushOk);
    SendFits(w, budget, flushOk);
    SendKeepsMtu(w, budget, flushOk);
    InvMeansDistinct(w.SendPackets(budget, flushOk).0);
    if w.SendPackets(budget, flushOk).1 == Flushed {
      FlushedFlightIsWhole(w, budget, flushOk);
    }
  }

  /** The sending state in place. The ghost fields are the history that `Writer` keeps. */
  class Dtls1Writer {
    var mtu: nat
    var epoch: nat
    var writeSeq: nat
    var lastWriteSeq: nat
    var aead: Aead
    var lastAead: Aead
    var msgSeq: nat
    var flight: seq<OutMsg>
    var written: nat
    var offset: nat
    var complete: bool
    var attempts: nat
    var sent: seq<Packet> // the BIO's side: the datagrams it took
    ghost var transcript: seq<Message>
    ghost var pass: seq<Packet>
    ghost var wrapped: bool
    ghost var lost: bool

    ghost function View(): Writer
      reads this
    {
      Writer(mtu, epoch, writeSeq, lastWriteSeq, aead, lastAead, msgSeq, flight, Cursor(written, offset), complete,
             attempts, transcript, sent, pass, wrapped, lost)
    }

    /** What every run keeps, and each operation of the state machine here with it. */
    ghost predicate Valid()
      reads this
    {
      Inv(View())
    }

    constructor (mtu: nat, aead: Aead)
      requires aead.Meets()
      ensures Valid()
      ensures View() == Writer(mtu, 0, 0, 0, aead, aead, 0, [], Cursor(0, 0), false, 0, [], [], [], false, false)
    {
      this.mtu, this.aead, this.lastAead, this.complete := mtu, aead, aead, false;
      epoch, writeSeq, lastWriteSeq, msgSeq, written, offset, attempts := 0, 0, 0, 0, 0, 0, 0;
      flight, sent, transcript, pass, wrapped, lost := [], [], [], [], false, false;
      new;
      WriterRuns.EveryRun(View(), []);
    }

    /** dtls_clear_outgoing_messages. */
    method ClearFlight()
      requires Valid()
      modifies this
      ensures Valid()
      ensures View() == old(View()).ClearFlight()
    {
      hide Inv;
      ClearKeepsInv(View());
      flight, written, offset, complete := [], 0, 0, false;
      pass, lost := [], false;
    }

    /** dtls1_init_message and dtls1_finish_message: the header's first length is filled in at the end. */
    method FinishMessage(m: Message) returns (out: Bytes)
      requires m.Fits() && msgSeq < U16
      ensures out == m.Bytes(msgSeq)
      ensures out == View().FinishMessage(m)
    {
      FinishedIsOneFragment(View(), m);
      out := [m.mtype] + BE3(0) + BE2(msgSeq) + BE3(0) + BE3(|m.body|) + m.body;
      out := out[..1] + out[HM_HEADER - 3..HM_HEADER] + out[4..];
    }

    /** dtls1_add_message: the message, as a single fragment with the next number, ends the transcript and the flight,
        to go out in the current write epoch. A completed flight gives way to a new one. */
    method AddMessage(m: Message) returns (ok: bool)
      requires Valid()
      modifies this
      ensures Valid()
      ensures ok <==> m.Fits() && (old(complete) || |old(flight)| < FLIGHT)
      ensures ok ==> transcript == old(transcript) + [m] && |flight| > 0
      ensures ok ==> flight[..|flight| - 1] == (if old(complete) then [] else old(flight))
      ensures ok ==> flight[|flight| - 1].epoch == old(epoch) && !flight[|flight| - 1].isCcs
      ensures ok ==> IsMessage(transcript, flight[|flight| - 1], |old(transcript)|)
      ensures ok <==> old(View()).AddMessage(m).Some?
      ensures ok ==> View() == old(View()).AddMessage(m).value
      ensures !ok ==> View() == if m.Fits() then old(View()).Begun() else old(View())
    {
      hide Inv, Writer.FinishMessage, IsMessage;
      NumberIsFree(View());
      if !m.Fits() {
        return false;
      }
      var out := FinishMessage(m);
      if complete {
        ClearFlight();
      }
      if |flight| >= FLIGHT {
        return false;
      }
      FinishedIsOneFragment(View(), m);
      AddKeepsInv(View(), m);
      JoinedIsMessage(View(), m);
      transcript := transcript + [m];
      msgSeq := (msgSeq + 1) % U16;
      flight := flight + [OutMsg(out, epoch, false)];
      ok := true;
    }

    /** dtls1_add_change_cipher_spec. */
    method AddChangeCipherSpec() returns (ok: bool)
      requires Valid()
      modifies this
      ensures Valid()
      ensures ok <==> old(complete) || |old(flight)| < FLIGHT
      ensures ok ==> flight == (if old(complete) then [] else old(flight)) + [OutMsg([], old(epoch), true)]
      ensures ok <==> old(View()).AddChangeCipherSpec().Some?
      ensures View() == if ok then old(View()).AddChangeCipherSpec().value else old(View()).Begun()
    {
      hide Inv;
      if complete {
        ClearFlight();
      }
      if |flight| >= FLIGHT {
        return false;
      }
      AddCcsKeepsInv(View());
      flight := flight + [OutMsg([], epoch, true)];
      ok := true;
    }

    /** dtls1_set_write_state. */
    method SetWriteState(next: Aead)
      requires Valid() && next.Meets()
      modifies this
      ensures Valid()
      ensures View() == old(View()).SetWriteState(next)
    {
      hide Inv;
      SetWriteStateKeepsInv(View(), next);
      wrapped := wrapped || epoch + 1 >= U16;
      epoch, lastWriteSeq, writeSeq, lastAead, aead := (epoch + 1) % U16, writeSeq, 0, aead, next;
    }

    method CountRecord(next: nat, previous: bool)
      modifies this
      ensures View() == old(View()).Counted(next, previous)
    {
      attempts := attempts + 1;
      if previous {
        lastWriteSeq := next;
      } else {
        writeSeq := next;
      }
      wrapped := wrapped || next == 0;
    }

    /** dtls_seal_record. */
    method SealRecord(rtype: nat, plain: Bytes, maxOut: nat, previous: bool) returns (rec: Option<Sent>)
      requires previous ==> epoch >= 1
      modifies this
      ensures (View(), rec) == old(View()).SealRecord(rtype, plain, maxOut, previous)
    {
      hide Writer.Counted;
      var e, a, s := epoch, aead, writeSeq;
      if previous {
        e, a, s := epoch - 1, lastAead, lastWriteSeq;
      }
      if maxOut < RECORD_HEADER {
        return None;
      }
      var sealedLen := a.seal(attempts, rtype, e * SEQ48 + s, plain, maxOut - RECORD_HEADER);
      if sealedLen.None? {
        attempts := attempts + 1;
        return None;
      }
      var next := (s + 1) % SEQ48;
      CountRecord(next, previous);
      if next == 0 || sealedLen.value >= U16 {
        return None;
      }
      rec := Some(Sent(rtype, e, s, plain, RECORD_HEADER + sealedLen.value, a));
    }

    /** seal_next_message. */
    method SealNextMessage(maxOut: nat) returns (result: SealResult)
      requires written < |flight|
      modifies this
      ensures (View(), result) == old(View()).SealNextMessage(maxOut)
    {
      hide Writer.SealRecord, ParseFragment, FragmentBytes;
      var msg := flight[written];
      var previous := false;
      if epoch >= 1 && msg.epoch == epoch - 1 {
        previous := true;
      } else if msg.epoch != epoch {
        return SealError;
      }
      var overhead := RECORD_HEADER + if previous then lastAead.maxOverhead else aead.maxOverhead;
      var prefix := RECORD_HEADER + if previous then lastAead.nonceLen else aead.nonceLen;
      if msg.isCcs {
        if maxOut < 1 + overhead {
          return NoProgress;
        }
        var rec := SealRecord(RT_CHANGE_CIPHER_SPEC, CCS, maxOut, previous);
        return if rec.None? then SealError else Sealed(rec.value);
      }
      var parsed := ParseFragment(msg.data);
      if parsed.None? {
        return SealError;
      }
      var whole := parsed.value.0;
      if whole.header.fragOff != 0 || whole.header.msgLen != |whole.body| || offset > |whole.body|
         || parsed.value.1 != []
      {
        return SealError;
      }
      if maxOut < HM_HEADER + 1 + overhead || maxOut < prefix {
        return NoProgress;
      }
      result := SealFragment(whole, maxOut, previous);
    }

    /** The rest of seal_next_message: the fragment is assembled, sealed and passed by. */
    method SealFragment(whole: Fragment, maxOut: nat, previous: bool) returns (result: SealResult)
      requires previous ==> epoch >= 1
      requires whole.Fits() && offset <= |whole.body|
      requires maxOut >= HM_HEADER + 1 + View().Overhead(previous) && maxOut >= View().Prefix(previous)
      modifies this
      ensures (View(), result) == old(View()).SealFragment(whole, maxOut, previous)
    {
      hide Writer.SealRecord, FragmentBytes;
      var overhead := RECORD_HEADER + if previous then lastAead.maxOverhead else aead.maxOverhead;
      var prefix := RECORD_HEADER + if previous then lastAead.nonceLen else aead.nonceLen;
      var body := whole.body[offset..];
      var todo := |body|;
      if todo > maxOut - HM_HEADER - overhead {
        todo := maxOut - HM_HEADER - overhead;
      }
      if HM_HEADER + todo > maxOut - prefix {
        return SealError;
      }
      var frag := Fragment(whole.header.(fragOff := offset, fragLen := todo), body[..todo]);
      assert frag == View().Part(whole, todo);
      var rec := SealRecord(RT_HANDSHAKE, FragmentBytes(frag), maxOut, previous);
      if rec.None? {
        return SealError;
      }
      if todo == |body| {
        offset := 0;
        return Sealed(rec.value);
      }
      offset := offset + todo;
      result := Partial(rec.value);
    }

    /** seal_next_packet. */
    method SealNextPacket(maxOut: nat) returns (result: PacketResult)
      modifies this
      ensures (View(), result) == old(View()).SealNextPacket(maxOut)
    {
      hide Writer.SealNextMessage;
      var packet: Packet, room := [], maxOut;
      ghost var start := View();
      while written < |flight|
        invariant View().SealMore(room, packet) == start.SealMore(maxOut, [])
        decreases |flight| - written
      {
        var sealedRec := SealNextMessage(room);
        match sealedRec {
          case SealError =>
            lost := lost || packet != [];
            return PacketError;
          case NoProgress =>
            break;
          case Partial(rec) =>
            packet := packet + [rec];
            break;
          case Sealed(rec) =>
            packet := packet + [rec];
            room := if rec.size <= room then room - rec.size else 0;
        }
        written := written + 1;
      }
      result := if packet == [] then MtuTooSmall else Full(packet);
    }

    /** dtls1_update_mtu. */
    method UpdateMtu(query: Option<int>)
      modifies this
      ensures View() == old(View()).UpdateMtu(query)
    {
      if mtu < MIN_MTU && query.Some? {
        if 0 <= query.value <= 0x4000_0000 && query.value >= MIN_MTU {
          mtu := query.value;
        } else {
          mtu := DEFAULT_MTU;
        }
      }
    }

    /** A flight goes out: every datagram that left fits the MTU, and no two records carry the same number. */
    twostate predicate KeptInOrder()
      reads this
    {
      && Valid()
      && old(sent) <= sent && (forall i :: |old(sent)| <= i < |sent| ==> Size(sent[i]) <= mtu)
      && (!wrapped ==> Distinct(Records(sent)))
    }

    /** The datagrams of this pass carry the whole flight, contiguously, in order and once. */
    ghost predicate PassIsWhole()
      requires Valid()
      reads this
    {
      Follow(flight, Records(pass)) == Some(Cursor(|flight|, 0))
    }

    /** send_flight; the BIO takes `budget` datagrams before a write fails. */
    method SendFlight(query: Option<int>, budget: nat, flushOk: bool) returns (result: FlightResult)
      requires Valid()
      modifies this
      ensures KeptInOrder()
      ensures result == Flushed ==> (PassIsWhole() <==> !old(lost))
      ensures (View(), result) == old(View()).UpdateMtu(query).SendPackets(budget, flushOk)
    {
      hide Writer.SendPackets, Inv, Follow, Distinct, Size;
      MtuKeepsInv(View(), query);
      UpdateMtu(query);
      FlightSent(View(), budget, flushOk);
      result := SendPackets(budget, flushOk);
    }

    /** The loop of send_flight. */
    method SendPackets(budget: nat, flushOk: bool) returns (result: FlightResult)
      requires View().CursorOk()
      modifies this
      ensures (View(), result) == old(View()).SendPackets(budget, flushOk)
    {
      hide Writer.SealNextPacket;
      ghost var start := View();
      var left := budget;
      while written < |flight|
        invariant View().CursorOk()
        invariant View().SendPackets(left, flushOk) == start.SendPackets(budget, flushOk)
        decreases |flight| - written, U24 - offset
      {
        var oldWritten, oldOffset := written, offset;
        PacketMovesCursor(View(), mtu);
        var packet := SealNextPacket(mtu);
        if !packet.Full? {
          return if packet.PacketError? then Failed else TooSmall;
        }
        if left == 0 {
          written, offset := oldWritten, oldOffset;
          return Blocked;
        }
        sent := sent + [packet.packet];
        pass := pass + [packet.packet];
        left := left - 1;
      }
      result := if flushOk then Flushed else FlushFailed;
    }

    /** dtls1_flush_flight: a resumed flight that is flushed is whole unless sealed records were dropped before. */
    method FlushFlight(query: Option<int>, budget: nat, flushOk: bool) returns (result: FlightResult)
      requires Valid()
      modifies this
      ensures KeptInOrder()
      ensures result == Flushed ==> (PassIsWhole() <==> !old(lost))
      ensures (View(), result) == old(View()).FlushFlight(query, budget, flushOk)
    {
      hide Inv, Follow;
      PreparedKeepsInv(View(), None);
      complete := true;
      result := SendFlight(query, budget, flushOk);
    }

    /** dtls1_retransmit_outgoing_messages: whatever went wrong before, a retransmission that is flushed is whole. */
    method Retransmit(query: Option<int>, budget: nat, flushOk: bool) returns (result: FlightResult)
      requires Valid()
      modifies this
      ensures KeptInOrder()
      ensures result == Flushed ==> PassIsWhole()
      ensures (View(), result) == old(View()).Retransmit(query, budget, flushOk)
    {
      hide Inv, Follow;
      PreparedKeepsInv(View(), None);
      written, offset := 0, 0;
      pass, lost := [], false;
      result := SendFlight(query, budget, flushOk);
    }

    /** dtls1_write_record in the current epoch. */
    method WriteRecord(rtype: nat, plain: Bytes, flushes: bool) returns (ok: bool)
      modifies this
      ensures (View(), ok) == old(View()).WriteRecord(rtype, plain, flushes)
      ensures old(Valid()) && rtype != RT_HANDSHAKE ==> Valid() && (!wrapped ==> Distinct(Records(sent)))
      ensures !ok ==> sent == old(sent)
      ensures ok ==> |sent| == |old(sent)| + 1 && sent[..|old(sent)|] == old(sent) && |sent[|old(sent)|]| == 1
      ensures ok ==> sent[|old(sent)|][0].rtype == rtype && sent[|old(sent)|][0].plain == plain
      ensures ok ==> sent[|old(sent)|][0].epoch == old(epoch) && sent[|old(sent)|][0].sealer == old(aead)
    {
      hide Inv, Distinct, Writer.WriteRecord;
      if Valid() && rtype != RT_HANDSHAKE {
        WriteRecordKeepsInv(View(), rtype, plain, flushes);
        InvMeansDistinct(View().WriteRecord(rtype, plain, flushes).0);
      }
      WrittenRecord(View(), rtype, plain, flushes);
      ok := SealAndWrite(rtype, plain, flushes);
    }

    method SealAndWrite(rtype: nat, plain: Bytes, flushes: bool) returns (ok: bool)
      modifies this
      ensures (View(), ok) == old(View()).WriteRecord(rtype, plain, flushes)
    {
      if |plain| > MAX_PLAIN {
        return false;
      }
      var rec := SealRecord(rtype, plain, |plain| + RECORD_HEADER + aead.maxOverhead, false);
      if rec.None? || !flushes {
        return false;
      }
      sent := sent + [[rec.value]];
      ok := true;
    }
  }
}
