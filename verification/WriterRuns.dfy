/** Whole runs of the sending half: any operations, in any order, with any pattern of write failures. */
module WriterRuns {
  import opened Octets
  import opened Wrappers
  import opened DtlsWire
  import opened DtlsWriter
  import opened FlightLosses
  import opened FlightTiling
  import opened RecordNumbers

  /** `f` is a part of message number k of the transcript. */
  ghost predicate IsSlice(transcript: seq<Message>, f: Fragment, k: nat, off: nat, len: nat) {
    k < |transcript| && off + len <= |transcript[k].body| && f == transcript[k].Slice(k % U16, off, len)
  }

  /** A handshake record that says nothing but what the transcript holds. */
  ghost predicate Honest(transcript: seq<Message>, rec: Sent) {
    rec.rtype == RT_HANDSHAKE ==>
      FragmentOf(rec).Some? && exists k: nat, off: nat, len: nat ::
        IsSlice(transcript, FragmentOf(rec).value, k, off, len)
  }

  ghost predicate AllHonest(transcript: seq<Message>, recs: seq<Sent>) {
    forall i :: 0 <= i < |recs| ==> Honest(transcript, recs[i])
  }

  lemma HonestStays(transcript: seq<Message>, m: Message, recs: seq<Sent>)
    requires AllHonest(transcript, recs)
    ensures AllHonest(transcript + [m], recs)
  {
    forall i | 0 <= i < |recs| && recs[i].rtype == RT_HANDSHAKE ensures Honest(transcript + [m], recs[i]) {
      assert Honest(transcript, recs[i]);
      var k: nat, off: nat, len: nat :| IsSlice(transcript, FragmentOf(recs[i]).value, k, off, len);
      assert IsSlice(transcript + [m], FragmentOf(recs[i]).value, k, off, len);
    }
  }

  /** Message number k of the transcript, as it waits in the flight. */
  ghost predicate IsMessage(transcript: seq<Message>, m: OutMsg, k: nat) {
    k < |transcript| && transcript[k].Fits() && m.data == transcript[k].Bytes(k % U16)
  }

  ghost predicate FlightFrom(transcript: seq<Message>, flight: seq<OutMsg>) {
    forall i :: 0 <= i < |flight| && !flight[i].isCcs ==> exists k: nat :: IsMessage(transcript, flight[i], k)
  }

  lemma MessageIsWhole(transcript: seq<Message>, m: OutMsg, k: nat)
    requires IsMessage(transcript, m, k) && !m.isCcs
    ensures WellFormed(m) && Whole(m) == transcript[k].Slice(k % U16, 0, |transcript[k].body|)
  {
    hide ParseFragment, FragmentBytes;
    var f := transcript[k].Slice(k % U16, 0, |transcript[k].body|);
    ParseInvertsWrite(f, []);
    assert FragmentBytes(f) + [] == FragmentBytes(f);
  }

  lemma FlightFromOk(transcript: seq<Message>, flight: seq<OutMsg>)
    requires FlightFrom(transcript, flight)
    ensures FlightOk(flight)
  {
    forall i | 0 <= i < |flight| && !flight[i].isCcs ensures WellFormed(flight[i]) {
      var k: nat :| IsMessage(transcript, flight[i], k);
      MessageIsWhole(transcript, flight[i], k);
    }
  }

  lemma DueIsHonest(transcript: seq<Message>, flight: seq<OutMsg>, c: Cursor, rec: Sent)
    requires FlightFrom(transcript, flight) && FlightOk(flight) && Due(flight, c, rec).Some?
    ensures Honest(transcript, rec)
  {
    if rec.rtype == RT_HANDSHAKE {
      var m := flight[c.written];
      var k: nat :| IsMessage(transcript, m, k);
      MessageIsWhole(transcript, m, k);
      var f := FragmentOf(rec).value;
      assert f.body == transcript[k].body[c.offset..c.offset + |f.body|];
      assert IsSlice(transcript, f, k, c.offset, |f.body|);
    }
  }

  ghost predicate InFlight(w: Writer) {
    w.CursorOk() && FlightFrom(w.transcript, w.flight) && FlightOk(w.flight) && InRange(w.flight, w.cursor)
  }

  lemma {:induction false} MoreHonest(w: Writer, maxOut: nat, packet: Packet)
    requires InFlight(w) && AllHonest(w.transcript, packet)
    ensures var (w', p) := w.SealMore(maxOut, packet);
            InFlight(w') && (p.Some? ==> AllHonest(w.transcript, p.value))
    decreases |w.flight| - w.cursor.written
  {
    hide Writer.SealNextMessage, Due, FlightFrom, FlightOk, Honest;
    if w.cursor.written >= |w.flight| {
    } else {
      SealMovesCursor(w, maxOut);
      SealedIsDue(w, maxOut);
      var (v, r) := w.SealNextMessage(maxOut);
      if r.Sealed? || r.Partial? {
        DueIsHonest(w.transcript, w.flight, w.cursor, r.rec);
      }
      if r.Sealed? {
        MoreHonest(v.Past(), if r.rec.size <= maxOut then maxOut - r.rec.size else 0, packet + [r.rec]);
      }
    }
  }

  lemma {:induction false} SendHonest(w: Writer, budget: nat, flushOk: bool)
    requires InFlight(w) && AllHonest(w.transcript, Records(w.sent))
    ensures var (w', r) := w.SendPackets(budget, flushOk);
            && InFlight(w') && AllHonest(w'.transcript, Records(w'.sent))
            && w'.transcript == w.transcript && w'.flight == w.flight && w'.msgSeq == w.msgSeq && w'.epoch == w.epoch
    decreases |w.flight| - w.cursor.written, U24 - w.cursor.offset
  {
    hide Writer.SealMore, Writer.SealNextMessage, FlightFrom, FlightOk, InRange, AllHonest, Records;
    if w.cursor.written >= |w.flight| {
    } else {
      PacketMovesCursor(w, w.mtu);
      PacketHonest(w, w.mtu);
      var (v, r) := w.SealNextPacket(w.mtu);
      if r.Full? && budget > 0 {
        SendHonest(v.Wrote(r.packet), budget - 1, flushOk);
      }
    }
  }

  lemma PacketHonest(w: Writer, maxOut: nat)
    requires InFlight(w) && AllHonest(w.transcript, Records(w.sent))
    ensures var (w', r) := w.SealNextPacket(maxOut);
            InFlight(w') && (r.Full? ==> AllHonest(w.transcript, Records(w.sent + [r.packet])))
  {
    hide Writer.SealNextMessage, Honest, FlightFrom, FlightOk;
    MoreHonest(w, maxOut, []);
    var (v, r) := w.SealNextPacket(maxOut);
    assert v == w.SealMore(maxOut, []).0;
    if r.Full? {
      assert (w.sent + [r.packet])[..|w.sent + [r.packet]| - 1] == w.sent;
    }
  }

  datatype Op =
    | AddMessage(m: Message)
    | AddChangeCipherSpec
    | SetWriteState(aead: Aead)
    | Flush(query: Option<int>, budget: nat, flushOk: bool)
    | Retransmit(query: Option<int>, budget: nat, flushOk: bool)
    | WriteAlert(plain: Bytes, written: bool)
    | WriteAppData(plain: Bytes, written: bool)
    | HandshakeComplete(hasReply: bool)

  ghost predicate Allowed(op: Op) {
    op.SetWriteState? ==> op.aead.Meets()
  }

  ghost function Do(w: Writer, op: Op): Writer
    requires w.CursorOk() && w.msgSeq < U16
  {
    match op
    case AddMessage(m) => (match w.AddMessage(m) case None => w case Some(w') => w')
    case AddChangeCipherSpec => (match w.AddChangeCipherSpec() case None => w case Some(w') => w')
    case SetWriteState(aead) => w.SetWriteState(aead)
    case Flush(query, budget, flushOk) => w.FlushFlight(query, budget, flushOk).0
    case Retransmit(query, budget, flushOk) => w.Retransmit(query, budget, flushOk).0
    case WriteAlert(plain, written) => w.WriteRecord(RT_ALERT, plain, written).0
    case WriteAppData(plain, written) => w.WriteRecord(RT_APPLICATION_DATA, plain, written).0
    case HandshakeComplete(hasReply) => if hasReply then w.ClearFlight() else w
  }

  /** What every run keeps. */
  ghost predicate Inv(w: Writer) {
    && w.msgSeq == |w.transcript| % U16
    && w.epoch < U16
    && |w.flight| <= FLIGHT
    && AeadsMeet(w)
    && w.CursorOk() && InFlight(w)
    && Accounted(w)
    && NumbersOk(w, Records(w.sent))
    && AllHonest(w.transcript, Records(w.sent))
  }

  lemma SendKeepsInv(w: Writer, budget: nat, flushOk: bool)
    requires Inv(w)
    ensures Inv(w.SendPackets(budget, flushOk).0)
  {
    hide Writer.SendPackets, NumbersOk, AllHonest, InFlight, AeadsMeet, Accounted;
    SendFits(w, budget, flushOk);
    SendTakesFreshNumbers(w, budget, flushOk);
    SendHonest(w, budget, flushOk);
    SendAccounted(w, budget, flushOk);
  }

  /** dtls1_finish_message leaves the whole message as one fragment. */
  lemma FinishedIsOneFragment(w: Writer, m: Message)
    requires m.Fits() && w.msgSeq < U16
    ensures w.FinishMessage(m) == m.Bytes(w.msgSeq)
  {
    var out := [m.mtype] + BE3(0) + BE2(w.msgSeq) + BE3(0) + BE3(|m.body|) + m.body;
    var f := m.Slice(w.msgSeq, 0, |m.body|);
    assert out[HM_HEADER - 3..HM_HEADER] == BE3(|m.body|);
    assert out[4..] == BE2(w.msgSeq) + BE3(0) + BE3(|m.body|) + m.body;
    assert m.body[0..|m.body|] == m.body;
  }

  lemma ClearKeepsInv(w: Writer)
    requires Inv(w)
    ensures Inv(w.ClearFlight())
  {
    hide Used, Honest;
    SameCounters(w, w.ClearFlight(), Records(w.sent));
  }

  /** A message that joins the flight leaves the records sent so far due as they were. */
  lemma AddKeepsInv(w: Writer, m: Message)
    requires Inv(w) && m.Fits() && |w.flight| < FLIGHT
    ensures Inv(w.(flight := w.flight + [OutMsg(w.FinishMessage(m), w.epoch, false)],
                   transcript := w.transcript + [m],
                   msgSeq := (w.msgSeq + 1) % U16))
  {
    hide NumbersOk, Writer.FinishMessage, WellFormed, Follow, AllHonest, Aead.Meets, FlightFrom;
    var out := OutMsg(w.FinishMessage(m), w.epoch, false);
    var w' := w.(flight := w.flight + [out], transcript := w.transcript + [m], msgSeq := (w.msgSeq + 1) % U16);
    FinishedIsOneFragment(w, m);
    assert IsMessage(w'.transcript, out, |w.transcript|);
    JoinedFlightFrom(w.transcript, m, w.flight, out);
    FlightFromOk(w'.transcript, w'.flight);
    assert WellFormed(w'.flight[|w.flight|]);
    HonestStays(w.transcript, m, Records(w.sent));
    SameCounters(w, w', Records(w.sent));
    JoinKeepsAccount(w, out);
  }

  lemma JoinedFlightFrom(transcript: seq<Message>, m: Message, flight: seq<OutMsg>, out: OutMsg)
    requires FlightFrom(transcript, flight) && (out.isCcs || IsMessage(transcript + [m], out, |transcript|))
    ensures FlightFrom(transcript + [m], flight + [out])
  {
    var flight' := flight + [out];
    forall i | 0 <= i < |flight'| && !flight'[i].isCcs
      ensures exists k: nat :: IsMessage(transcript + [m], flight'[i], k) {
      if i < |flight| {
        var k: nat :| IsMessage(transcript, flight[i], k);
        assert IsMessage(transcript + [m], flight'[i], k);
      }
    }
  }

  lemma AddCcsKeepsInv(w: Writer)
    requires Inv(w) && |w.flight| < FLIGHT
    ensures Inv(w.(flight := w.flight + [OutMsg([], w.epoch, true)]))
  {
    hide NumbersOk, Follow, Honest, IsMessage;
    var w' := w.(flight := w.flight + [OutMsg([], w.epoch, true)]);
    SameCounters(w, w', Records(w.sent));
    JoinKeepsAccount(w, OutMsg([], w.epoch, true));
  }

  lemma SetWriteStateKeepsInv(w: Writer, aead: Aead)
    requires Inv(w) && aead.Meets()
    ensures Inv(w.SetWriteState(aead))
  {
    hide Honest, FlightFrom, FlightOk, Follow, Aead.Meets;
    var w' := w.SetWriteState(aead);
    var recs := Records(w.sent);
    forall i | !w'.wrapped && 0 <= i < |recs| ensures Used(w', recs[i]) {
      assert Used(w, recs[i]);
    }
  }

  lemma WriteRecordKeepsInv(w: Writer, rtype: nat, plain: Bytes, written: bool)
    requires Inv(w) && rtype != RT_HANDSHAKE
    ensures Inv(w.WriteRecord(rtype, plain, written).0)
  {
    hide Inv, Writer.SealRecord, Aead.Meets, NumbersOk, AllHonest;
    if |plain| <= MAX_PLAIN {
      var maxOut := |plain| + RECORD_HEADER + w.aead.maxOverhead;
      var (v, rec) := w.SealRecord(rtype, plain, maxOut, false);
      SealKeepsInv(w, rtype, plain, maxOut);
      if rec.Some? && written {
        WrittenKeepsInv(v, rec.value);
      }
    }
  }

  lemma SealKeepsInv(w: Writer, rtype: nat, plain: Bytes, maxOut: nat)
    requires Inv(w)
    ensures var (v, rec) := w.SealRecord(rtype, plain, maxOut, false);
            && Inv(v) && v.sent == w.sent
            && (rec.Some? ==> rec.value.rtype == rtype && NumbersOk(v, Records(v.sent) + [rec.value]))
  {
    hide NumbersOk, FlightFrom, FlightOk, Follow, AeadsMeet, AllHonest, Writer.SealRecord;
    RecordKeepsCursor(w, rtype, plain, maxOut, false);
    RecordFits(w, rtype, plain, maxOut, false);
    RecordTakesFreshNumber(w, rtype, plain, maxOut, false, Records(w.sent));
    RecordKeepsType(w, rtype, plain, maxOut, false);
  }

  lemma WrittenKeepsInv(v: Writer, rec: Sent)
    requires Inv(v) && rec.rtype != RT_HANDSHAKE && NumbersOk(v, Records(v.sent) + [rec])
    ensures Inv(v.(sent := v.sent + [[rec]]))
  {
    hide NumbersOk, FlightFrom, FlightOk, InRange, Accounted, Aead.Meets, Honest;
    var sent := v.sent + [[rec]];
    SameAccount(v, v.(sent := sent));
    assert sent[..|sent| - 1] == v.sent;
    SameCounters(v, v.(sent := sent), Records(sent));
    assert Honest(v.transcript, rec) by { OtherRecordIsHonest(v.transcript, rec); }
  }

  lemma OtherRecordIsHonest(transcript: seq<Message>, rec: Sent)
    requires rec.rtype != RT_HANDSHAKE
    ensures Honest(transcript, rec)
  {
  }

  /** The MTU, the `complete` flag and a rewound cursor do not matter to the invariant. */
  lemma PreparedKeepsInv(w: Writer, query: Option<int>)
    requires Inv(w)
    ensures Inv(w.(complete := true).UpdateMtu(query)) && Inv(w.Rewound().UpdateMtu(query))
  {
    hide Honest, FlightFrom, Aead.Meets;
    SameCounters(w, w.(complete := true).UpdateMtu(query), Records(w.sent));
    SameCounters(w, w.Rewound().UpdateMtu(query), Records(w.sent));
  }

  lemma DoKeepsInv(w: Writer, op: Op)
    requires Inv(w) && Allowed(op)
    ensures Inv(Do(w, op))
  {
    hide Inv, Writer.SendPackets, Writer.UpdateMtu, Writer.FinishMessage, Aead.Meets, Writer.WriteRecord,
         Writer.SetWriteState;
    ClearKeepsInv(w);
    match op
    case AddMessage(m) =>
      if m.Fits() && |w.Begun().flight| < FLIGHT { AddKeepsInv(w.Begun(), m); }
    case AddChangeCipherSpec =>
      if |w.Begun().flight| < FLIGHT { AddCcsKeepsInv(w.Begun()); }
    case SetWriteState(aead) => SetWriteStateKeepsInv(w, aead);
    case Flush(query, budget, flushOk) =>
      PreparedKeepsInv(w, query);
      SendKeepsInv(w.(complete := true).UpdateMtu(query), budget, flushOk);
    case Retransmit(query, budget, flushOk) =>
      PreparedKeepsInv(w, query);
      SendKeepsInv(w.Rewound().UpdateMtu(query), budget, flushOk);
    case WriteAlert(plain, written) => WriteRecordKeepsInv(w, RT_ALERT, plain, written);
    case WriteAppData(plain, written) => WriteRecordKeepsInv(w, RT_APPLICATION_DATA, plain, written);
    case HandshakeComplete(hasReply) =>
  }

  ghost predicate Init(w: Writer) {
    && w.transcript == [] && w.msgSeq == 0 && w.epoch == 0
    && w.flight == [] && w.cursor == Cursor(0, 0) && w.sent == [] && w.pass == []
    && !w.wrapped && !w.lost && w.writeSeq < SEQ48 && w.lastWriteSeq < SEQ48
    && AeadsMeet(w)
  }

  ghost function Run(w: Writer, ops: seq<Op>): Option<Writer> {
    if ops == [] then Some(w)
    else match Run(w, ops[..|ops| - 1])
      case None => None
      case Some(v) =>
        if v.CursorOk() && v.msgSeq < U16 && Allowed(ops[|ops| - 1]) then Some(Do(v, ops[|ops| - 1])) else None
  }

  /** Until a counter wraps, no two records of a run carry the same epoch and sequence number; and handshake
      records never say anything but parts of the transcript's messages. */
  lemma {:induction false} EveryRun(w: Writer, ops: seq<Op>)
    requires Init(w) && forall i :: 0 <= i < |ops| ==> Allowed(ops[i])
    ensures Run(w, ops).Some? && Inv(Run(w, ops).value)
    ensures var w' := Run(w, ops).value;
            && (!w'.wrapped ==> Distinct(Records(w'.sent)))
            && AllHonest(w'.transcript, Records(w'.sent))
  {
    hide Do;
    if ops == [] {
    } else {
      var front := ops[..|ops| - 1];
      EveryRun(w, front);
      DoKeepsInv(Run(w, front).value, ops[|ops| - 1]);
    }
  }

  /** When send_flight succeeds, the datagrams written since the cursor was rewound carry the whole flight
      contiguously, in order and once, if and only if no sealed record had been dropped before the call. */
  lemma FlushedFlightIsWhole(w: Writer, budget: nat, flushOk: bool)
    requires Inv(w) && w.SendPackets(budget, flushOk).1 == Flushed
    ensures var w' := w.SendPackets(budget, flushOk).0;
            Follow(w.flight, Records(w'.pass)) == Some(Cursor(|w.flight|, 0)) <==> !w.lost
  {
    hide Writer.SendPackets, Follow, Behind;
    SendAccounted(w, budget, flushOk);
    SendReachesEnd(w, budget, flushOk);
    OnlyFailureLoses(w, budget, flushOk);
    AccountedMeans(w.SendPackets(budget, flushOk).0);
  }

  /** Only a call that reports a failure drops sealed records, and once they are lost they stay lost. */
  lemma {:induction false} OnlyFailureLoses(w: Writer, budget: nat, flushOk: bool)
    requires w.CursorOk()
    ensures var (w', r) := w.SendPackets(budget, flushOk);
            (r != Failed ==> w'.lost == w.lost) && (w.lost ==> w'.lost)
    decreases |w.flight| - w.cursor.written, U24 - w.cursor.offset
  {
    hide Writer.SealMore, Writer.SealNextMessage;
    if w.cursor.written >= |w.flight| {
    } else {
      PacketMovesCursor(w, w.mtu);
      var (v, r) := w.SealNextPacket(w.mtu);
      if r.Full? && budget > 0 {
        OnlyFailureLoses(v.Wrote(r.packet), budget - 1, flushOk);
      }
    }
  }

  lemma {:induction false} SendKeepsMtu(w: Writer, budget: nat, flushOk: bool)
    requires w.CursorOk()
    ensures var w' := w.SendPackets(budget, flushOk).0;
            w'.mtu == w.mtu && w'.flight == w.flight
    decreases |w.flight| - w.cursor.written, U24 - w.cursor.offset
  {
    hide Writer.SealMore, Writer.SealNextMessage;
    if w.cursor.written >= |w.flight| {
    } else {
      PacketMovesCursor(w, w.mtu);
      var (v, r) := w.SealNextPacket(w.mtu);
      if r.Full? && budget > 0 {
        SendKeepsMtu(v.Wrote(r.packet), budget - 1, flushOk);
      }
    }
  }

  /** A flush or a retransmission has reported a failure since the cursor was last rewound or the flight cleared. A
      caller can keep this book. */
  ghost predicate Faulted(w: Writer, ops: seq<Op>) {
    ops != [] &&
    var front, op := ops[..|ops| - 1], ops[|ops| - 1];
    match Run(w, front)
    case None => false
    case Some(v) =>
      if !(v.CursorOk() && v.msgSeq < U16) then false
      else match op
        case Flush(query, budget, flushOk) =>
          Faulted(w, front) || v.FlushFlight(query, budget, flushOk).1 == Failed
        case Retransmit(query, budget, flushOk) => v.Retransmit(query, budget, flushOk).1 == Failed
        case AddMessage(m) => Faulted(w, front) && !(v.complete && v.AddMessage(m).Some?)
        case AddChangeCipherSpec => Faulted(w, front) && !(v.complete && v.AddChangeCipherSpec().Some?)
        case HandshakeComplete(hasReply) => Faulted(w, front) && !hasReply
        case _ => Faulted(w, front)
  }

  /** Without such a failure nothing is lost: every flush that succeeds has written the flight whole. */
  lemma {:induction false} LossIsReported(w: Writer, ops: seq<Op>)
    requires Init(w) && Run(w, ops).Some?
    ensures Run(w, ops).value.lost ==> Faulted(w, ops)
  {
    hide Writer.SendPackets, Writer.UpdateMtu, Writer.WriteRecord, Writer.SetWriteState, Writer.FinishMessage;
    if ops == [] {
    } else {
      var front, op := ops[..|ops| - 1], ops[|ops| - 1];
      LossIsReported(w, front);
      var v := Run(w, front).value;
      StepReportsLoss(v, op);
    }
  }

  /** What one operation does to the loss of sealed records. */
  lemma StepReportsLoss(v: Writer, op: Op)
    requires v.CursorOk() && v.msgSeq < U16
    ensures Do(v, op).lost ==>
              match op
              case Flush(query, budget, flushOk) => v.lost || v.FlushFlight(query, budget, flushOk).1 == Failed
              case Retransmit(query, budget, flushOk) => v.Retransmit(query, budget, flushOk).1 == Failed
              case AddMessage(m) => v.lost && !(v.complete && v.AddMessage(m).Some?)
              case AddChangeCipherSpec => v.lost && !(v.complete && v.AddChangeCipherSpec().Some?)
              case HandshakeComplete(hasReply) => v.lost && !hasReply
              case _ => v.lost
  {
    hide Writer.SendPackets, Writer.FinishMessage, Writer.SealRecord;
    match op
    case Flush(query, budget, flushOk) =>
      OnlyFailureLoses(v.(complete := true).UpdateMtu(query), budget, flushOk);
    case Retransmit(query, budget, flushOk) =>
      OnlyFailureLoses(v.Rewound().UpdateMtu(query), budget, flushOk);
    case WriteAlert(plain, _) =>
      RecordKeepsCursor(v, RT_ALERT, plain, |plain| + RECORD_HEADER + v.aead.maxOverhead, false);
    case WriteAppData(plain, _) =>
      RecordKeepsCursor(v, RT_APPLICATION_DATA, plain, |plain| + RECORD_HEADER + v.aead.maxOverhead, false);
    case _ =>
  }

  lemma {:induction false} SendReachesEnd(w: Writer, budget: nat, flushOk: bool)
    requires w.CursorOk() && FlightOk(w.flight) && InRange(w.flight, w.cursor)
    ensures var (w', r) := w.SendPackets(budget, flushOk);
            w'.flight == w.flight && (r == Flushed ==> w'.cursor == Cursor(|w.flight|, 0))
    decreases |w.flight| - w.cursor.written, U24 - w.cursor.offset
  {
    hide Writer.SealMore, Writer.SealNextMessage, FlightOk;
    if w.cursor.written >= |w.flight| {
    } else {
      PacketMovesCursor(w, w.mtu);
      var (v, r) := w.SealNextPacket(w.mtu);
      assert v == w.SealMore(w.mtu, []).0;
      MoreInRange(w, w.mtu, []);
      if r.Full? && budget > 0 {
        SendReachesEnd(v.Wrote(r.packet), budget - 1, flushOk);
      }
    }
  }

  /** In that case each byte of each message of the flight was written exactly once. */
  lemma FlushedByteIsCarriedOnce(w: Writer, budget: nat, flushOk: bool, k: nat, i: nat)
    requires Inv(w) && k < |w.flight| && !w.flight[k].isCcs && i < |Whole(w.flight[k]).body|
    requires w.SendPackets(budget, flushOk).1 == Flushed && !w.lost
    ensures var recs := Records(w.SendPackets(budget, flushOk).0.pass);
            exists j: nat :: Carries(w.flight, recs, j, k, i)
              && forall j': nat :: Carries(w.flight, recs, j', k, i) ==> j' == j
  {
    hide Carries, Writer.SendPackets, WellFormed;
    FlushedFlightIsWhole(w, budget, flushOk);
    var recs := Records(w.SendPackets(budget, flushOk).0.pass);
    CarriedOnce(w.flight, recs, k, i);
    var j: nat :| Carries(w.flight, recs, j, k, i);
    assert forall j': nat :: Carries(w.flight, recs, j', k, i) ==> j' == j;
  }

  /** An AEAD that meets its contract and fails just once, the second time it is used. */
  function Moody(): Aead {
    Aead(0, 0, (attempt, _, _, plain, room) => if attempt == 1 || |plain| > room then None else Some(|plain|))
  }

  /** A sealing error in the middle of a packet is not rolled back: from a fresh connection with two messages to send,
      the first flush fails after sealing one of them, the second reports success, and one message was not written. */
  lemma SealErrorLosesMessage(w: Writer)
    requires Init(w) && w.mtu == 1000 && w.writeSeq == 0 && w.aead == Moody() && w.lastAead == Moody()
    requires !w.complete && w.attempts == 0
    ensures Moody().Meets()
    ensures var ready := Do(Do(w, AddChangeCipherSpec), AddChangeCipherSpec);
            && Run(w, [AddChangeCipherSpec, AddChangeCipherSpec]) == Some(ready)
            && var (first, failed) := ready.FlushFlight(None, 1, true);
               failed == Failed && first.CursorOk()
               && var (second, flushed) := first.FlushFlight(None, 1, true);
                  flushed == Flushed && FlightOk(second.flight) && |second.flight| == 2
                  && Follow(second.flight, Records(second.pass)) == Some(Cursor(1, 0))
  {
    hide Writer.SendPackets, ParseFragment;
    var ccs := OutMsg([], 0, true);
    var one := Do(w, AddChangeCipherSpec);
    assert one == w.(flight := [] + [ccs]);
    var ready := Do(one, AddChangeCipherSpec);
    assert ready == w.(flight := [ccs, ccs]);
    var ops := [AddChangeCipherSpec, AddChangeCipherSpec];
    assert ops[..1] == [AddChangeCipherSpec] && ops[..1][..0] == [];
    assert Run(w, []) == Some(w);
    assert Run(w, ops[..1]) == Some(one);
    assert Run(w, ops) == Some(ready);
    FirstFlushFails(ready);
    var first := ready.FlushFlight(None, 1, true).0;
    SecondFlushSucceeds(first);
  }

  lemma FirstFlushFails(w: Writer)
    requires w.epoch == 0 && w.flight == [OutMsg([], 0, true), OutMsg([], 0, true)] && w.cursor == Cursor(0, 0)
    requires w.mtu == 1000 && w.writeSeq == 0 && w.aead == Moody() && w.attempts == 0
    ensures var (w', r) := w.FlushFlight(None, 1, true);
            && r == Failed
            && w' == w.(complete := true, writeSeq := 1, attempts := 2, cursor := Cursor(1, 0), lost := true)
  {
    var c := w.(complete := true);
    var rec := Sent(RT_CHANGE_CIPHER_SPEC, 0, 0, CCS, 14, Moody());
    assert c.SealRecord(RT_CHANGE_CIPHER_SPEC, CCS, 1000, false) == (c.(writeSeq := 1, attempts := 1), Some(rec));
    assert c.SealNextMessage(1000) == (c.(writeSeq := 1, attempts := 1), Sealed(rec));
    var v := c.(writeSeq := 1, attempts := 1).Past();
    var u := v.(attempts := 2);
    assert v.SealRecord(RT_CHANGE_CIPHER_SPEC, CCS, 986, false) == (u, None);
    assert v.SealNextMessage(986) == (u, SealError);
    assert v.SealMore(986, [rec]) == (u.(lost := true), None);
    assert c.SealMore(1000, []) == v.SealMore(986, [] + [rec]);
    assert [] + [rec] == [rec];
    assert c.SealNextPacket(1000) == (u.(lost := true), PacketError);
  }

  lemma SecondFlushSucceeds(w: Writer)
    requires w.epoch == 0 && w.flight == [OutMsg([], 0, true), OutMsg([], 0, true)] && w.cursor == Cursor(1, 0)
    requires w.mtu == 1000 && w.writeSeq == 1 && w.aead == Moody() && w.attempts == 2 && w.pass == []
    ensures var (w', r) := w.FlushFlight(None, 1, true);
            && r == Flushed && w'.flight == w.flight && FlightOk(w'.flight)
            && Follow(w'.flight, Records(w'.pass)) == Some(Cursor(1, 0))
  {
    var c := w.(complete := true);
    var rec := Sent(RT_CHANGE_CIPHER_SPEC, 0, 1, CCS, 14, Moody());
    assert c.SealRecord(RT_CHANGE_CIPHER_SPEC, CCS, 1000, false) == (c.(writeSeq := 2, attempts := 3), Some(rec));
    assert c.SealNextMessage(1000) == (c.(writeSeq := 2, attempts := 3), Sealed(rec));
    var v := c.(writeSeq := 2, attempts := 3).Past();
    assert v.SealMore(986, [rec]) == (v, Some([rec]));
    assert [] + [rec] == [rec];
    assert c.SealMore(1000, []) == (v, Some([rec]));
    assert c.SealNextPacket(1000) == (v, Full([rec]));
    var sent := v.Wrote([rec]);
    assert sent.SendPackets(0, true) == (sent, Flushed);
    assert c.SendPackets(1, true) == (sent, Flushed);
    OneCcsFollows(w.flight, rec);
    assert [[rec]][..0] == [] && Records([]) + [rec] == [rec];
    assert Records([[rec]]) == [rec];
    assert w.pass + [[rec]] == [[rec]];
  }

  lemma OneCcsFollows(flight: seq<OutMsg>, rec: Sent)
    requires flight == [OutMsg([], 0, true), OutMsg([], 0, true)]
    requires rec.rtype == RT_CHANGE_CIPHER_SPEC && rec.epoch == 0 && rec.plain == CCS
    ensures FlightOk(flight) && Follow(flight, [rec]) == Some(Cursor(1, 0))
  {
    assert [rec][..0] == [];
    assert Follow(flight, []) == Some(Cursor(0, 0));
  }
}
