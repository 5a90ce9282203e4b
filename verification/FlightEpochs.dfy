/** Write epochs and ciphers over whole runs: whatever is retried or retransmitted after a cipher change, a message
    leaves in the epoch in which it was added, and a record is sealed by the cipher of its epoch. */
module FlightEpochs {
  import opened Octets
  import opened Wrappers
  import opened DtlsWire
  import opened DtlsWriter
  import opened FlightTiling
  import opened WriterRuns

  // The history of a run, read off its operations.

  /** The write epoch in which each message of the transcript was added. */
  ghost function AddedIn(w: Writer, ops: seq<Op>): seq<nat> {
    if ops == [] then []
    else
      var front := ops[..|ops| - 1];
      AddedIn(w, front) + match Run(w, front)
                          case None => []
                          case Some(v) => AddedBy(v, ops[|ops| - 1])
  }

  ghost function AddedBy(v: Writer, op: Op): seq<nat> {
    if op.AddMessage? && v.msgSeq < U16 && v.AddMessage(op.m).Some? then [v.epoch] else []
  }

  /** The AEAD installed for each write epoch. */
  ghost function Installed(w: Writer, ops: seq<Op>): seq<Aead> {
    if ops == [] then [w.aead] else Installed(w, ops[..|ops| - 1]) + InstalledBy(ops[|ops| - 1])
  }

  ghost function InstalledBy(op: Op): seq<Aead> {
    if op.SetWriteState? then [op.aead] else []
  }

  // What holds of a sender and its history.

  /** A part of message k of the transcript, in the epoch in which that message was added. */
  ghost predicate FromEpoch(t: seq<Message>, added: seq<nat>, rec: Sent) {
    |added| == |t| &&
    (rec.rtype == RT_HANDSHAKE ==>
       FragmentOf(rec).Some? && exists k: nat, off: nat, len: nat ::
         IsSlice(t, FragmentOf(rec).value, k, off, len) && rec.epoch == added[k])
  }

  ghost predicate Queued(t: seq<Message>, added: seq<nat>, m: OutMsg) {
    |added| == |t| && (!m.isCcs ==> exists k: nat :: IsMessage(t, m, k) && m.epoch == added[k])
  }

  /** The record was sealed by the cipher of its epoch. */
  ghost predicate Keyed(installed: seq<Aead>, rec: Sent) {
    rec.epoch < |installed| && rec.sealer == installed[rec.epoch]
  }

  ghost predicate Ciphers(w: Writer, installed: seq<Aead>) {
    && |installed| == w.epoch + 1 && w.aead == installed[w.epoch]
    && (w.epoch >= 1 ==> w.lastAead == installed[w.epoch - 1])
  }

  ghost predicate AllQueued(w: Writer, added: seq<nat>) {
    |added| == |w.transcript| && forall i :: 0 <= i < |w.flight| ==> Queued(w.transcript, added, w.flight[i])
  }

  ghost predicate AllFromEpoch(t: seq<Message>, added: seq<nat>, recs: seq<Sent>) {
    forall i :: 0 <= i < |recs| ==> FromEpoch(t, added, recs[i])
  }

  ghost predicate AllKeyed(installed: seq<Aead>, recs: seq<Sent>) {
    forall i :: 0 <= i < |recs| ==> Keyed(installed, recs[i])
  }

  // Sealing.

  lemma DueIsFromEpoch(t: seq<Message>, added: seq<nat>, flight: seq<OutMsg>, c: Cursor, rec: Sent)
    requires FlightOk(flight) && Due(flight, c, rec).Some? && Queued(t, added, flight[c.written])
    ensures FromEpoch(t, added, rec)
  {
    if rec.rtype == RT_HANDSHAKE {
      var m := flight[c.written];
      var k: nat :| IsMessage(t, m, k) && m.epoch == added[k];
      MessageIsWhole(t, m, k);
      var f := FragmentOf(rec).value;
      assert f.body == t[k].body[c.offset..c.offset + |f.body|];
      assert IsSlice(t, f, k, c.offset, |f.body|);
    }
  }

  lemma SealedIsKeyed(w: Writer, maxOut: nat, installed: seq<Aead>)
    requires w.cursor.written < |w.flight| && Ciphers(w, installed)
    ensures var r := w.SealNextMessage(maxOut).1;
            r.Sealed? || r.Partial? ==> Keyed(installed, r.rec)
  {
    hide ParseFragment, Writer.SealRecord;
    var msg := w.flight[w.cursor.written];
    var previous := w.epoch >= 1 && msg.epoch == w.epoch - 1;
    if previous || msg.epoch == w.epoch {
      forall rtype, plain
        ensures var rec := w.SealRecord(rtype, plain, maxOut, previous).1;
                rec.Some? ==> Keyed(installed, rec.value)
      {
        RecordKeepsType(w, rtype, plain, maxOut, previous);
      }
    }
  }

  lemma {:induction false} MoreFromEpoch(w: Writer, maxOut: nat, packet: Packet, added: seq<nat>)
    requires InFlight(w) && AllQueued(w, added) && AllFromEpoch(w.transcript, added, packet)
    ensures var p := w.SealMore(maxOut, packet).1;
            p.Some? ==> AllFromEpoch(w.transcript, added, p.value)
    decreases |w.flight| - w.cursor.written
  {
    hide Writer.SealNextMessage, Due, FlightFrom, FlightOk, FromEpoch, Queued;
    if w.cursor.written >= |w.flight| {
    } else {
      SealMovesCursor(w, maxOut);
      SealedIsDue(w, maxOut);
      var (v, r) := w.SealNextMessage(maxOut);
      if r.Sealed? || r.Partial? {
        DueIsFromEpoch(w.transcript, added, w.flight, w.cursor, r.rec);
      }
      if r.Sealed? {
        MoreFromEpoch(v.Past(), if r.rec.size <= maxOut then maxOut - r.rec.size else 0, packet + [r.rec], added);
      }
    }
  }

  lemma {:induction false} MoreKeyed(w: Writer, maxOut: nat, packet: Packet, installed: seq<Aead>)
    requires w.CursorOk() && Ciphers(w, installed) && AllKeyed(installed, packet)
    ensures var p := w.SealMore(maxOut, packet).1;
            p.Some? ==> AllKeyed(installed, p.value)
    decreases |w.flight| - w.cursor.written
  {
    hide Writer.SealNextMessage, Keyed;
    if w.cursor.written >= |w.flight| {
    } else {
      SealMovesCursor(w, maxOut);
      SealedIsKeyed(w, maxOut, installed);
      var (v, r) := w.SealNextMessage(maxOut);
      if r.Sealed? {
        MoreKeyed(v.Past(), if r.rec.size <= maxOut then maxOut - r.rec.size else 0, packet + [r.rec], installed);
      }
    }
  }

  lemma OnePacketMore(ps: seq<Packet>, p: Packet)
    ensures Records(ps + [p]) == Records(ps) + p
  {
    assert (ps + [p])[..|ps + [p]| - 1] == ps;
  }

  lemma {:induction false} SendFromEpoch(w: Writer, budget: nat, flushOk: bool, added: seq<nat>)
    requires InFlight(w) && AllQueued(w, added) && AllHonest(w.transcript, Records(w.sent))
    requires AllFromEpoch(w.transcript, added, Records(w.sent))
    ensures var w' := w.SendPackets(budget, flushOk).0;
            AllQueued(w', added) && AllFromEpoch(w'.transcript, added, Records(w'.sent))
    decreases |w.flight| - w.cursor.written, U24 - w.cursor.offset
  {
    hide Writer.SealMore, FlightFrom, FlightOk, InRange, AllHonest, Records, FromEpoch, Queued;
    if w.cursor.written >= |w.flight| {
    } else {
      PacketMovesCursor(w, w.mtu);
      PacketHonest(w, w.mtu);
      MoreFromEpoch(w, w.mtu, [], added);
      var (v, r) := w.SealNextPacket(w.mtu);
      if r.Full? && budget > 0 {
        OnePacketMore(v.sent, r.packet);
        SendFromEpoch(v.Wrote(r.packet), budget - 1, flushOk, added);
      }
    }
  }

  lemma {:induction false} SendKeyed(w: Writer, budget: nat, flushOk: bool, installed: seq<Aead>)
    requires w.CursorOk() && Ciphers(w, installed) && AllKeyed(installed, Records(w.sent))
    ensures var w' := w.SendPackets(budget, flushOk).0;
            Ciphers(w', installed) && AllKeyed(installed, Records(w'.sent))
    decreases |w.flight| - w.cursor.written, U24 - w.cursor.offset
  {
    hide Writer.SealMore, Records, Keyed;
    if w.cursor.written >= |w.flight| {
    } else {
      PacketMovesCursor(w, w.mtu);
      MoreKeyed(w, w.mtu, [], installed);
      var (v, r) := w.SealNextPacket(w.mtu);
      if r.Full? && budget > 0 {
        OnePacketMore(v.sent, r.packet);
        SendKeyed(v.Wrote(r.packet), budget - 1, flushOk, installed);
      }
    }
  }

  // Operations.

  /** What was so stays so when a message joins the transcript. */
  lemma LongerHistory(t: seq<Message>, added: seq<nat>, m: Message, epoch: nat, flight: seq<OutMsg>, recs: seq<Sent>)
    requires |added| == |t| && AllFromEpoch(t, added, recs)
    requires forall i :: 0 <= i < |flight| ==> Queued(t, added, flight[i])
    ensures AllFromEpoch(t + [m], added + [epoch], recs)
    ensures forall i :: 0 <= i < |flight| ==> Queued(t + [m], added + [epoch], flight[i])
  {
    var t', added' := t + [m], added + [epoch];
    forall i | 0 <= i < |recs| ensures FromEpoch(t', added', recs[i]) {
      assert FromEpoch(t, added, recs[i]);
      if recs[i].rtype == RT_HANDSHAKE {
        var f := FragmentOf(recs[i]).value;
        var k: nat, off: nat, len: nat :| IsSlice(t, f, k, off, len) && recs[i].epoch == added[k];
        assert IsSlice(t', f, k, off, len) && recs[i].epoch == added'[k];
      }
    }
    forall i | 0 <= i < |flight| && !flight[i].isCcs ensures Queued(t', added', flight[i]) {
      assert Queued(t, added, flight[i]);
      var k: nat :| IsMessage(t, flight[i], k) && flight[i].epoch == added[k];
      assert IsMessage(t', flight[i], k) && flight[i].epoch == added'[k];
    }
  }

  lemma AddFromEpoch(v: Writer, m: Message, added: seq<nat>)
    requires Inv(v) && AllQueued(v, added) && AllFromEpoch(v.transcript, added, Records(v.sent))
    requires v.msgSeq < U16 && v.AddMessage(m).Some?
    ensures var w := v.AddMessage(m).value;
            AllQueued(w, added + [v.epoch]) && AllFromEpoch(w.transcript, added + [v.epoch], Records(w.sent))
  {
    hide Inv, Writer.FinishMessage, Queued, FromEpoch, Records, Message.Bytes;
    var b := v.Begun();
    LongerHistory(v.transcript, added, m, v.epoch, b.flight, Records(v.sent));
    var out := OutMsg(v.FinishMessage(m), v.epoch, false);
    InvNumbers(v);
    FinishedIsOneFragment(v, m);
    NewIsQueued(v.transcript, added, m, out);
    var w := v.AddMessage(m).value;
    assert b.FinishMessage(m) == v.FinishMessage(m) by { FinishedIsOneFragment(b, m); }
    forall i | 0 <= i < |w.flight| ensures Queued(w.transcript, added + [v.epoch], w.flight[i]) {
      assert w.flight[i] == if i < |b.flight| then b.flight[i] else out;
    }
  }

  lemma InvNumbers(v: Writer)
    requires Inv(v)
    ensures v.CursorOk() && v.msgSeq == |v.transcript| % U16 && InFlight(v) && AllHonest(v.transcript, Records(v.sent))
  {
  }

  lemma NewIsQueued(t: seq<Message>, added: seq<nat>, m: Message, out: OutMsg)
    requires |added| == |t| && m.Fits() && out.data == m.Bytes(|t| % U16)
    ensures Queued(t + [m], added + [out.epoch], out)
  {
    hide Message.Bytes;
    assert IsMessage(t + [m], out, |t|) && out.epoch == (added + [out.epoch])[|t|];
  }

  lemma RecordFromEpoch(v: Writer, rtype: nat, plain: Bytes, written: bool, added: seq<nat>, installed: seq<Aead>)
    requires rtype != RT_HANDSHAKE && AllQueued(v, added) && AllFromEpoch(v.transcript, added, Records(v.sent))
    requires !v.wrapped ==> Ciphers(v, installed) && AllKeyed(installed, Records(v.sent))
    ensures var w := v.WriteRecord(rtype, plain, written).0;
            && AllQueued(w, added) && AllFromEpoch(w.transcript, added, Records(w.sent))
            && (!w.wrapped ==> Ciphers(w, installed) && AllKeyed(installed, Records(w.sent)))
  {
    hide Writer.SealRecord, Records, Queued, Writer.Counted;
    var maxOut := |plain| + RECORD_HEADER + v.aead.maxOverhead;
    RecordKeepsCursor(v, rtype, plain, maxOut, false);
    RecordKeepsType(v, rtype, plain, maxOut, false);
    RecordStaysWrapped(v, rtype, plain, maxOut, false);
    var rec := v.SealRecord(rtype, plain, maxOut, false).1;
    if rec.Some? {
      OnePacketMore(v.sent, [rec.value]);
    }
  }

  lemma RecordStaysWrapped(v: Writer, rtype: nat, plain: Bytes, maxOut: nat, previous: bool)
    requires previous ==> v.epoch >= 1
    ensures v.wrapped ==> v.SealRecord(rtype, plain, maxOut, previous).0.wrapped
  {
  }

  lemma {:induction false} SendStaysWrapped(w: Writer, budget: nat, flushOk: bool)
    requires w.CursorOk() && w.wrapped
    ensures w.SendPackets(budget, flushOk).0.wrapped
    decreases |w.flight| - w.cursor.written, U24 - w.cursor.offset
  {
    hide Writer.SealMore;
    if w.cursor.written >= |w.flight| {
    } else {
      PacketMovesCursor(w, w.mtu);
      MoreStaysWrapped(w, w.mtu, []);
      var (v, r) := w.SealNextPacket(w.mtu);
      if r.Full? && budget > 0 {
        SendStaysWrapped(v.Wrote(r.packet), budget - 1, flushOk);
      }
    }
  }

  lemma {:induction false} MoreStaysWrapped(w: Writer, maxOut: nat, packet: Packet)
    requires w.wrapped
    ensures w.SealMore(maxOut, packet).0.wrapped
    decreases |w.flight| - w.cursor.written
  {
    hide Writer.SealNextMessage;
    if w.cursor.written >= |w.flight| {
    } else {
      MessageStaysWrapped(w, maxOut);
      var (v, r) := w.SealNextMessage(maxOut);
      if r.Sealed? {
        MoreStaysWrapped(v.Past(), if r.rec.size <= maxOut then maxOut - r.rec.size else 0, packet + [r.rec]);
      }
    }
  }

  lemma MessageStaysWrapped(w: Writer, maxOut: nat)
    requires w.wrapped && w.cursor.written < |w.flight|
    ensures w.SealNextMessage(maxOut).0.wrapped
  {
    hide ParseFragment, Writer.SealRecord;
    var msg := w.flight[w.cursor.written];
    var previous := w.epoch >= 1 && msg.epoch == w.epoch - 1;
    forall rtype, plain ensures w.SealRecord(rtype, plain, maxOut, previous).0.wrapped {
      RecordStaysWrapped(w, rtype, plain, maxOut, previous);
    }
  }

  lemma FlushFromEpoch(v: Writer, w: Writer, budget: nat, flushOk: bool, added: seq<nat>, installed: seq<Aead>)
    requires Inv(w) && AllQueued(w, added) && AllFromEpoch(w.transcript, added, Records(w.sent))
    requires !w.wrapped ==> Ciphers(w, installed) && AllKeyed(installed, Records(w.sent))
    ensures w.CursorOk()
    ensures var w' := w.SendPackets(budget, flushOk).0;
            && AllQueued(w', added) && AllFromEpoch(w'.transcript, added, Records(w'.sent))
            && (!w'.wrapped ==> Ciphers(w', installed) && AllKeyed(installed, Records(w'.sent)))
  {
    hide Inv, Writer.SendPackets, AllQueued, AllFromEpoch, Ciphers, AllKeyed;
    InvNumbers(w);
    SendFromEpoch(w, budget, flushOk, added);
    if w.wrapped {
      SendStaysWrapped(w, budget, flushOk);
    } else {
      SendKeyed(w, budget, flushOk, installed);
    }
  }

  ghost predicate InStep(w: Writer, added: seq<nat>, installed: seq<Aead>) {
    && AllQueued(w, added) && AllFromEpoch(w.transcript, added, Records(w.sent))
    && (!w.wrapped ==> Ciphers(w, installed) && AllKeyed(installed, Records(w.sent)))
  }

  lemma DoKeepsStep(v: Writer, op: Op, added: seq<nat>, installed: seq<Aead>)
    requires Inv(v) && Allowed(op) && InStep(v, added, installed) && v.CursorOk() && v.msgSeq < U16
    ensures InStep(Do(v, op), added + AddedBy(v, op), installed + InstalledBy(op))
  {
    hide Inv, Writer.SendPackets, Writer.FinishMessage, Writer.WriteRecord, Queued, FromEpoch, Keyed, Records;
    assert added + [] == added && installed + [] == installed;
    match op
    case AddMessage(m) => if v.AddMessage(m).Some? { AddFromEpoch(v, m, added); }
    case Flush(query, budget, flushOk) =>
      PreparedKeepsInv(v, query);
      FlushFromEpoch(v, v.(complete := true).UpdateMtu(query), budget, flushOk, added, installed);
    case Retransmit(query, budget, flushOk) =>
      PreparedKeepsInv(v, query);
      FlushFromEpoch(v, v.Rewound().UpdateMtu(query), budget, flushOk, added, installed);
    case WriteAlert(plain, written) => RecordFromEpoch(v, RT_ALERT, plain, written, added, installed);
    case WriteAppData(plain, written) => RecordFromEpoch(v, RT_APPLICATION_DATA, plain, written, added, installed);
    case AddChangeCipherSpec => CcsIsQueued(v, added);
    case SetWriteState(aead) => MoreInstalled(installed, aead, Records(v.sent));
    case HandshakeComplete(_) =>
  }

  lemma CcsIsQueued(v: Writer, added: seq<nat>)
    requires AllQueued(v, added)
    ensures v.AddChangeCipherSpec().Some? ==> AllQueued(v.AddChangeCipherSpec().value, added)
  {
  }

  lemma MoreInstalled(installed: seq<Aead>, aead: Aead, recs: seq<Sent>)
    ensures AllKeyed(installed, recs) ==> AllKeyed(installed + [aead], recs)
  {
  }

  lemma {:induction false} RunKeepsStep(w: Writer, ops: seq<Op>)
    requires Init(w) && forall i :: 0 <= i < |ops| ==> Allowed(ops[i])
    ensures Run(w, ops).Some? && InStep(Run(w, ops).value, AddedIn(w, ops), Installed(w, ops))
  {
    hide Inv, InStep, Do, Init;
    if ops == [] {
      InitInStep(w);
    } else {
      var front, op := ops[..|ops| - 1], ops[|ops| - 1];
      RunKeepsStep(w, front);
      WriterRuns.EveryRun(w, front);
      WriterRuns.EveryRun(w, ops);
      InvNumbers(Run(w, front).value);
      DoKeepsStep(Run(w, front).value, op, AddedIn(w, front), Installed(w, front));
    }
  }

  lemma InitInStep(w: Writer)
    requires Init(w)
    ensures InStep(w, [], [w.aead])
  {
  }

  /** In every run, whatever was retried or retransmitted: a handshake record of message number n is a part of that
      message, in the write epoch in which the message was added. */
  lemma MessagesKeepTheirEpoch(w: Writer, ops: seq<Op>, i: nat)
    requires Init(w) && forall j :: 0 <= j < |ops| ==> Allowed(ops[j])
    ensures Run(w, ops).Some?
    ensures var w' := Run(w, ops).value;
            i < |Records(w'.sent)| && Records(w'.sent)[i].rtype == RT_HANDSHAKE && |w'.transcript| < U16 ==>
              var rec := Records(w'.sent)[i];
              FragmentOf(rec).Some?
              && var f := FragmentOf(rec).value;
                 && f.header.seqNo < |w'.transcript| == |AddedIn(w, ops)|
                 && rec.epoch == AddedIn(w, ops)[f.header.seqNo]
                 && f.header.fragOff + |f.body| <= |w'.transcript[f.header.seqNo].body|
                 && f == w'.transcript[f.header.seqNo].Slice(f.header.seqNo, f.header.fragOff, |f.body|)
  {
    hide FragmentOf, Init, Records, Run, AddedIn, Installed, FromEpoch, Queued, Keyed, Ciphers;
    RunKeepsStep(w, ops);
    var w' := Run(w, ops).value;
    if i < |Records(w'.sent)| && Records(w'.sent)[i].rtype == RT_HANDSHAKE && |w'.transcript| < U16 {
      SliceByNumber(w'.transcript, AddedIn(w, ops), Records(w'.sent)[i]);
    }
  }

  /** Before numbers wrap, the number in the header says which message it is. */
  lemma SliceByNumber(t: seq<Message>, added: seq<nat>, rec: Sent)
    requires FromEpoch(t, added, rec) && rec.rtype == RT_HANDSHAKE && |t| < U16
    ensures FragmentOf(rec).Some?
    ensures var f := FragmentOf(rec).value;
            && f.header.seqNo < |t| == |added|
            && rec.epoch == added[f.header.seqNo]
            && f.header.fragOff + |f.body| <= |t[f.header.seqNo].body|
            && f == t[f.header.seqNo].Slice(f.header.seqNo, f.header.fragOff, |f.body|)
  {
    hide FragmentOf;
    var k: nat, off: nat, len: nat :| IsSlice(t, FragmentOf(rec).value, k, off, len) && rec.epoch == added[k];
  }

  /** And every record, of whatever type, was sealed by the AEAD installed for its epoch: what is retransmitted after a
      cipher change is sealed by the old cipher, and nothing else is. */
  lemma RecordsKeepTheirCipher(w: Writer, ops: seq<Op>, i: nat)
    requires Init(w) && forall j :: 0 <= j < |ops| ==> Allowed(ops[j])
    ensures Run(w, ops).Some?
    ensures var w' := Run(w, ops).value;
            i < |Records(w'.sent)| && !w'.wrapped ==>
              var rec := Records(w'.sent)[i];
              rec.epoch < |Installed(w, ops)| && rec.sealer == Installed(w, ops)[rec.epoch]
  {
    hide Init, Records;
    RunKeepsStep(w, ops);
    var w' := Run(w, ops).value;
    if i < |Records(w'.sent)| && !w'.wrapped {
      assert Keyed(Installed(w, ops), Records(w'.sent)[i]);
    }
  }

  /** A record written outside the flight, by type, epoch, cipher and content. */
  lemma WrittenRecord(w: Writer, rtype: nat, plain: Bytes, written: bool)
    ensures var (w', ok) := w.WriteRecord(rtype, plain, written);
            if ok then
              && |plain| <= MAX_PLAIN && |w'.sent| == |w.sent| + 1 && w'.sent[..|w.sent|] == w.sent
              && |w'.sent[|w.sent|]| == 1
              && var rec := w'.sent[|w.sent|][0];
                 rec.rtype == rtype && rec.epoch == w.epoch && rec.sealer == w.aead && rec.plain == plain
                 && rec.seqNo == w.writeSeq
            else w'.sent == w.sent
  {
  }
}
