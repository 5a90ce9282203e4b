/** Datagram sizes and record numbers of the sending half (RFC 6347 section 4.1). */
module RecordNumbers {
  import opened Octets
  import opened Wrappers
  import opened DtlsWire
  import opened DtlsWriter

  ghost predicate AeadsMeet(w: Writer) {
    w.aead.Meets() && w.lastAead.Meets()
  }

  lemma RecordFits(w: Writer, rtype: nat, plain: Bytes, maxOut: nat, previous: bool)
    requires AeadsMeet(w) && (previous ==> w.epoch >= 1)
    ensures var (w', rec) := w.SealRecord(rtype, plain, maxOut, previous);
            AeadsMeet(w') && (rec.Some? ==> rec.value.size <= maxOut && rec.value.plain == plain)
  {
  }

  lemma MessageFits(w: Writer, maxOut: nat)
    requires AeadsMeet(w) && w.cursor.written < |w.flight|
    ensures var (w', r) := w.SealNextMessage(maxOut);
            && AeadsMeet(w')
            && (r.Sealed? || r.Partial? ==> r.rec.size <= maxOut)
            && (r.NoProgress? ==> maxOut < HM_HEADER + 1 + w.Overhead(false)
                                  || maxOut < HM_HEADER + 1 + w.Overhead(true))
  {
    hide Writer.SealRecord, FragmentBytes, Aead.Meets, ParseFragment;
    var msg := w.flight[w.cursor.written];
    var previous := w.epoch >= 1 && msg.epoch == w.epoch - 1;
    forall rtype, plain
      ensures var (w', rec) := w.SealRecord(rtype, plain, maxOut, previous);
              AeadsMeet(w') && (rec.Some? ==> rec.value.size <= maxOut)
    {
      RecordFits(w, rtype, plain, maxOut, previous);
    }
    assert w.Prefix(previous) <= w.Overhead(previous) by {
      PrefixWithinOverhead(w, previous);
    }
  }

  lemma PrefixWithinOverhead(w: Writer, previous: bool)
    requires AeadsMeet(w)
    ensures w.Prefix(previous) <= w.Overhead(previous)
  {
  }

  lemma {:induction false} MoreFits(w: Writer, maxOut: nat, packet: Packet, total: nat)
    requires AeadsMeet(w) && Size(packet) + maxOut <= total
    ensures var (w', p) := w.SealMore(maxOut, packet);
            && AeadsMeet(w')
            && (p.Some? ==> Size(p.value) <= total)
    decreases |w.flight| - w.cursor.written
  {
    hide Writer.SealNextMessage, Aead.Meets;
    if w.cursor.written >= |w.flight| {
    } else {
      MessageFits(w, maxOut);
      var (v, r) := w.SealNextMessage(maxOut);
      if r.Sealed? || r.Partial? {
        assert (packet + [r.rec])[..|packet + [r.rec]| - 1] == packet;
      }
      if r.Sealed? {
        MoreFits(v.Past(), maxOut - r.rec.size, packet + [r.rec], total);
      }
    }
  }

  /** Every datagram fits, and "MTU too small" means what it says. */
  lemma PacketFits(w: Writer, maxOut: nat)
    requires AeadsMeet(w)
    ensures var (w', r) := w.SealNextPacket(maxOut);
            && AeadsMeet(w')
            && (r.Full? ==> Size(r.packet) <= maxOut)
            && (r.MtuTooSmall? && w.cursor.written < |w.flight| ==>
                  maxOut < HM_HEADER + 1 + w.Overhead(false) || maxOut < HM_HEADER + 1 + w.Overhead(true))
  {
    hide Writer.SealNextMessage, Aead.Meets;
    MoreFits(w, maxOut, [], maxOut);
    assert w.SealNextPacket(maxOut).0 == w.SealMore(maxOut, []).0;
    if w.cursor.written < |w.flight| {
      MessageFits(w, maxOut);
      var (v, r) := w.SealNextMessage(maxOut);
      if r.Sealed? {
        MoreGrows(v.Past(), if r.rec.size <= maxOut then maxOut - r.rec.size else 0, [r.rec]);
        assert [] + [r.rec] == [r.rec];
      }
    }
  }

  lemma {:induction false} MoreGrows(w: Writer, maxOut: nat, packet: Packet)
    ensures var p := w.SealMore(maxOut, packet).1; p.Some? ==> packet <= p.value
    decreases |w.flight| - w.cursor.written
  {
    hide Writer.SealNextMessage;
    if w.cursor.written >= |w.flight| {
    } else {
      var (v, r) := w.SealNextMessage(maxOut);
      if r.Sealed? {
        MoreGrows(v.Past(), if r.rec.size <= maxOut then maxOut - r.rec.size else 0, packet + [r.rec]);
      }
    }
  }

  /** All datagrams that one send_flight hands to the BIO fit its MTU, and it fails with "MTU too small" only if a
      header, the overhead and one body byte do not fit. */
  lemma {:induction false} SendFits(w: Writer, budget: nat, flushOk: bool)
    requires w.CursorOk() && AeadsMeet(w)
    ensures var (w', r) := w.SendPackets(budget, flushOk);
            && AeadsMeet(w') && w'.CursorOk()
            && w.sent <= w'.sent && |w'.sent| - |w.sent| <= budget
            && (forall i :: |w.sent| <= i < |w'.sent| ==> Size(w'.sent[i]) <= w.mtu)
            && (r == TooSmall ==>
                  w.mtu < HM_HEADER + 1 + w.Overhead(false) || w.mtu < HM_HEADER + 1 + w.Overhead(true))
    decreases |w.flight| - w.cursor.written, U24 - w.cursor.offset
  {
    hide Writer.SealMore, Writer.SealNextMessage, Aead.Meets, Size;
    if w.cursor.written >= |w.flight| {
    } else {
      PacketMovesCursor(w, w.mtu);
      PacketFits(w, w.mtu);
      var (v, r) := w.SealNextPacket(w.mtu);
      if r.Full? && budget > 0 {
        SendFits(v.Wrote(r.packet), budget - 1, flushOk);
      }
    }
  }

  /** Once the BIO has been asked, the MTU leaves room for progress under any cipher whose overhead is at most 202. */
  lemma FlushFindsRoom(w: Writer, query: Option<int>, budget: nat, flushOk: bool)
    requires w.CursorOk() && AeadsMeet(w) && (query.Some? || w.mtu >= MIN_MTU)
    requires w.aead.maxOverhead <= 202 && w.lastAead.maxOverhead <= 202
    ensures w.UpdateMtu(query).mtu >= MIN_MTU
    ensures w.FlushFlight(query, budget, flushOk).1 != TooSmall && w.Retransmit(query, budget, flushOk).1 != TooSmall
  {
    hide Writer.SendPackets, Aead.Meets;
    SendFits(w.(complete := true).UpdateMtu(query), budget, flushOk);
    SendFits(w.Rewound().UpdateMtu(query), budget, flushOk);
  }

  // Room is used: a message is cut only where the datagram ends.

  /** A fragment that leaves a rest fills the room; and nothing is sealed only where not even one byte would fit. */
  lemma PartFillsRoom(w: Writer, maxOut: nat)
    requires AeadsMeet(w) && w.cursor.written < |w.flight|
    ensures var r := w.SealNextMessage(maxOut).1;
            var previous := w.epoch >= 1 && w.flight[w.cursor.written].epoch == w.epoch - 1;
            && (r.Partial? ==> |r.rec.plain| + w.Overhead(previous) == maxOut)
            && (r.NoProgress? ==> maxOut < HM_HEADER + 1 + w.Overhead(previous))
  {
    hide ParseFragment, Writer.SealRecord;
    var msg := w.flight[w.cursor.written];
    var previous := w.epoch >= 1 && msg.epoch == w.epoch - 1;
    if previous || msg.epoch == w.epoch {
      forall rtype, plain
        ensures var rec := w.SealRecord(rtype, plain, maxOut, previous).1;
                rec.Some? ==> rec.value.plain == plain
      {
        RecordKeepsType(w, rtype, plain, maxOut, previous);
      }
    }
  }

  /** The room left when these records are in a datagram of so many bytes. */
  function Room(maxOut: nat, packet: Packet): nat {
    if Size(packet) <= maxOut then maxOut - Size(packet) else 0
  }

  function LargerOverhead(w: Writer): nat {
    if w.Overhead(true) >= w.Overhead(false) then w.Overhead(true) else w.Overhead(false)
  }

  /** The flight is at its end, or its next byte has no room, or the last record is cut where the datagram ends. */
  predicate UsesRoom(w: Writer, maxOut: nat, packet: Packet, atEnd: bool) {
    || atEnd
    || Room(maxOut, packet) < HM_HEADER + 1 + LargerOverhead(w)
    || (packet != []
        && var front, last := packet[..|packet| - 1], packet[|packet| - 1];
           |last.plain| + w.Overhead(false) == Room(maxOut, front)
           || |last.plain| + w.Overhead(true) == Room(maxOut, front))
  }

  lemma {:induction false} MoreUsesRoom(w: Writer, maxOut: nat, packet: Packet)
    requires AeadsMeet(w) && w.CursorOk()
    ensures var (w', p) := w.SealMore(Room(maxOut, packet), packet);
            p.Some? ==> UsesRoom(w, maxOut, p.value, w'.cursor.written >= |w.flight|)
    decreases |w.flight| - w.cursor.written
  {
    hide Writer.SealNextMessage;
    if w.cursor.written >= |w.flight| {
    } else {
      var room := Room(maxOut, packet);
      SealMovesCursor(w, room);
      PartFillsRoom(w, room);
      MessageFits(w, room);
      var (v, r) := w.SealNextMessage(room);
      if r.Sealed? || r.Partial? {
        assert (packet + [r.rec])[..|packet + [r.rec]| - 1] == packet;
      }
      if r.Sealed? {
        assert Room(maxOut, packet + [r.rec]) == if r.rec.size <= room then room - r.rec.size else 0;
        MoreUsesRoom(v.Past(), maxOut, packet + [r.rec]);
      }
    }
  }

  /** seal_next_packet packs as many messages into a datagram as fit, and as much of the last one as fits. */
  lemma PacketUsesRoom(w: Writer, maxOut: nat)
    requires AeadsMeet(w) && w.CursorOk()
    ensures var (w', r) := w.SealNextPacket(maxOut);
            r.Full? ==> UsesRoom(w, maxOut, r.packet, w'.cursor.written >= |w.flight|)
  {
    hide Writer.SealMore, UsesRoom;
    var none: Packet := [];
    assert Room(maxOut, none) == maxOut;
    MoreUsesRoom(w, maxOut, none);
    assert w.SealNextPacket(maxOut).0 == w.SealMore(maxOut, none).0;
  }

  /** What dtls1_update_mtu settles on: an MTU that is large enough stays; otherwise the BIO is believed if its answer
      is large enough and fits 30 bits, and overruled if not. */
  lemma MtuSettles(w: Writer, query: Option<int>)
    ensures var mtu := w.UpdateMtu(query).mtu;
            && (w.mtu >= MIN_MTU || query.None? ==> mtu == w.mtu)
            && (w.mtu < MIN_MTU && query.Some? ==>
                  mtu >= MIN_MTU && (mtu == query.value <==> MIN_MTU <= query.value <= 0x4000_0000)
                  && (mtu != query.value ==> mtu == DEFAULT_MTU))
  {
  }

  /** A record number already used: in the current or the previous write epoch, below that epoch's counter. */
  predicate Used(w: Writer, s: Sent) {
    || (s.epoch == w.epoch && s.seqNo < w.writeSeq)
    || (s.epoch + 1 == w.epoch && s.seqNo < w.lastWriteSeq)
    || (s.epoch + 1 < w.epoch && s.seqNo < SEQ48)
  }

  predicate Distinct(recs: seq<Sent>) {
    forall i, j :: 0 <= i < j < |recs| ==> !SameNumber(recs[i], recs[j])
  }

  predicate SameNumber(s: Sent, t: Sent) {
    s.epoch == t.epoch && s.seqNo == t.seqNo
  }

  predicate NumbersOk(w: Writer, recs: seq<Sent>) {
    && w.writeSeq < SEQ48 && w.lastWriteSeq < SEQ48
    && (!w.wrapped ==> Distinct(recs) && forall i :: 0 <= i < |recs| ==> Used(w, recs[i]))
  }

  /** Two writers with the same counters have used the same numbers. */
  lemma SameCounters(v: Writer, w: Writer, recs: seq<Sent>)
    requires NumbersOk(v, recs)
    requires v.epoch == w.epoch && v.writeSeq == w.writeSeq && v.lastWriteSeq == w.lastWriteSeq
             && v.wrapped == w.wrapped
    ensures NumbersOk(w, recs)
  {
    forall i | !v.wrapped && 0 <= i < |recs| ensures Used(w, recs[i]) {
      assert Used(v, recs[i]);
    }
  }

  /** Counting on uses the number counted past, and no other. */
  lemma CountedIsFresh(w: Writer, previous: bool, recs: seq<Sent>, rec: Sent)
    requires (previous ==> w.epoch >= 1) && NumbersOk(w, recs)
    requires rec.epoch == (if previous then w.epoch - 1 else w.epoch)
    requires rec.seqNo == if previous then w.lastWriteSeq else w.writeSeq
    ensures var w' := w.Counted((rec.seqNo + 1) % SEQ48, previous);
            NumbersOk(w', recs) && NumbersOk(w', recs + [rec])
  {
    var w' := w.Counted((rec.seqNo + 1) % SEQ48, previous);
    if !w'.wrapped {
      forall i | 0 <= i < |recs| ensures Used(w', recs[i]) && !SameNumber(recs[i], rec) {
        assert Used(w, recs[i]);
      }
    }
  }

  lemma RecordTakesFreshNumber(w: Writer, rtype: nat, plain: Bytes, maxOut: nat, previous: bool, recs: seq<Sent>)
    requires (previous ==> w.epoch >= 1) && NumbersOk(w, recs)
    ensures var (w', rec) := w.SealRecord(rtype, plain, maxOut, previous);
            NumbersOk(w', recs) && (rec.Some? ==> NumbersOk(w', recs + [rec.value]))
  {
    hide NumbersOk, Writer.Counted;
    var (w', rec) := w.SealRecord(rtype, plain, maxOut, previous);
    var (e, s) := if previous then (w.epoch - 1, w.lastWriteSeq) else (w.epoch, w.writeSeq);
    SameCounters(w, w.(attempts := w.attempts + 1), recs);
    CountedIsFresh(w, previous, recs, if rec.Some? then rec.value else Sent(rtype, e, s, plain, 0, w.aead));
  }

  lemma MessageTakesFreshNumber(w: Writer, maxOut: nat, recs: seq<Sent>)
    requires w.cursor.written < |w.flight| && NumbersOk(w, recs)
    ensures var (w', r) := w.SealNextMessage(maxOut);
            NumbersOk(w', recs) && (r.Sealed? || r.Partial? ==> NumbersOk(w', recs + [r.rec]))
  {
    hide Writer.SealRecord, FragmentBytes, ParseFragment, NumbersOk;
    var msg := w.flight[w.cursor.written];
    var previous := w.epoch >= 1 && msg.epoch == w.epoch - 1;
    forall rtype, plain
      ensures var (w', rec) := w.SealRecord(rtype, plain, maxOut, previous);
              NumbersOk(w', recs) && (rec.Some? ==> NumbersOk(w', recs + [rec.value]))
    {
      RecordTakesFreshNumber(w, rtype, plain, maxOut, previous, recs);
    }
    forall v: Writer, c: Cursor, rs | NumbersOk(v, rs) ensures NumbersOk(v.(cursor := c), rs) {
      CursorIsNoNumber(v, c, rs);
    }
  }

  lemma CursorIsNoNumber(v: Writer, c: Cursor, recs: seq<Sent>)
    requires NumbersOk(v, recs)
    ensures NumbersOk(v.(cursor := c), recs)
  {
    forall i | !v.wrapped && 0 <= i < |recs| ensures Used(v.(cursor := c), recs[i]) {
      assert Used(v, recs[i]);
    }
  }

  lemma {:induction false} MoreTakesFreshNumbers(w: Writer, maxOut: nat, packet: Packet, before: seq<Sent>)
    requires NumbersOk(w, before) && NumbersOk(w, before + packet)
    ensures var (w', p) := w.SealMore(maxOut, packet);
            NumbersOk(w', before) && (p.Some? ==> NumbersOk(w', before + p.value))
    decreases |w.flight| - w.cursor.written
  {
    hide Writer.SealNextMessage, NumbersOk;
    if w.cursor.written >= |w.flight| {
    } else {
      MessageTakesFreshNumber(w, maxOut, before);
      MessageTakesFreshNumber(w, maxOut, before + packet);
      var (v, r) := w.SealNextMessage(maxOut);
      match r
      case SealError =>
        SameCounters(v, v.(lost := v.lost || packet != []), before);
      case NoProgress =>
      case Partial(rec) =>
        assert before + packet + [rec] == before + (packet + [rec]);
      case Sealed(rec) =>
        assert before + packet + [rec] == before + (packet + [rec]);
        SameCounters(v, v.Past(), before);
        SameCounters(v, v.Past(), before + (packet + [rec]));
        MoreTakesFreshNumbers(v.Past(), if rec.size <= maxOut then maxOut - rec.size else 0, packet + [rec], before);
    }
  }

  /** Retries after failed writes and previous-epoch records included, a flight never reuses a record number. */
  lemma {:induction false} SendTakesFreshNumbers(w: Writer, budget: nat, flushOk: bool)
    requires w.CursorOk() && NumbersOk(w, Records(w.sent))
    ensures var (w', r) := w.SendPackets(budget, flushOk);
            NumbersOk(w', Records(w'.sent))
    decreases |w.flight| - w.cursor.written, U24 - w.cursor.offset
  {
    hide Writer.SealMore, Writer.SealNextMessage, NumbersOk;
    if w.cursor.written >= |w.flight| {
    } else {
      PacketMovesCursor(w, w.mtu);
      PacketTakesFreshNumbers(w, w.mtu);
      var (v, r) := w.SealNextPacket(w.mtu);
      if r.Full? && budget > 0 {
        SendTakesFreshNumbers(v.Wrote(r.packet), budget - 1, flushOk);
      } else if r.Full? {
        SameCounters(v, v.(cursor := w.cursor), Records(w.sent));
      }
    }
  }

  lemma PacketTakesFreshNumbers(w: Writer, maxOut: nat)
    requires w.CursorOk() && NumbersOk(w, Records(w.sent))
    ensures var (w', r) := w.SealNextPacket(maxOut);
            && NumbersOk(w', Records(w.sent))
            && (r.Full? ==> NumbersOk(w'.Wrote(r.packet), Records(w.sent + [r.packet])))
  {
    hide Writer.SealNextMessage, NumbersOk;
    assert Records(w.sent) + [] == Records(w.sent);
    MoreTakesFreshNumbers(w, maxOut, [], Records(w.sent));
    var (v, r) := w.SealNextPacket(maxOut);
    assert v == w.SealMore(maxOut, []).0;
    if r.Full? {
      assert (w.sent + [r.packet])[..|w.sent + [r.packet]| - 1] == w.sent;
      SameCounters(v, v.Wrote(r.packet), Records(w.sent) + r.packet);
    }
  }
}
