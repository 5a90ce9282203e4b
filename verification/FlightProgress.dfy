/** A flight goes out: with a cipher that works and room for a byte, nothing but the BIO keeps send_flight from the end
    of the flight. */
module FlightProgress {
  import opened Octets
  import opened Wrappers
  import opened DtlsWire
  import opened DtlsWriter
  import opened FlightTiling
  import opened RecordNumbers
  import opened WriterRuns
  import opened FlightEpochs

  /** An AEAD that seals whatever has room. */
  ghost predicate Works(a: Aead) {
    && a.Meets()
    && forall attempt, rtype, number, plain, room :: |plain| + a.maxOverhead <= room ==>
         a.seal(attempt, rtype, number, plain, room).Some?
  }

  /** Both ciphers work, the messages belong to the current write epoch or the one before, and a datagram, of no more
      than 64 kB, has room for a header and a byte under either cipher. */
  ghost predicate Sendable(w: Writer) {
    && Works(w.aead) && Works(w.lastAead)
    && (forall i :: 0 <= i < |w.flight| ==> OfThisEpoch(w, w.flight[i]))
    && HM_HEADER + 1 + w.Overhead(false) <= w.mtu <= U16 && HM_HEADER + 1 + w.Overhead(true) <= w.mtu
  }

  predicate OfThisEpoch(w: Writer, m: OutMsg) {
    m.epoch == w.epoch || (w.epoch >= 1 && m.epoch == w.epoch - 1)
  }

  lemma RecordIsSealed(w: Writer, rtype: nat, plain: Bytes, maxOut: nat, previous: bool)
    requires (previous ==> w.epoch >= 1) && Works(if previous then w.lastAead else w.aead)
    requires |plain| + w.Overhead(previous) <= maxOut <= U16
    ensures var (w', rec) := w.SealRecord(rtype, plain, maxOut, previous); rec.Some? || w'.wrapped
  {
  }

  lemma FragmentIsSealed(w: Writer, whole: Fragment, maxOut: nat, previous: bool)
    requires (previous ==> w.epoch >= 1) && Works(if previous then w.lastAead else w.aead)
    requires whole.Fits() && w.cursor.offset <= |whole.body| && maxOut <= U16
    ensures var (w', r) := w.SealFragment(whole, maxOut, previous); r.SealError? ==> w'.wrapped
  {
    hide Works, Writer.SealRecord, FragmentBytes;
    if maxOut >= HM_HEADER + 1 + w.Overhead(previous) {
      var todo := w.Todo(|whole.body| - w.cursor.offset, maxOut, previous);
      var plain := FragmentBytes(w.Part(whole, todo));
      assert |plain| == HM_HEADER + todo by { FragmentLength(w.Part(whole, todo)); }
      assert w.Prefix(previous) <= w.Overhead(previous) by { WorksMeets(if previous then w.lastAead else w.aead); }
      RecordIsSealed(w, RT_HANDSHAKE, plain, maxOut, previous);
    }
  }

  lemma FragmentLength(f: Fragment)
    requires f.Fits()
    ensures |FragmentBytes(f)| == HM_HEADER + |f.body|
  {
  }

  lemma WorksMeets(a: Aead)
    requires Works(a)
    ensures a.Meets() && a.nonceLen <= a.maxOverhead
  {
  }

  lemma MessageIsSealed(w: Writer, maxOut: nat)
    requires Sendable(w) && FlightOk(w.flight) && InRange(w.flight, w.cursor) && w.cursor.written < |w.flight|
    requires maxOut <= U16
    ensures var (w', r) := w.SealNextMessage(maxOut); r.SealError? ==> w'.wrapped
  {
    hide Works, Writer.SealRecord, Writer.SealFragment, ParseFragment;
    var msg := w.flight[w.cursor.written];
    assert OfThisEpoch(w, msg) && WellFormed(msg);
    var previous := w.epoch >= 1 && msg.epoch == w.epoch - 1;
    if msg.isCcs {
      if maxOut >= 1 + w.Overhead(previous) {
        RecordIsSealed(w, RT_CHANGE_CIPHER_SPEC, CCS, maxOut, previous);
      }
    } else {
      FragmentIsSealed(w, Whole(msg), maxOut, previous);
    }
  }

  lemma SendableStays(w: Writer, w': Writer)
    requires Sendable(w) && SameButCounters(w, w')
    ensures Sendable(w')
  {
    hide Works;
  }

  lemma {:induction false} MoreIsSealed(w: Writer, maxOut: nat, packet: Packet)
    requires Sendable(w) && w.CursorOk() && FlightOk(w.flight) && InRange(w.flight, w.cursor) && maxOut <= U16
    ensures var (w', p) := w.SealMore(maxOut, packet);
            if p.Some? then InRange(w.flight, w'.cursor) else w'.wrapped
    decreases |w.flight| - w.cursor.written
  {
    hide Writer.SealNextMessage, Sendable, FlightOk, Due;
    if w.cursor.written >= |w.flight| {
    } else {
      SealMovesCursor(w, maxOut);
      MessageIsSealed(w, maxOut);
      SealedIsDue(w, maxOut);
      var (v, r) := w.SealNextMessage(maxOut);
      if r.Sealed? {
        SendableStays(w, v.Past());
        MoreIsSealed(v.Past(), if r.rec.size <= maxOut then maxOut - r.rec.size else 0, packet + [r.rec]);
      }
    }
  }

  /** send_flight reaches the end of the flight if the BIO takes enough datagrams, and then does what the flush does;
      unless a record number wraps. */
  lemma {:induction false} SendReachesEnd(w: Writer) returns (enough: nat)
    requires Sendable(w) && w.CursorOk() && FlightOk(w.flight) && InRange(w.flight, w.cursor)
    ensures forall budget: nat, flushOk :: budget >= enough ==> Reaches(w, budget, flushOk)
    decreases |w.flight| - w.cursor.written, U24 - w.cursor.offset
  {
    hide Writer.SealMore, Sendable, FlightOk, Writer.SendPackets, Reaches;
    enough := 0;
    if w.cursor.written >= |w.flight| {
      forall budget: nat, flushOk ensures Reaches(w, budget, flushOk) { AtTheEnd(w, budget, flushOk); }
    } else {
      PacketMovesCursor(w, w.mtu);
      RoomForOne(w);
      PacketFindsRoom(w);
      var none: Packet := [];
      MoreIsSealed(w, w.mtu, none);
      assert w.SealNextPacket(w.mtu).0 == w.SealMore(w.mtu, none).0;
      var (v, r) := w.SealNextPacket(w.mtu);
      if r.Full? {
        SendableStays(w, v);
        SendableWrote(v, r.packet);
        var more := SendReachesEnd(v.Wrote(r.packet));
        enough := more + 1;
        forall budget: nat, flushOk | budget >= enough ensures Reaches(w, budget, flushOk) {
          OnePacketThen(w, budget, flushOk);
        }
      } else {
        forall budget: nat, flushOk ensures Reaches(w, budget, flushOk) { NoPacket(w, budget, flushOk); }
      }
    }
  }

  ghost predicate Reaches(w: Writer, budget: nat, flushOk: bool)
    requires w.CursorOk()
  {
    var (w', r) := w.SendPackets(budget, flushOk);
    w'.wrapped || (r == (if flushOk then Flushed else FlushFailed) && w'.cursor.written == |w'.flight|)
  }

  lemma AtTheEnd(w: Writer, budget: nat, flushOk: bool)
    requires w.CursorOk() && w.cursor.written >= |w.flight|
    ensures Reaches(w, budget, flushOk)
  {
  }

  lemma OnePacketThen(w: Writer, budget: nat, flushOk: bool)
    requires w.CursorOk() && w.cursor.written < |w.flight| && budget > 0
    requires var (v, r) := w.SealNextPacket(w.mtu);
             r.Full? && v.CursorOk() && Reaches(v.Wrote(r.packet), budget - 1, flushOk)
    ensures Reaches(w, budget, flushOk)
  {
    hide Writer.SealMore, Writer.SealNextPacket;
  }

  lemma NoPacket(w: Writer, budget: nat, flushOk: bool)
    requires w.CursorOk() && w.cursor.written < |w.flight|
    requires var (v, r) := w.SealNextPacket(w.mtu); r.PacketError? && v.wrapped
    ensures Reaches(w, budget, flushOk)
  {
    hide Writer.SealMore, Writer.SealNextPacket;
  }

  lemma SendableWrote(v: Writer, packet: Packet)
    requires Sendable(v)
    ensures Sendable(v.Wrote(packet))
  {
    hide Works;
  }

  lemma RoomForOne(w: Writer)
    requires Sendable(w)
    ensures w.mtu <= U16 && AeadsMeet(w)
    ensures HM_HEADER + 1 + w.Overhead(false) <= w.mtu && HM_HEADER + 1 + w.Overhead(true) <= w.mtu
  {
  }

  lemma PacketFindsRoom(w: Writer)
    requires w.CursorOk() && AeadsMeet(w)
    requires HM_HEADER + 1 + w.Overhead(false) <= w.mtu && HM_HEADER + 1 + w.Overhead(true) <= w.mtu
    ensures w.cursor.written < |w.flight| ==> w.SealNextPacket(w.mtu).1 != MtuTooSmall
  {
    hide Writer.SealNextPacket;
    if w.cursor.written < |w.flight| {
      assert w.SealNextPacket(w.mtu).1 == MtuTooSmall ==> w.SendPackets(0, true).1 == TooSmall;
      SendFits(w, 0, true);
    }
  }

  ghost predicate GoesOut(end: (Writer, FlightResult)) {
    end.0.wrapped || (end.1 == Flushed && end.0.cursor.written == |end.0.flight|)
  }

  lemma PreparedIsSendable(w: Writer, query: Option<int>)
    requires Sendable(w.UpdateMtu(query))
    ensures Sendable(w.(complete := true).UpdateMtu(query)) && Sendable(w.Rewound().UpdateMtu(query))
  {
    hide Works;
  }

  lemma PreparedReachesEnd(w: Writer) returns (enough: nat)
    requires Inv(w) && Sendable(w)
    ensures w.CursorOk() && forall budget: nat :: budget >= enough ==> GoesOut(w.SendPackets(budget, true))
  {
    hide Inv, Sendable, Writer.SendPackets;
    InvNumbers(w);
    enough := SendReachesEnd(w);
    forall budget: nat | budget >= enough ensures GoesOut(w.SendPackets(budget, true)) {
      assert Reaches(w, budget, true);
    }
  }

  /** In every state of every run: if the ciphers work and the flight is of this epoch or the last, a flush or a
      retransmission succeeds once the BIO takes enough datagrams and is flushed, and the whole flight is behind the
      cursor; unless a record number wraps. */
  lemma FlightGoesOut(w: Writer, query: Option<int>) returns (enough: nat)
    requires Inv(w) && Sendable(w.UpdateMtu(query))
    ensures w.CursorOk()
    ensures forall budget: nat :: budget >= enough ==>
              GoesOut(w.FlushFlight(query, budget, true)) && GoesOut(w.Retransmit(query, budget, true))
  {
    hide Inv, Sendable, Writer.SendPackets, Writer.UpdateMtu, GoesOut;
    InvNumbers(w);
    PreparedKeepsInv(w, query);
    PreparedIsSendable(w, query);
    var m := PreparedReachesEnd(w.(complete := true).UpdateMtu(query));
    var n := PreparedReachesEnd(w.Rewound().UpdateMtu(query));
    enough := if m >= n then m else n;
  }

  /** Outside the flight, too: a record of allowed length is written if the cipher works and the BIO takes it. */
  lemma RecordGoesOut(w: Writer, rtype: nat, plain: Bytes)
    requires Works(w.aead) && |plain| <= MAX_PLAIN && |plain| + w.Overhead(false) <= U16
    ensures var (w', ok) := w.WriteRecord(rtype, plain, true);
            w'.wrapped || (ok && |w'.sent| == |w.sent| + 1)
  {
    hide Works, Writer.SealRecord;
    RecordIsSealed(w, rtype, plain, |plain| + w.Overhead(false), false);
    RecordKeepsCursor(w, rtype, plain, |plain| + w.Overhead(false), false);
  }
}
