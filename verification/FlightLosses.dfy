/** The other half of FlightTiling: once a sealing error has dropped sealed records, what is written stays behind the
    cursor until it is rewound. */
module FlightLosses {
  import opened Wrappers
  import opened DtlsWire
  import opened DtlsWriter
  import opened FlightTiling

  /** At some point of `recs` the next record is not what is due, though something is. */
  predicate Astray(flight: seq<OutMsg>, recs: seq<Sent>)
    requires FlightOk(flight)
  {
    recs != [] &&
    var front := recs[..|recs| - 1];
    || Astray(flight, front)
    || (Follow(flight, front).Some? && Follow(flight, front).value.written < |flight|
        && Due(flight, Follow(flight, front).value, recs[|recs| - 1]).None?)
  }

  /** The records do not reach the cursor. */
  predicate Behind(flight: seq<OutMsg>, recs: seq<Sent>, c: Cursor)
    requires FlightOk(flight)
  {
    Astray(flight, recs) || (Follow(flight, recs).Some? && Later(Follow(flight, recs).value, c))
  }

  lemma {:induction false} BehindMeans(flight: seq<OutMsg>, recs: seq<Sent>)
    requires FlightOk(flight)
    ensures Astray(flight, recs) ==> Follow(flight, recs).None?
    ensures Follow(flight, recs).Some? ==> InRange(flight, Follow(flight, recs).value)
    decreases |recs|
  {
    if recs == [] {
    } else {
      var front := recs[..|recs| - 1];
      BehindMeans(flight, front);
      if Follow(flight, front).Some? {
        DueInRange(flight, Follow(flight, front).value, recs[|recs| - 1]);
      }
    }
  }

  lemma DueInRange(flight: seq<OutMsg>, c: Cursor, rec: Sent)
    requires FlightOk(flight) && InRange(flight, c)
    ensures Due(flight, c, rec).Some? ==> InRange(flight, Due(flight, c, rec).value)
  {
    hide ParseFragment;
  }

  /** A record that is due at two places is the same fragment of two equal messages, or a ChangeCipherSpec, and it
      moves both places on without closing the gap. */
  lemma DueKeepsOrder(flight: seq<OutMsg>, c: Cursor, d: Cursor, rec: Sent)
    requires FlightOk(flight) && InRange(flight, c) && InRange(flight, d) && Later(c, d)
    requires Due(flight, d, rec).Some? && Due(flight, c, rec).Some?
    ensures Later(Due(flight, c, rec).value, Due(flight, d, rec).value)
  {
    hide ParseFragment, WellFormed;
  }

  lemma BehindOne(flight: seq<OutMsg>, recs: seq<Sent>, c: Cursor, rec: Sent)
    requires FlightOk(flight) && Behind(flight, recs, c) && InRange(flight, c) && Due(flight, c, rec).Some?
    ensures Behind(flight, recs + [rec], Due(flight, c, rec).value)
  {
    hide Due, Follow;
    var longer := recs + [rec];
    assert longer[..|longer| - 1] == recs && longer[|longer| - 1] == rec;
    if !Astray(flight, recs) {
      var b := Follow(flight, recs).value;
      BehindMeans(flight, recs);
      FollowOne(flight, recs, rec);
      assert c.written < |flight| by { DueBeforeEnd(flight, c, rec); }
      if Due(flight, b, rec).Some? {
        DueKeepsOrder(flight, b, c, rec);
      }
    }
  }

  lemma DueBeforeEnd(flight: seq<OutMsg>, c: Cursor, rec: Sent)
    requires FlightOk(flight) && Due(flight, c, rec).Some?
    ensures c.written < |flight|
  {
  }

  /** Records that do not reach the cursor before a packet do not reach it after. */
  lemma {:induction false} MoreKeepsBehind(w: Writer, maxOut: nat, packet: Packet, before: seq<Sent>)
    requires w.CursorOk() && FlightOk(w.flight) && Behind(w.flight, before, w.cursor)
    ensures var w' := w.SealMore(maxOut, packet).0;
            w'.flight == w.flight && Behind(w.flight, before, w'.cursor)
    decreases |w.flight| - w.cursor.written
  {
    hide Writer.SealNextMessage, Follow, Astray;
    if w.cursor.written >= |w.flight| {
    } else {
      SealMovesCursor(w, maxOut);
      var (v, r) := w.SealNextMessage(maxOut);
      if r.Sealed? {
        MoreKeepsBehind(v.Past(), if r.rec.size <= maxOut then maxOut - r.rec.size else 0, packet + [r.rec], before);
      }
    }
  }

  lemma {:induction false} MoreStaysBehind(w: Writer, maxOut: nat, packet: Packet, before: seq<Sent>)
    requires w.CursorOk() && FlightOk(w.flight) && InRange(w.flight, w.cursor)
    requires Behind(w.flight, before + packet, w.cursor)
    ensures var (w', p) := w.SealMore(maxOut, packet);
            w'.flight == w.flight && (p.Some? ==> Behind(w.flight, before + p.value, w'.cursor))
    decreases |w.flight| - w.cursor.written
  {
    hide Writer.SealNextMessage, Due, Follow, Astray;
    if w.cursor.written >= |w.flight| {
    } else {
      SealMovesCursor(w, maxOut);
      SealedIsDue(w, maxOut);
      var (v, r) := w.SealNextMessage(maxOut);
      if r.Sealed? || r.Partial? {
        BehindOne(w.flight, before + packet, w.cursor, r.rec);
        assert before + packet + [r.rec] == before + (packet + [r.rec]);
      }
      if r.Sealed? {
        MoreStaysBehind(v.Past(), if r.rec.size <= maxOut then maxOut - r.rec.size else 0, packet + [r.rec], before);
      }
    }
  }

  /** The records written in this pass tile the flight up to the cursor, or, if some were lost, do not reach it. */
  ghost predicate Accounted(w: Writer) {
    && FlightOk(w.flight) && InRange(w.flight, w.cursor)
    && if w.lost then Behind(w.flight, Records(w.pass), w.cursor) else Tiling(w, Records(w.pass))
  }

  lemma AccountedMeans(w: Writer)
    requires Accounted(w)
    ensures Follow(w.flight, Records(w.pass)) == Some(w.cursor) <==> !w.lost
  {
    hide Due;
    BehindMeans(w.flight, Records(w.pass));
  }

  lemma PacketAccounted(w: Writer, maxOut: nat)
    requires w.CursorOk() && Accounted(w)
    ensures var (w', r) := w.SealNextPacket(maxOut);
            && InRange(w.flight, w'.cursor)
            && (r.PacketError? ==> Accounted(w'))
            && (r.Full? ==> Accounted(w'.Wrote(r.packet)))
  {
    hide Writer.SealNextMessage, Due, Follow, Astray;
    PacketMovesCursor(w, maxOut);
    var (v, r) := w.SealNextPacket(maxOut);
    assert v == w.SealMore(maxOut, []).0;
    MoreInRange(w, maxOut, []);
    if w.lost {
      LostPacket(w, maxOut);
    } else {
      PacketTiles(w, maxOut);
      if v.lost { DroppedPacket(w, maxOut); }
    }
  }

  lemma {:induction false} MoreInRange(w: Writer, maxOut: nat, packet: Packet)
    requires w.CursorOk() && FlightOk(w.flight) && InRange(w.flight, w.cursor)
    ensures InRange(w.flight, w.SealMore(maxOut, packet).0.cursor)
    decreases |w.flight| - w.cursor.written
  {
    hide Writer.SealNextMessage, Due;
    if w.cursor.written >= |w.flight| {
    } else {
      SealMovesCursor(w, maxOut);
      SealedIsDue(w, maxOut);
      var (v, r) := w.SealNextMessage(maxOut);
      if r.Sealed? {
        MoreInRange(v.Past(), if r.rec.size <= maxOut then maxOut - r.rec.size else 0, packet + [r.rec]);
      }
    }
  }

  lemma LostPacket(w: Writer, maxOut: nat)
    requires w.CursorOk() && Accounted(w) && w.lost
    ensures var (w', r) := w.SealNextPacket(maxOut);
            && Behind(w.flight, Records(w.pass), w'.cursor)
            && (r.Full? ==> Behind(w.flight, Records(w.pass + [r.packet]), w'.cursor))
  {
    hide Writer.SealNextMessage, Due, Follow, Astray;
    var before := Records(w.pass);
    assert before + [] == before;
    MoreKeepsBehind(w, maxOut, [], before);
    MoreStaysBehind(w, maxOut, [], before);
    var (v, r) := w.SealNextPacket(maxOut);
    assert v == w.SealMore(maxOut, []).0;
    if r.Full? {
      assert (w.pass + [r.packet])[..|w.pass + [r.packet]| - 1] == w.pass;
    }
  }

  /** The packet that is dropped with an error leaves the cursor ahead of what was written. */
  lemma DroppedPacket(w: Writer, maxOut: nat)
    requires w.CursorOk() && Accounted(w) && !w.lost && w.SealNextPacket(maxOut).0.lost
    ensures Behind(w.flight, Records(w.pass), w.SealNextPacket(maxOut).0.cursor)
  {
    hide Writer.SealNextMessage, Due, Follow, Astray;
    assert w.SealNextPacket(maxOut).0 == w.SealMore(maxOut, []).0;
    SealMovesCursor(w, maxOut);
    var (v, r) := w.SealNextMessage(maxOut);
    if r.Sealed? {
      var room := if r.rec.size <= maxOut then maxOut - r.rec.size else 0;
      assert Later(w.cursor, v.Past().cursor);
      MoreKeepsBehind(v.Past(), room, [] + [r.rec], Records(w.pass));
    }
  }

  /** Whatever the MTU, and wherever a write or a sealing fails, send_flight keeps the account. */
  lemma {:induction false} SendAccounted(w: Writer, budget: nat, flushOk: bool)
    requires w.CursorOk() && Accounted(w)
    ensures Accounted(w.SendPackets(budget, flushOk).0)
    decreases |w.flight| - w.cursor.written, U24 - w.cursor.offset
  {
    hide Writer.SealMore, Writer.SealNextMessage, Accounted, InRange, Behind;
    if w.cursor.written >= |w.flight| {
    } else {
      PacketMovesCursor(w, w.mtu);
      PacketAccounted(w, w.mtu);
      var (v, r) := w.SealNextPacket(w.mtu);
      if r.Full? && budget > 0 {
        SendAccounted(v.Wrote(r.packet), budget - 1, flushOk);
      } else if r.Full? {
        SameAccount(w, v.(cursor := w.cursor));
      }
    }
  }

  lemma SameAccount(w: Writer, w': Writer)
    requires Accounted(w) && w'.flight == w.flight && w'.cursor == w.cursor && w'.pass == w.pass && w'.lost == w.lost
    ensures Accounted(w')
  {
  }

  /** A message that joins the flight changes nothing about the records before it. */
  lemma {:induction false} LongerFlight(flight: seq<OutMsg>, m: OutMsg, recs: seq<Sent>)
    requires FlightOk(flight) && WellFormed(m)
    ensures FlightOk(flight + [m])
    ensures Follow(flight, recs).Some? ==> Follow(flight + [m], recs) == Follow(flight, recs)
    ensures Astray(flight, recs) ==> Astray(flight + [m], recs)
    decreases |recs|
  {
    hide ParseFragment, FragmentOf, IsPart, WellFormed;
    if recs == [] {
    } else {
      LongerFlight(flight, m, recs[..|recs| - 1]);
    }
  }

  lemma JoinKeepsAccount(w: Writer, m: OutMsg)
    requires Accounted(w) && WellFormed(m)
    ensures Accounted(w.(flight := w.flight + [m]))
  {
    hide WellFormed, Follow, Astray;
    LongerFlight(w.flight, m, Records(w.pass));
  }
}
