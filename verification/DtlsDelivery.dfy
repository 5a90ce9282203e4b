/** A flight that was written whole, and whose records all arrive, is reassembled whole. */
module DtlsDelivery {
  import opened Octets
  import opened Wrappers
  import opened DtlsWire
  import opened ReplayWindow
  import opened Reassembly
  import opened DtlsWriter
  import opened FlightLosses
  import opened FlightTiling
  import opened RecordNumbers
  import opened WriterRuns
  import opened DtlsReader
  import opened DtlsSystem

  // The receiver, record after record.

  /** dtls1_open_handshake on one record after the other. */
  ghost function Fed(r: Reader, ds: seq<Record>, maxLen: nat): (r': Reader)
    requires |r.slots| == FLIGHT
    ensures |r'.slots| == FLIGHT
  {
    if ds == [] then r else Fed(r, ds[..|ds| - 1], maxLen).OpenHandshake(ds[|ds| - 1], maxLen).0
  }

  /** Message n is buffered, with these bytes of its body. */
  ghost predicate Holds(r: Reader, n: nat, off: nat, len: nat)
    requires |r.slots| == FLIGHT
  {
    Buffered(r, n) && forall i: nat :: off <= i < off + len ==> i in r.slots[n % FLIGHT].value.got
  }

  /** The receiver takes fragments of message n: in epoch 1 only those of the current message. */
  predicate Expects(r: Reader, n: nat) {
    r.readSeq <= n < r.readSeq + FLIGHT && (r.epoch == 1 ==> n == r.readSeq)
  }

  lemma FragmentIsHeld(t: seq<Message>, r: Reader, log: seq<Entry>, f: Fragment, maxLen: nat,
                       k: nat, off: nat, len: nat)
    requires ReaderInv(t, r, log) && Part(t, f, k, off, len) && Expects(r, k) && |t[k].body| <= maxLen
    ensures r.OpenFragment(f, maxLen).Some? && Holds(r.OpenFragment(f, maxLen).value, k, off, len)
  {
    hide Reader.Valid, Covered, OneEpoch;
    var h := f.header;
    if r.slots[k % FLIGHT].Some? {
      FragmentFoundIsItsMessage(r, h);
      assert SlotInv(t, r.epoch, log, r.slots[k % FLIGHT].value);
    }
    var frag := r.GetIncoming(h).value;
    var frag' := frag.Accept(off, f.body);
    assert forall i: nat :: off <= i < off + len ==> i in frag'.got;
    AcceptKeepsNumber(frag, off, f.body);
  }

  /** Whatever comes, what is held stays held. */
  lemma FragmentKeepsHeld(r: Reader, f: Fragment, maxLen: nat, n: nat, off: nat, len: nat)
    requires r.Valid() && Holds(r, n, off, len) && r.OpenFragment(f, maxLen).Some?
    ensures Holds(r.OpenFragment(f, maxLen).value, n, off, len)
  {
    hide Frag.Complete;
    BufferedNumber(r, n);
    var h := f.header;
    if r.readSeq <= h.seqNo < r.readSeq + FLIGHT && h.seqNo % FLIGHT == n % FLIGHT {
      SameResidue(r.readSeq, h.seqNo, n);
    }
  }

  lemma {:induction false} FragmentsKeepHeld(r: Reader, plain: Bytes, maxLen: nat, n: nat, off: nat, len: nat)
    requires |r.slots| == FLIGHT && r.Valid() && Holds(r, n, off, len)
    ensures Holds(r.OpenFragments(plain, maxLen).0, n, off, len)
    decreases |plain|
  {
    hide ParseFragment, Reader.Valid, Reader.OpenFragment, Holds;
    if plain == [] || ParseFragment(plain).None? {
    } else {
      var (f, rest) := ParseFragment(plain).value;
      if r.OpenFragment(f, maxLen).Some? {
        FragmentKeepsHeld(r, f, maxLen, n, off, len);
        OpenFragmentValid(r, f, maxLen);
        FragmentsKeepHeld(r.OpenFragment(f, maxLen).value, rest, maxLen, n, off, len);
      }
    }
  }

  lemma RecordKeepsHeld(r: Reader, rec: Record, maxLen: nat, n: nat, off: nat, len: nat)
    requires r.Valid() && Holds(r, n, off, len) && rec.Fits()
    ensures Holds(r.OpenHandshake(rec, maxLen).0, n, off, len)
  {
    hide Reader.Valid, Reader.OpenFragments;
    OpenRecordValid(r, rec);
    FragmentsKeepHeld(r.OpenRecord(rec).0, rec.plain, maxLen, n, off, len);
  }

  lemma {:induction false} FedIsValid(r: Reader, ds: seq<Record>, maxLen: nat)
    requires |r.slots| == FLIGHT && r.Valid() && forall i :: 0 <= i < |ds| ==> ds[i].Fits()
    ensures Fed(r, ds, maxLen).Valid()
  {
    hide Reader.Valid, Reader.OpenHandshake;
    if ds == [] {
    } else {
      FedIsValid(r, ds[..|ds| - 1], maxLen);
      OpenHandshakeValid(Fed(r, ds[..|ds| - 1], maxLen), ds[|ds| - 1], maxLen);
    }
  }

  lemma {:induction false} HeldToTheEnd(r: Reader, ds: seq<Record>, maxLen: nat, i: nat, n: nat, off: nat, len: nat)
    requires |r.slots| == FLIGHT && r.Valid() && (forall j :: 0 <= j < |ds| ==> ds[j].Fits()) && i <= |ds|
    requires Holds(Fed(r, ds[..i], maxLen), n, off, len)
    ensures Holds(Fed(r, ds, maxLen), n, off, len)
  {
    hide Reader.Valid, Reader.OpenHandshake, Holds;
    if i == |ds| {
      assert ds[..i] == ds;
    } else {
      var front := ds[..|ds| - 1];
      assert front[..i] == ds[..i];
      HeldToTheEnd(r, front, maxLen, i, n, off, len);
      FedIsValid(r, front, maxLen);
      RecordKeepsHeld(Fed(r, front, maxLen), ds[|ds| - 1], maxLen, n, off, len);
    }
  }

  /** The record says what the sender sealed, and opens. */
  predicate Intact(rec: Record, sent: Sent) {
    rec.opens && rec.rtype == sent.rtype && rec.epoch == sent.epoch && rec.seqNo == sent.seqNo
    && rec.plain == sent.plain
  }

  /** A record that holds a part of an expected message, and that the window lets through, does its work. */
  lemma RecordIsHeld(t: seq<Message>, r: Reader, log: seq<Entry>, rec: Record, maxLen: nat,
                     f: Fragment, k: nat, off: nat, len: nat)
    requires ReaderInv(t, r, log) && rec.Fits() && rec.opens && rec.rtype == RT_HANDSHAKE && rec.epoch == r.epoch
    requires !Refused(r.seen, rec.Number()) && |rec.plain| <= MAX_PLAIN
    requires ParseFragment(rec.plain) == Some((f, [])) && Part(t, f, k, off, len)
    requires Expects(r, k) && |t[k].body| <= maxLen
    ensures var (r', outcome) := r.OpenHandshake(rec, maxLen);
            outcome == Success && Holds(r', k, off, len) && r'.seen == r.seen + {rec.Number()}
            && r'.epoch == r.epoch && r'.readSeq == r.readSeq
  {
    hide Reader.Valid, SlotInv, OneEpoch, Buffered, Reader.OpenFragment, ParseFragment, Refused;
    OpenRecordKeepsInv(t, r, log, rec);
    var after := r.OpenRecord(rec).0;
    FragmentIsHeld(t, after, log, f, maxLen, k, off, len);
    OneFragmentRecord(after, f, rec.plain, maxLen);
    HandshakeKeepsCounters(r, rec, maxLen);
  }

  lemma {:induction false} FedKeepsInv(t: seq<Message>, r: Reader, log: seq<Entry>, ds: seq<Record>, maxLen: nat)
    returns (log': seq<Entry>)
    requires ReaderInv(t, r, log)
    requires forall i :: 0 <= i < |ds| ==> ds[i].Fits() && (ds[i].opens ==> HonestRecord(t, ds[i]))
    ensures ReaderInv(t, Fed(r, ds, maxLen), log')
  {
    hide ReaderInv, HonestRecord, Reader.OpenHandshake, TakenFrom;
    if ds == [] {
      log' := log;
    } else {
      var front := ds[..|ds| - 1];
      var before := FedKeepsInv(t, r, log, front, maxLen);
      HandshakeKeepsInv(t, Fed(r, front, maxLen), before, ds[|ds| - 1], maxLen);
      log' := before + TakenFrom(Fed(r, front, maxLen), ds[|ds| - 1], maxLen);
    }
  }

  lemma {:induction false} FedKeepsPlace(r: Reader, ds: seq<Record>, maxLen: nat)
    requires |r.slots| == FLIGHT
    ensures var r' := Fed(r, ds, maxLen); r'.epoch == r.epoch && r'.readSeq == r.readSeq
  {
    hide Reader.OpenHandshake;
    if ds == [] {
    } else {
      FedKeepsPlace(r, ds[..|ds| - 1], maxLen);
      HandshakeKeepsCounters(Fed(r, ds[..|ds| - 1], maxLen), ds[|ds| - 1], maxLen);
    }
  }

  // What carries a message.

  /** Record j, when its turn comes in the flight, is the next part of message k. */
  ghost predicate PartOf(flight: seq<OutMsg>, recs: seq<Sent>, j: nat, k: nat)
    requires FlightOk(flight)
  {
    && j < |recs| && Follow(flight, recs[..j]).Some?
    && var c := Follow(flight, recs[..j]).value;
       c.written == k && Due(flight, c, recs[j]).Some?
  }

  lemma {:induction false} FollowPrefix(flight: seq<OutMsg>, recs: seq<Sent>, j: nat)
    requires FlightOk(flight) && Follow(flight, recs).Some? && j <= |recs|
    ensures Follow(flight, recs[..j]).Some?
    ensures j < |recs| ==> Due(flight, Follow(flight, recs[..j]).value, recs[j]).Some?
    decreases |recs|
  {
    hide Due;
    if j == |recs| {
      assert recs[..j] == recs;
    } else {
      var front := recs[..|recs| - 1];
      assert front[..j] == recs[..j];
      FollowPrefix(flight, front, j);
    }
  }

  /** A message before the cursor has at least one record, even when its body is empty. */
  lemma {:induction false} MessageHasRecord(flight: seq<OutMsg>, recs: seq<Sent>, k: nat) returns (j: nat)
    requires FlightOk(flight) && Follow(flight, recs).Some? && k < Follow(flight, recs).value.written
    ensures PartOf(flight, recs, j, k)
    decreases |recs|
  {
    var n := |recs| - 1;
    var c := Follow(flight, recs[..n]).value;
    DueStaysOrSteps(flight, c, recs[n]);
    if k < c.written {
      j := MessageHasRecord(flight, recs[..n], k);
      assert recs[..n][..j] == recs[..j];
    } else {
      j := n;
    }
  }

  lemma DueStaysOrSteps(flight: seq<OutMsg>, c: Cursor, rec: Sent)
    requires FlightOk(flight) && Due(flight, c, rec).Some?
    ensures c.written <= Due(flight, c, rec).value.written <= c.written + 1
  {
    hide ParseFragment;
  }

  /** What a part of message k is: a fragment of its message in the transcript, in the message's epoch. */
  lemma PartIsSlice(t: seq<Message>, flight: seq<OutMsg>, recs: seq<Sent>, j: nat, k: nat, n: nat)
    requires FlightOk(flight) && PartOf(flight, recs, j, k) && !flight[k].isCcs
    requires |t| < U16 && n < |t| && IsMessage(t, flight[k], n)
    ensures recs[j].rtype == RT_HANDSHAKE && recs[j].epoch == flight[k].epoch && FragmentOf(recs[j]).Some?
    ensures var c := Follow(flight, recs[..j]).value;
            var f := FragmentOf(recs[j]).value;
            ParseFragment(recs[j].plain) == Some((f, [])) && Part(t, f, n, c.offset, |f.body|)
  {
    hide ParseFragment, FragmentBytes, Follow;
    MessageIsWhole(t, flight[k], n);
    var c := Follow(flight, recs[..j]).value;
    var f := FragmentOf(recs[j]).value;
    assert f == t[n].Slice(n, c.offset, |f.body|);
  }

  /** Every record of the message gets through: it arrives, intact, at a moment when the window does not refuse it. */
  ghost predicate GetsThrough(r: Reader, ds: seq<Record>, maxLen: nat, sent: Sent)
    requires |r.slots| == FLIGHT
  {
    exists i: nat :: ArrivesAt(r, ds, maxLen, sent, i)
  }

  ghost predicate ArrivesAt(r: Reader, ds: seq<Record>, maxLen: nat, sent: Sent, i: nat)
    requires |r.slots| == FLIGHT
  {
    i < |ds| && Intact(ds[i], sent) && !Refused(Fed(r, ds[..i], maxLen).seen, ds[i].Number())
  }

  lemma PartIsHeld(t: seq<Message>, r: Reader, log: seq<Entry>, ds: seq<Record>, maxLen: nat,
                   flight: seq<OutMsg>, recs: seq<Sent>, j: nat, k: nat, n: nat)
    requires ReaderInv(t, r, log) && FlightOk(flight) && PartOf(flight, recs, j, k) && !flight[k].isCcs
    requires forall i :: 0 <= i < |ds| ==> ds[i].Fits() && (ds[i].opens ==> HonestRecord(t, ds[i]))
    requires |t| < U16 && n < |t| && IsMessage(t, flight[k], n) && flight[k].epoch == r.epoch
    requires Expects(r, n) && |t[n].body| <= maxLen && |recs[j].plain| <= MAX_PLAIN
    requires GetsThrough(r, ds, maxLen, recs[j])
    ensures FragmentOf(recs[j]).Some?
    ensures Holds(Fed(r, ds, maxLen), n, Follow(flight, recs[..j]).value.offset, |FragmentOf(recs[j]).value.body|)
  {
    hide ReaderInv, HonestRecord, Refused, Due, Part, FragmentOf, ParseFragment, Holds, Follow, IsMessage,
         Reader.OpenHandshake;
    PartIsSlice(t, flight, recs, j, k, n);
    var off, f := Follow(flight, recs[..j]).value.offset, FragmentOf(recs[j]).value;
    var i: nat :| ArrivesAt(r, ds, maxLen, recs[j], i);
    var log' := FedKeepsInv(t, r, log, ds[..i], maxLen);
    FedKeepsPlace(r, ds[..i], maxLen);
    RecordIsHeld(t, Fed(r, ds[..i], maxLen), log', ds[i], maxLen, f, n, off, |f.body|);
    assert ds[..i + 1][..|ds[..i + 1]| - 1] == ds[..i];
    InvIsValid(t, r, log);
    HeldToTheEnd(r, ds, maxLen, i + 1, n, off, |f.body|);
  }

  lemma InvIsValid(t: seq<Message>, r: Reader, log: seq<Entry>)
    requires ReaderInv(t, r, log)
    ensures r.Valid()
  {
  }

  /** If every record of a message gets through, whatever else arrives in between, the message ends up complete in its
      slot. */
  lemma MessageArrives(t: seq<Message>, r: Reader, log: seq<Entry>, ds: seq<Record>, maxLen: nat,
                       flight: seq<OutMsg>, recs: seq<Sent>, k: nat, n: nat)
    requires ReaderInv(t, r, log) && FlightOk(flight) && k < |flight| && !flight[k].isCcs
    requires forall i :: 0 <= i < |ds| ==> ds[i].Fits() && (ds[i].opens ==> HonestRecord(t, ds[i]))
    requires Follow(flight, recs).Some? && k < Follow(flight, recs).value.written
    requires |t| < U16 && n < |t| && IsMessage(t, flight[k], n) && flight[k].epoch == r.epoch
    requires Expects(r, n) && |t[n].body| <= maxLen
    requires forall j: nat :: PartOf(flight, recs, j, k) ==>
               |recs[j].plain| <= MAX_PLAIN && GetsThrough(r, ds, maxLen, recs[j])
    ensures var r' := Fed(r, ds, maxLen);
            Buffered(r', n) && r'.slots[n % FLIGHT].value.Complete()
  {
    hide HonestRecord, GetsThrough, PartOf, Follow, Due, Carries, FragmentOf;
    MessageIsWhole(t, flight[k], n);
    var r' := Fed(r, ds, maxLen);
    var j := MessageHasRecord(flight, recs, k);
    PartIsHeld(t, r, log, ds, maxLen, flight, recs, j, k, n);
    var log' := FedKeepsInv(t, r, log, ds, maxLen);
    var frag := r'.slots[n % FLIGHT].value;
    assert SlotInv(t, r'.epoch, log', frag);
    forall i | 0 <= i < frag.msgLen ensures i in frag.got {
      ByteIsHeld(t, r, log, ds, maxLen, flight, recs, k, n, i);
    }
  }

  lemma ByteIsHeld(t: seq<Message>, r: Reader, log: seq<Entry>, ds: seq<Record>, maxLen: nat,
                   flight: seq<OutMsg>, recs: seq<Sent>, k: nat, n: nat, i: nat)
    requires ReaderInv(t, r, log) && FlightOk(flight) && k < |flight| && !flight[k].isCcs
    requires forall i :: 0 <= i < |ds| ==> ds[i].Fits() && (ds[i].opens ==> HonestRecord(t, ds[i]))
    requires Follow(flight, recs).Some? && k < Follow(flight, recs).value.written
    requires |t| < U16 && n < |t| && IsMessage(t, flight[k], n) && flight[k].epoch == r.epoch
    requires Expects(r, n) && |t[n].body| <= maxLen && i < |t[n].body|
    requires forall j: nat :: PartOf(flight, recs, j, k) ==>
               |recs[j].plain| <= MAX_PLAIN && GetsThrough(r, ds, maxLen, recs[j])
    ensures Buffered(Fed(r, ds, maxLen), n) && i in Fed(r, ds, maxLen).slots[n % FLIGHT].value.got
  {
    hide ReaderInv, HonestRecord, GetsThrough, Follow, Due, FragmentOf, Buffered, IsMessage;
    MessageIsWhole(t, flight[k], n);
    CarriedOnce(flight, recs, k, i);
    var j: nat :| Carries(flight, recs, j, k, i);
    FollowPrefix(flight, recs, j);
    assert PartOf(flight, recs, j, k);
    PartIsHeld(t, r, log, ds, maxLen, flight, recs, j, k, n);
  }

  // What the sender's side knows of a pass.

  /** The datagrams of the pass are among those the BIO took. */
  ghost predicate PassIsSent(w: Writer) {
    multiset(Records(w.pass)) <= multiset(Records(w.sent))
  }

  lemma RecordsOfOneMore(ps: seq<Packet>, p: Packet)
    ensures Records(ps + [p]) == Records(ps) + p
    ensures multiset(Records(ps + [p])) == multiset(Records(ps)) + multiset(p)
  {
    assert (ps + [p])[..|ps + [p]| - 1] == ps;
  }

  lemma {:induction false} SendKeepsPass(w: Writer, budget: nat, flushOk: bool)
    requires w.CursorOk() && PassIsSent(w)
    ensures PassIsSent(w.SendPackets(budget, flushOk).0)
    decreases |w.flight| - w.cursor.written, U24 - w.cursor.offset
  {
    hide Writer.SealNextPacket, Records;
    if w.cursor.written >= |w.flight| {
    } else {
      PacketMovesCursor(w, w.mtu);
      var (v, r) := w.SealNextPacket(w.mtu);
      if r.Full? && budget > 0 {
        RecordsOfOneMore(v.pass, r.packet);
        RecordsOfOneMore(v.sent, r.packet);
        SendKeepsPass(v.Wrote(r.packet), budget - 1, flushOk);
      }
    }
  }

  lemma DoKeepsPass(w: Writer, op: Op)
    requires w.CursorOk() && w.msgSeq < U16 && PassIsSent(w)
    ensures PassIsSent(Do(w, op))
  {
    hide Writer.SendPackets, Writer.FinishMessage, Writer.SealRecord;
    assert Records([]) == [];
    match op
    case Flush(query, budget, flushOk) => SendKeepsPass(w.(complete := true).UpdateMtu(query), budget, flushOk);
    case Retransmit(query, budget, flushOk) => SendKeepsPass(w.Rewound().UpdateMtu(query), budget, flushOk);
    case WriteAlert(plain, written) => RecordKeepsPass(w, RT_ALERT, plain, written);
    case WriteAppData(plain, written) => RecordKeepsPass(w, RT_APPLICATION_DATA, plain, written);
    case _ =>
  }

  lemma RecordKeepsPass(w: Writer, rtype: nat, plain: Bytes, written: bool)
    requires PassIsSent(w)
    ensures PassIsSent(w.WriteRecord(rtype, plain, written).0)
  {
    hide Writer.SealRecord, Records;
    var maxOut := |plain| + RECORD_HEADER + w.aead.maxOverhead;
    RecordKeepsCursor(w, rtype, plain, maxOut, false);
    var rec := w.SealRecord(rtype, plain, maxOut, false).1;
    if rec.Some? {
      RecordsOfOneMore(w.sent, [rec.value]);
    }
  }

  /** So it is in every run of the system. */
  lemma {:induction false} PassOfRun(s: Sys, actions: seq<Action>)
    requires SysInit(s) && DtlsSystem.Run(s, actions).Some?
    ensures PassIsSent(DtlsSystem.Run(s, actions).value.w)
  {
    hide Do, Records, Deliverable;
    if actions == [] {
      assert s.w.pass == [] && s.w.sent == [];
    } else {
      PassOfRun(s, actions[..|actions| - 1]);
      var v, a := DtlsSystem.Run(s, actions[..|actions| - 1]).value, actions[|actions| - 1];
      if a.Send? {
        DoKeepsPass(v.w, a.op);
      }
    }
  }

  lemma PassIsOnNetwork(w: Writer, j: nat) returns (i: nat)
    requires PassIsSent(w) && j < |Records(w.pass)|
    ensures i < |Records(w.sent)| && Records(w.sent)[i] == Records(w.pass)[j]
  {
    hide Records;
    assert Records(w.pass)[j] in multiset(Records(w.pass));
    assert Records(w.pass)[j] in multiset(Records(w.sent));
    i :| i < |Records(w.sent)| && Records(w.sent)[i] == Records(w.pass)[j];
  }

  lemma TwiceIn<T>(a: seq<T>, i: nat, j: nat)
    requires i < j < |a| && a[i] == a[j]
    ensures multiset(a)[a[i]] >= 2
  {
    assert a == a[..j] + [a[j]] + a[j + 1..];
    assert a[..j][i] == a[i];
    assert a[i] in multiset(a[..j]);
  }

  lemma OnceIn<T>(a: seq<T>, i: nat)
    requires i < |a| && forall j :: 0 <= j < |a| && j != i ==> a[j] != a[i]
    ensures multiset(a)[a[i]] == 1
  {
    assert a == a[..i] + [a[i]] + a[i + 1..];
    assert a[i] !in a[..i] && a[i] !in a[i + 1..];
    assert multiset(a) == multiset(a[..i]) + multiset{a[i]} + multiset(a[i + 1..]);
  }

  /** The records of a pass carry distinct numbers, as all records sent do. */
  lemma PassIsDistinct(w: Writer)
    requires PassIsSent(w) && Distinct(Records(w.sent))
    ensures Distinct(Records(w.pass))
  {
    hide Records;
    var pass, sent := Records(w.pass), Records(w.sent);
    forall i: nat, j: nat | i < j < |pass| ensures !SameNumber(pass[i], pass[j]) {
      var p := PassIsOnNetwork(w, i);
      var q := PassIsOnNetwork(w, j);
      if SameNumber(pass[i], pass[j]) {
        assert p == q;
        TwiceIn(pass, i, j);
        OnceIn(sent, p);
        assert false;
      }
    }
  }

  // The arrival of a flight.

  predicate InEpoch(recs: seq<Sent>, epoch: nat, j: nat) {
    j < |recs| && recs[j].rtype == RT_HANDSHAKE && recs[j].epoch == epoch
  }

  /** The handshake records of one epoch, each once, in some order. */
  ghost predicate EachOnce(recs: seq<Sent>, epoch: nat, order: seq<nat>) {
    && (forall i :: 0 <= i < |order| ==> InEpoch(recs, epoch, order[i]))
    && (forall i, i' :: 0 <= i < i' < |order| ==> order[i] != order[i'])
    && forall j: nat :: InEpoch(recs, epoch, j) ==> j in order
  }

  /** No record overtakes another by the width of the replay window. */
  predicate Near(recs: seq<Sent>, order: seq<nat>) {
    forall i, i' :: 0 <= i < i' < |order| && order[i] < |recs| && order[i'] < |recs| ==>
      recs[order[i]].seqNo < recs[order[i']].seqNo + WINDOW
  }

  function Arrival(sent: Sent): Record {
    Record(sent.rtype, sent.epoch, sent.seqNo, true, sent.plain)
  }

  function Arrivals(recs: seq<Sent>, order: seq<nat>): (ds: seq<Record>)
    requires forall i :: 0 <= i < |order| ==> order[i] < |recs|
    ensures |ds| == |order| && forall i :: 0 <= i < |ds| ==> ds[i] == Arrival(recs[order[i]])
  {
    seq(|order|, i requires 0 <= i < |order| => Arrival(recs[order[i]]))
  }

  /** The window has seen no more than what was there before and what has arrived. */
  lemma {:induction false} SeenSoFar(r: Reader, ds: seq<Record>, maxLen: nat, m: nat)
    requires |r.slots| == FLIGHT && m in Fed(r, ds, maxLen).seen
    ensures m in r.seen || exists i :: 0 <= i < |ds| && ds[i].Number() == m
  {
    hide Reader.OpenHandshake;
    if ds == [] {
    } else {
      var front := ds[..|ds| - 1];
      HandshakeKeepsCounters(Fed(r, front, maxLen), ds[|ds| - 1], maxLen);
      if m in Fed(r, front, maxLen).seen {
        SeenSoFar(r, front, maxLen, m);
        if i :| 0 <= i < |front| && front[i].Number() == m {
          assert ds[i].Number() == m;
        }
      } else {
        assert ds[|ds| - 1].Number() == m;
      }
    }
  }

  /** What the receiver has to expect of the flight: messages in its window, of a length it takes, in records of a
      length it takes, under numbers its replay window has neither seen nor passed by. */
  ghost predicate Awaited(r: Reader, flight: seq<OutMsg>, recs: seq<Sent>, maxLen: nat)
    requires FlightOk(flight)
  {
    && (forall k: nat :: ToCome(r, flight, k) ==>
          Expects(r, Whole(flight[k]).header.seqNo) && |Whole(flight[k]).body| <= maxLen)
    && (forall j: nat :: InEpoch(recs, r.epoch, j) ==>
          |recs[j].plain| <= MAX_PLAIN && !Refused(r.seen, Arrival(recs[j]).Number()))
  }

  /** Message k of the flight belongs to the receiver's read epoch. */
  predicate ToCome(r: Reader, flight: seq<OutMsg>, k: nat) {
    k < |flight| && !flight[k].isCcs && flight[k].epoch == r.epoch
  }

  lemma ArrivalIsNotRefused(r: Reader, flight: seq<OutMsg>, recs: seq<Sent>, order: seq<nat>, maxLen: nat, i: nat)
    requires |r.slots| == FLIGHT && FlightOk(flight) && Awaited(r, flight, recs, maxLen) && Distinct(recs)
    requires EachOnce(recs, r.epoch, order) && Near(recs, order) && i < |order|
    ensures var ds := Arrivals(recs, order); !Refused(Fed(r, ds[..i], maxLen).seen, ds[i].Number())
  {
    hide FlightOk;
    var ds := Arrivals(recs, order);
    var n := ds[i].Number();
    forall m | m in Fed(r, ds[..i], maxLen).seen ensures m != n && m < n + WINDOW {
      SeenSoFar(r, ds[..i], maxLen, m);
      if m !in r.seen {
        var i' :| 0 <= i' < i && ds[..i][i'].Number() == m;
        assert ds[..i][i'] == ds[i'] == Arrival(recs[order[i']]);
        assert !SameNumber(recs[order[i']], recs[order[i]]);
      } else {
        assert InEpoch(recs, r.epoch, order[i]);
      }
    }
  }

  /** What the lemmas below assume: the pass carries the whole flight, and its records of the receiver's epoch arrive,
      each once, none overtaken by the width of the window. */
  ghost predicate Comes(s: Sys, order: seq<nat>, maxLen: nat)
    ensures Comes(s, order, maxLen) ==> |s.r.slots| == FLIGHT && EachOnce(Records(s.w.pass), s.r.epoch, order)
  {
    && SysInv(s) && PassIsSent(s.w) && !s.w.wrapped && FlightOk(s.w.flight)
    && var recs := Records(s.w.pass);
       && Follow(s.w.flight, recs) == Some(Cursor(|s.w.flight|, 0))
       && Awaited(s.r, s.w.flight, recs, maxLen)
       && EachOnce(recs, s.r.epoch, order) && Near(recs, order)
  }

  ghost function Stream(s: Sys, order: seq<nat>): (ds: seq<Record>)
    requires EachOnce(Records(s.w.pass), s.r.epoch, order)
    ensures |ds| == |order| && forall i :: 0 <= i < |ds| ==> ds[i] == Arrival(Records(s.w.pass)[order[i]])
  {
    Arrivals(Records(s.w.pass), order)
  }

  lemma StreamIsDeliverable(s: Sys, order: seq<nat>, maxLen: nat, i: nat)
    requires Comes(s, order, maxLen) && i < |order|
    ensures var rec := Stream(s, order)[i];
            Deliverable(s.w, rec) && HonestRecord(s.w.transcript, rec)
  {
    hide Awaited, Near, Follow, FlightOk, ReaderInv, AcceptedInv, HonestRecord, Records, Accounted, AllHonest, InFlight;
    var rec := Stream(s, order)[i];
    var j := PassIsOnNetwork(s.w, order[i]);
    assert Used(s.w, Records(s.w.sent)[j]);
    assert InEpoch(Records(s.w.pass), s.r.epoch, order[i]);
    EpochFits(s);
    assert OnNetwork(s.w, rec, j);
    DeliverableIsHonest(s.w, rec);
  }

  lemma EpochFits(s: Sys)
    requires SysInv(s)
    ensures s.r.epoch < U16 && |s.w.transcript| < U16
  {
  }

  /** The number in a message's header is its place in the transcript. */
  lemma NumberedInTranscript(s: Sys, k: nat)
    requires SysInv(s) && FlightOk(s.w.flight) && k < |s.w.flight| && !s.w.flight[k].isCcs
    ensures WellFormed(s.w.flight[k])
    ensures var n := Whole(s.w.flight[k]).header.seqNo;
            && n < |s.w.transcript| && IsMessage(s.w.transcript, s.w.flight[k], n)
            && Whole(s.w.flight[k]).body == s.w.transcript[n].body
            && s.w.flight[k].data == s.w.transcript[n].Bytes(n)
  {
    hide ReaderInv, AcceptedInv, Accounted, AllHonest, NumbersOk, FlightOk, IsMessage, WellFormed, InRange, Due,
         DeliveredInv;
    EpochFits(s);
    var n: nat :| IsMessage(s.w.transcript, s.w.flight[k], n);
    MessageHasNumber(s.w.transcript, s.w.flight[k], n);
  }

  lemma MessageHasNumber(t: seq<Message>, m: OutMsg, n: nat)
    requires IsMessage(t, m, n) && |t| < U16 && !m.isCcs
    ensures WellFormed(m) && Whole(m).header.seqNo == n < |t| && Whole(m).body == t[n].body && m.data == t[n].Bytes(n)
  {
    hide ParseFragment, FragmentBytes;
    MessageIsWhole(t, m, n);
  }

  /** Each record that arrives is accepted. */
  lemma ArrivalSucceeds(s: Sys, order: seq<nat>, maxLen: nat, i: nat)
    requires Comes(s, order, maxLen) && i < |order|
    ensures var ds := Stream(s, order);
            Fed(s.r, ds[..i], maxLen).OpenHandshake(ds[i], maxLen).1 == Success
  {
    hide HonestRecord, Refused, FlightOk, Inv, AcceptedInv, DeliveredInv, Follow, Due, FragmentOf, ParseFragment,
         IsMessage, Reader.OpenHandshake;
    var t, ds, recs, flight := s.w.transcript, Stream(s, order), Records(s.w.pass), s.w.flight;
    var j := order[i];
    assert InEpoch(recs, s.r.epoch, j);
    FollowPrefix(flight, recs, j);
    var k := Follow(flight, recs[..j]).value.written;
    HandshakeIsDue(flight, Follow(flight, recs[..j]).value, recs[j]);
    assert PartOf(flight, recs, j, k) && ToCome(s.r, flight, k);
    NumberedInTranscript(s, k);
    var n := Whole(flight[k]).header.seqNo;
    EpochFits(s);
    PartIsSlice(t, flight, recs, j, k, n);
    forall l | 0 <= l < i ensures ds[..i][l].Fits() && HonestRecord(t, ds[..i][l]) {
      StreamIsDeliverable(s, order, maxLen, l);
    }
    var log' := FedKeepsInv(t, s.r, s.log, ds[..i], maxLen);
    FedKeepsPlace(s.r, ds[..i], maxLen);
    StreamIsDeliverable(s, order, maxLen, i);
    SentAreDistinct(s);
    ArrivalIsNotRefused(s.r, flight, recs, order, maxLen, i);
    var f := FragmentOf(recs[j]).value;
    RecordIsHeld(t, Fed(s.r, ds[..i], maxLen), log', ds[i], maxLen, f, n, Follow(flight, recs[..j]).value.offset,
                 |f.body|);
  }

  lemma HandshakeIsDue(flight: seq<OutMsg>, c: Cursor, rec: Sent)
    requires FlightOk(flight) && Due(flight, c, rec).Some? && rec.rtype == RT_HANDSHAKE
    ensures c.written < |flight| && !flight[c.written].isCcs && flight[c.written].epoch == rec.epoch
  {
  }

  lemma SentAreDistinct(s: Sys)
    requires SysInv(s) && PassIsSent(s.w) && !s.w.wrapped
    ensures Distinct(Records(s.w.pass))
  {
    hide ReaderInv, AcceptedInv, Accounted, AllHonest, InFlight, Records, Distinct;
    PassIsDistinct(s.w);
  }

  /** A flight that was written whole and whose records all arrive is reassembled whole, byte for byte: in any order of
      arrival in which no record is overtaken by the width of the replay window, each record is accepted, and at the
      end every message of the receiver's read epoch is complete in its slot. */
  lemma FlightArrives(s: Sys, order: seq<nat>, maxLen: nat)
    requires Comes(s, order, maxLen)
    ensures var ds := Stream(s, order);
            forall i :: 0 <= i < |ds| ==> Fed(s.r, ds[..i], maxLen).OpenHandshake(ds[i], maxLen).1 == Success
    ensures var r' := Fed(s.r, Stream(s, order), maxLen);
            forall k: nat :: ToCome(s.r, s.w.flight, k) ==> Reassembled(r', s.w.flight[k])
  {
    hide Comes, Reassembled, Reader.OpenHandshake;
    forall i | 0 <= i < |order|
      ensures Fed(s.r, Stream(s, order)[..i], maxLen).OpenHandshake(Stream(s, order)[i], maxLen).1 == Success
    {
      ArrivalSucceeds(s, order, maxLen, i);
    }
    forall k: nat | ToCome(s.r, s.w.flight, k)
      ensures Reassembled(Fed(s.r, Stream(s, order), maxLen), s.w.flight[k])
    {
      ComesWhole(s, order, maxLen, k);
    }
  }

  /** The message is complete in its slot, and its bytes are those that were to be sent. */
  ghost predicate Reassembled(r: Reader, m: OutMsg)
    requires |r.slots| == FLIGHT
  {
    WellFormed(m) && !m.isCcs &&
    var n := Whole(m).header.seqNo;
    && Buffered(r, n)
    && var f := r.slots[n % FLIGHT].value;
       f.Valid() && f.Complete() && f.Raw() == m.data
  }

  lemma ComesWhole(s: Sys, order: seq<nat>, maxLen: nat, k: nat)
    requires Comes(s, order, maxLen) && ToCome(s.r, s.w.flight, k)
    ensures Reassembled(Fed(s.r, Stream(s, order), maxLen), s.w.flight[k])
  {
    hide HonestRecord, Refused, Inv, AcceptedInv, DeliveredInv, Follow, Due, FragmentOf, ParseFragment, IsMessage,
         Reader.OpenHandshake, Frag.Complete, Frag.Raw, Covered, OneEpoch, PassIsSent, GetsThrough, WellFormed;
    var t, ds, recs, flight := s.w.transcript, Stream(s, order), Records(s.w.pass), s.w.flight;
    NumberedInTranscript(s, k);
    var n := Whole(flight[k]).header.seqNo;
    EpochFits(s);
    forall l | 0 <= l < |ds| ensures ds[l].Fits() && HonestRecord(t, ds[l]) {
      StreamIsDeliverable(s, order, maxLen, l);
    }
    forall j: nat | PartOf(flight, recs, j, k)
      ensures |recs[j].plain| <= MAX_PLAIN && GetsThrough(s.r, ds, maxLen, recs[j])
    {
      PartGetsThrough(s, order, maxLen, j, k, n);
    }
    MessageArrives(t, s.r, s.log, ds, maxLen, flight, recs, k, n);
    var log' := FedKeepsInv(t, s.r, s.log, ds, maxLen);
    var r' := Fed(s.r, ds, maxLen);
    assert r'.SlotOk(n % FLIGHT, r'.slots[n % FLIGHT].value);
    RawIsTranscript(t, r'.slots[n % FLIGHT].value);
  }

  lemma PartGetsThrough(s: Sys, order: seq<nat>, maxLen: nat, j: nat, k: nat, n: nat)
    requires Comes(s, order, maxLen) && ToCome(s.r, s.w.flight, k) && PartOf(s.w.flight, Records(s.w.pass), j, k)
    requires |s.w.transcript| < U16 && n < |s.w.transcript| && IsMessage(s.w.transcript, s.w.flight[k], n)
    ensures |Records(s.w.pass)[j].plain| <= MAX_PLAIN
    ensures GetsThrough(s.r, Stream(s, order), maxLen, Records(s.w.pass)[j])
  {
    hide SysInv, Refused, Follow, Due, FragmentOf, ParseFragment, IsMessage, Reader.OpenHandshake, Records, Distinct,
         PassIsSent;
    var recs := Records(s.w.pass);
    PartIsSlice(s.w.transcript, s.w.flight, recs, j, k, n);
    assert InEpoch(recs, s.r.epoch, j);
    var i: nat :| i < |order| && order[i] == j;
    SentAreDistinct(s);
    ArrivalIsNotRefused(s.r, s.w.flight, recs, order, maxLen, i);
    assert ArrivesAt(s.r, Stream(s, order), maxLen, recs[j], i);
  }

  // Records that are short enough.

  predicate Short(recs: seq<Sent>) {
    forall i :: 0 <= i < |recs| ==> |recs[i].plain| <= MAX_PLAIN
  }

  lemma MessageIsShort(w: Writer, maxOut: nat)
    requires w.cursor.written < |w.flight|
    ensures var r := w.SealNextMessage(maxOut).1;
            r.Sealed? || r.Partial? ==> |r.rec.plain| + RECORD_HEADER <= maxOut
  {
    hide ParseFragment, Writer.SealRecord;
    var msg := w.flight[w.cursor.written];
    var previous := w.epoch >= 1 && msg.epoch == w.epoch - 1;
    if previous || msg.epoch == w.epoch {
      forall rtype, plain
        ensures var rec := w.SealRecord(rtype, plain, maxOut, previous).1;
                rec.Some? ==> rec.value.plain == plain
      {
        RecordKeepsType(w, rtype, plain, maxOut, previous);
      }
    }
  }

  lemma {:induction false} MoreIsShort(w: Writer, maxOut: nat, packet: Packet)
    requires maxOut <= MAX_PLAIN + RECORD_HEADER && Short(packet)
    ensures var p := w.SealMore(maxOut, packet).1;
            p.Some? ==> Short(p.value)
    decreases |w.flight| - w.cursor.written
  {
    hide Writer.SealNextMessage;
    if w.cursor.written >= |w.flight| {
    } else {
      MessageIsShort(w, maxOut);
      var (v, r) := w.SealNextMessage(maxOut);
      if r.Sealed? {
        MoreIsShort(v.Past(), if r.rec.size <= maxOut then maxOut - r.rec.size else 0, packet + [r.rec]);
      }
    }
  }

  /** With an MTU of no more than 2^14 and a record header, no record is too long for the receiver. */
  lemma {:induction false} SendIsShort(w: Writer, budget: nat, flushOk: bool)
    requires w.CursorOk() && w.mtu <= MAX_PLAIN + RECORD_HEADER && Short(Records(w.pass))
    ensures Short(Records(w.SendPackets(budget, flushOk).0.pass))
    decreases |w.flight| - w.cursor.written, U24 - w.cursor.offset
  {
    hide Writer.SealMore, Records;
    if w.cursor.written >= |w.flight| {
    } else {
      PacketMovesCursor(w, w.mtu);
      MoreIsShort(w, w.mtu, []);
      var (v, r) := w.SealNextPacket(w.mtu);
      if r.Full? && budget > 0 {
        RecordsOfOneMore(v.pass, r.packet);
        SendIsShort(v.Wrote(r.packet), budget - 1, flushOk);
      }
    }
  }

  /** An AEAD without overhead that always succeeds. */
  function Plain(): Aead {
    Aead(0, 0, (_, _, _, plain, room) => if |plain| > room then None else Some(|plain|))
  }

  const MAX_ENCRYPTED: nat := MAX_PLAIN + 320 // SSL3_RT_MAX_ENCRYPTED_LENGTH

  /** With a larger MTU the sender seals records that the receiver refuses with an error: whenever a message is that
      long and there is room for it. */
  lemma LongRecordIsRefused(w: Writer, m: Message, r: Reader, maxLen: nat)
    requires MAX_PLAIN < HM_HEADER + |m.body| <= MAX_ENCRYPTED
    requires w.flight == [OutMsg(m.Bytes(0), 0, false)] && w.cursor == Cursor(0, 0)
    requires w.epoch == 0 && w.writeSeq + 1 < SEQ48 && w.aead == Plain()
    requires w.mtu >= RECORD_HEADER + HM_HEADER + 1 + |m.body|
    requires |r.slots| == FLIGHT && r.epoch == 0 && !Refused(r.seen, w.writeSeq)
    ensures Plain().Meets()
    ensures var (_, sealedRec) := w.SealNextMessage(w.mtu);
            sealedRec.Sealed? && r.OpenHandshake(Arrival(sealedRec.rec), maxLen) == (r, Error)
  {
    hide ParseFragment, FragmentBytes, Refused;
    var whole := m.Slice(0, 0, |m.body|);
    ParseInvertsWrite(whole, []);
    assert FragmentBytes(whole) + [] == FragmentBytes(whole);
    assert w.Part(whole, |m.body|) == whole;
  }

  // These arrivals are a run of the system.

  function Receipts(ds: seq<Record>, maxLen: nat): seq<Action> {
    seq(|ds|, i requires 0 <= i < |ds| => ReceiveHandshake(ds[i], maxLen))
  }

  lemma {:induction false} ArrivalsAreARun(s: Sys, ds: seq<Record>, maxLen: nat)
    requires |s.r.slots| == FLIGHT && forall i :: 0 <= i < |ds| ==> Deliverable(s.w, ds[i])
    ensures var s' := DtlsSystem.Run(s, Receipts(ds, maxLen));
            s'.Some? && s'.value.w == s.w && s'.value.r == Fed(s.r, ds, maxLen)
  {
    hide Deliverable, Reader.OpenHandshake, TakenFrom, AcceptedBy;
    if ds == [] {
    } else {
      var front := ds[..|ds| - 1];
      ArrivalsAreARun(s, front, maxLen);
      assert Receipts(ds, maxLen)[..|ds| - 1] == Receipts(front, maxLen);
    }
  }
}
