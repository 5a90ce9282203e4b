/** A sender, a network that loses, duplicates and reorders, and a receiver. The network may also invent records,
    but none that open: what opens is a record the sender's BIO took. */
module DtlsSystem {
  import opened Octets
  import opened Wrappers
  import opened DtlsWire
  import opened ReplayWindow
  import opened Reassembly
  import opened DtlsWriter
  import opened FlightTiling
  import opened WriterRuns
  import opened DtlsReader

  /** A fragment that was added to an incomplete message, and the read epoch it came in. */
  datatype Entry = Entry(f: Fragment, epoch: nat)

  /** The transcript holds message n and it reads as `f` says. */
  ghost predicate Faithful(t: seq<Message>, f: Frag) {
    && f.seqNo < |t| && f.mtype == t[f.seqNo].mtype && f.msgLen == |t[f.seqNo].body|
    && forall i :: i in f.got ==> i < f.msgLen && f.got[i] == t[f.seqNo].body[i]
  }

  ghost predicate Covers(e: Entry, n: nat, i: nat) {
    e.f.header.seqNo == n && e.f.header.fragOff <= i < e.f.header.fragOff + |e.f.body|
  }

  ghost predicate Covered(log: seq<Entry>, n: nat, i: nat) {
    exists j: nat :: j < |log| && Covers(log[j], n, i)
  }

  /** A buffered message: faithful, made of exactly the bytes that entries cover, and while it is incomplete all of
      its entries came in the current read epoch. */
  ghost predicate SlotInv(t: seq<Message>, epoch: nat, log: seq<Entry>, f: Frag) {
    && Faithful(t, f)
    && (forall i: nat :: i in f.got <==> Covered(log, f.seqNo, i))
    && (!f.Complete() ==> forall j: nat :: j < |log| && log[j].f.header.seqNo == f.seqNo ==> log[j].epoch == epoch)
  }

  ghost predicate Buffered(r: Reader, n: nat)
    requires |r.slots| == FLIGHT
  {
    r.slots[n % FLIGHT].Some? && r.slots[n % FLIGHT].value.seqNo == n
  }

  ghost predicate OneEpoch(log: seq<Entry>) {
    forall j: nat, j': nat :: j < |log| && j' < |log| && log[j].f.header.seqNo == log[j'].f.header.seqNo ==>
      log[j].epoch == log[j'].epoch
  }

  ghost predicate ReaderInv(t: seq<Message>, r: Reader, log: seq<Entry>)
    ensures ReaderInv(t, r, log) ==> |r.slots| == FLIGHT
  {
    && |r.slots| == FLIGHT && r.Valid()
    && (forall i :: 0 <= i < FLIGHT && r.slots[i].Some? ==> SlotInv(t, r.epoch, log, r.slots[i].value))
    && (forall j: nat :: j < |log| ==> log[j].f.header.seqNo < r.readSeq || Buffered(r, log[j].f.header.seqNo))
    && OneEpoch(log)
  }

  /** `f` is part of message number k; message numbers have not wrapped. */
  ghost predicate Part(t: seq<Message>, f: Fragment, k: nat, off: nat, len: nat) {
    && k < |t| < U16 && t[k].Fits() && off + len <= |t[k].body| && f == t[k].Slice(k, off, len)
  }

  /** What OpenFragment adds to the log. */
  ghost function Taken(r: Reader, f: Fragment): seq<Entry>
    requires |r.slots| == FLIGHT
  {
    match r.GetIncoming(f.header)
    case Some(frag) => if frag.Complete() then [] else [Entry(f, r.epoch)]
    case None => []
  }

  lemma AcceptedIsFaithful(t: seq<Message>, frag: Frag, f: Fragment, k: nat, off: nat, len: nat)
    requires Part(t, f, k, off, len) && Faithful(t, frag) && frag.seqNo == k
    ensures Faithful(t, frag.Accept(off, f.body))
  {
  }

  /** A fragment put into an incomplete message covers its range and leaves the rest as it was. */
  lemma AcceptedIsCovered(frag: Frag, log: seq<Entry>, f: Fragment, epoch: nat)
    requires !frag.Complete() && f.header.seqNo == frag.seqNo
    requires forall i: nat :: i in frag.got <==> Covered(log, frag.seqNo, i)
    ensures forall i: nat :: i in frag.Accept(f.header.fragOff, f.body).got <==>
                             Covered(log + [Entry(f, epoch)], frag.seqNo, i)
  {
    var log' := log + [Entry(f, epoch)];
    forall i: nat
      ensures i in frag.Accept(f.header.fragOff, f.body).got <==> Covered(log', frag.seqNo, i)
    {
      CoveredByOneMore(log, Entry(f, epoch), frag.seqNo, i);
    }
  }

  lemma CoveredByOneMore(log: seq<Entry>, e: Entry, n: nat, i: nat)
    ensures Covered(log + [e], n, i) <==> Covered(log, n, i) || Covers(e, n, i)
  {
    var log' := log + [e];
    if j: nat :| j < |log| && Covers(log[j], n, i) {
      assert Covers(log'[j], n, i);
    }
    assert log'[|log|] == e;
  }

  lemma SlotAfterAccept(t: seq<Message>, r: Reader, log: seq<Entry>, frag: Frag, f: Fragment,
                     k: nat, off: nat, len: nat)
    requires Part(t, f, k, off, len) && frag.seqNo == k && SlotInv(t, r.epoch, log, frag) && !frag.Complete()
    ensures SlotInv(t, r.epoch, log + [Entry(f, r.epoch)], frag.Accept(off, f.body))
  {
    hide Covered, Frag.Complete;
    AcceptedIsFaithful(t, frag, f, k, off, len);
    AcceptedIsCovered(frag, log, f, r.epoch);
  }

  /** Entries for other messages do not matter to a slot. */
  lemma SlotUnaffected(t: seq<Message>, epoch: nat, log: seq<Entry>, frag: Frag, e: Entry)
    requires SlotInv(t, epoch, log, frag) && e.f.header.seqNo != frag.seqNo
    ensures SlotInv(t, epoch, log + [e], frag)
  {
    hide Covered, Frag.Complete;
    forall i: nat ensures Covered(log + [e], frag.seqNo, i) <==> Covered(log, frag.seqNo, i) {
      CoveredByOneMore(log, e, frag.seqNo, i);
    }
  }

  /** The slot a fragment goes to, before it is added. */
  lemma IncomingSlot(t: seq<Message>, r: Reader, log: seq<Entry>, f: Fragment, k: nat, off: nat, len: nat)
    requires ReaderInv(t, r, log) && Part(t, f, k, off, len) && r.GetIncoming(f.header).Some?
    ensures var frag := r.GetIncoming(f.header).value;
            frag.seqNo == k && SlotInv(t, r.epoch, log, frag)
  {
    var frag := r.GetIncoming(f.header).value;
    if r.slots[k % FLIGHT].Some? {
      FragmentFoundIsItsMessage(r, f.header);
    } else {
      forall j: nat | j < |log| ensures log[j].f.header.seqNo != k {
        assert log[j].f.header.seqNo < r.readSeq || Buffered(r, log[j].f.header.seqNo);
      }
    }
  }

  lemma AddedKeepsInv(t: seq<Message>, r: Reader, log: seq<Entry>, f: Fragment, k: nat, off: nat, len: nat)
    requires ReaderInv(t, r, log) && Part(t, f, k, off, len)
    requires r.GetIncoming(f.header).Some? && !r.GetIncoming(f.header).value.Complete()
    ensures var frag := r.GetIncoming(f.header).value;
            var r' := r.(slots := r.slots[k % FLIGHT := Some(frag.Accept(off, f.body))]);
            r'.Valid() ==> ReaderInv(t, r', log + [Entry(f, r.epoch)])
  {
    hide Reader.Valid, SlotInv, Frag.Accept, Frag.Complete;
    IncomingSlot(t, r, log, f, k, off, len);
    var frag := r.GetIncoming(f.header).value;
    SlotAfterAccept(t, r, log, frag, f, k, off, len);
    var e := Entry(f, r.epoch);
    var log' := log + [e];
    var frag' := frag.Accept(off, f.body);
    assert frag'.seqNo == k by { AcceptKeepsNumber(frag, off, f.body); }
    var r' := r.(slots := r.slots[k % FLIGHT := Some(frag')]);
    forall i | 0 <= i < FLIGHT && r'.slots[i].Some? ensures SlotInv(t, r'.epoch, log', r'.slots[i].value) {
      if i != k % FLIGHT {
        SlotNumber(r, i);
        SlotUnaffected(t, r.epoch, log, r.slots[i].value, e);
      }
    }
    forall j: nat | j < |log'| ensures log'[j].f.header.seqNo < r'.readSeq || Buffered(r', log'[j].f.header.seqNo) {
      if j < |log| && log[j].f.header.seqNo >= r.readSeq {
        assert Buffered(r, log[j].f.header.seqNo);
        BufferedStays(r, k, frag, frag', log[j].f.header.seqNo);
      }
    }
    NewEntryHasItsEpoch(t, log, frag, e);
  }

  lemma AcceptKeepsNumber(frag: Frag, off: nat, body: Bytes)
    ensures frag.Accept(off, body).seqNo == frag.seqNo
  {
  }

  lemma SlotNumber(r: Reader, i: nat)
    requires r.Valid() && i < FLIGHT && r.slots[i].Some?
    ensures r.slots[i].value.seqNo % FLIGHT == i
  {
    assert r.SlotOk(i, r.slots[i].value);
  }

  lemma BufferedStays(r: Reader, k: nat, frag: Frag, frag': Frag, n: nat)
    requires |r.slots| == FLIGHT && frag'.seqNo == frag.seqNo == k && Buffered(r, n)
    requires r.slots[k % FLIGHT] == None || r.slots[k % FLIGHT] == Some(frag)
    ensures Buffered(r.(slots := r.slots[k % FLIGHT := Some(frag')]), n)
  {
  }

  lemma NewEntryHasItsEpoch(t: seq<Message>, log: seq<Entry>, frag: Frag, e: Entry)
    requires OneEpoch(log) && SlotInv(t, e.epoch, log, frag) && !frag.Complete() && e.f.header.seqNo == frag.seqNo
    ensures OneEpoch(log + [e])
  {
    hide Frag.Complete, Faithful, Covered;
  }

  /** A fragment of an honest message keeps the reader in order, whichever way it is disposed of. */
  lemma FragmentKeepsInv(t: seq<Message>, r: Reader, log: seq<Entry>, f: Fragment, maxLen: nat,
                         k: nat, off: nat, len: nat)
    requires ReaderInv(t, r, log) && Part(t, f, k, off, len) && f.Fits() && r.OpenFragment(f, maxLen).Some?
    ensures ReaderInv(t, r.OpenFragment(f, maxLen).value,
                      log + if InWindow(r, f) then Taken(r, f) else [])
  {
    hide Reader.Valid, SlotInv, Frag.Complete;
    OpenFragmentValid(r, f, maxLen);
    if r.readSeq <= k <= r.readSeq + FLIGHT {
      var frag := r.GetIncoming(f.header).value;
      if frag.Complete() {
        IncomingSlot(t, r, log, f, k, off, len);
        CompleteIgnores(r, frag, f);
        NewSlotKeepsInv(t, r, log, frag);
        assert log + [] == log;
      } else {
        AddedKeepsInv(t, r, log, f, k, off, len);
      }
    } else {
      assert log + [] == log;
    }
  }

  predicate InWindow(r: Reader, f: Fragment) {
    r.readSeq <= f.header.seqNo <= r.readSeq + FLIGHT
  }

  lemma CompleteIgnores(r: Reader, frag: Frag, f: Fragment)
    requires frag.Complete()
    ensures frag.Accept(f.header.fragOff, f.body) == frag
  {
  }

  /** A slot set to what it holds, or to a new empty message. */
  lemma NewSlotKeepsInv(t: seq<Message>, r: Reader, log: seq<Entry>, frag: Frag)
    requires ReaderInv(t, r, log) && SlotInv(t, r.epoch, log, frag)
    requires r.slots[frag.seqNo % FLIGHT] == None || r.slots[frag.seqNo % FLIGHT] == Some(frag)
    ensures var r' := r.(slots := r.slots[frag.seqNo % FLIGHT := Some(frag)]);
            r'.Valid() ==> ReaderInv(t, r', log)
  {
    hide Reader.Valid, SlotInv, OneEpoch;
    var r' := r.(slots := r.slots[frag.seqNo % FLIGHT := Some(frag)]);
    forall j: nat | j < |log| ensures log[j].f.header.seqNo < r'.readSeq || Buffered(r', log[j].f.header.seqNo) {
      if Buffered(r, log[j].f.header.seqNo) {
        BufferedStays(r, frag.seqNo, frag, frag, log[j].f.header.seqNo);
      }
    }
  }

  /** What a record adds to the log. */
  ghost function TakenFrom(r: Reader, rec: Record, maxLen: nat): seq<Entry>
    requires |r.slots| == FLIGHT
  {
    var (after, outcome) := r.OpenRecord(rec);
    if outcome != Success || rec.rtype != RT_HANDSHAKE then []
    else match ParseFragment(rec.plain)
      case None => []
      case Some((f, _)) =>
        if after.OpenFragment(f, maxLen).Some? && InWindow(after, f) then Taken(after, f) else []
  }

  lemma OpenRecordKeepsInv(t: seq<Message>, r: Reader, log: seq<Entry>, rec: Record)
    requires ReaderInv(t, r, log) && rec.Fits()
    ensures ReaderInv(t, r.OpenRecord(rec).0, log)
  {
    hide Reader.Valid, SlotInv, OneEpoch;
    OpenRecordValid(r, rec);
    var r' := r.OpenRecord(rec).0;
    forall j: nat | j < |log| ensures log[j].f.header.seqNo < r'.readSeq || Buffered(r', log[j].f.header.seqNo) {
      assert log[j].f.header.seqNo < r.readSeq || Buffered(r, log[j].f.header.seqNo);
    }
  }

  /** A handshake record that holds one fragment of a message of the transcript. */
  ghost predicate HonestRecord(t: seq<Message>, rec: Record) {
    rec.rtype == RT_HANDSHAKE ==>
      exists f: Fragment, k: nat, off: nat, len: nat ::
        Part(t, f, k, off, len) && ParseFragment(rec.plain) == Some((f, []))
  }

  lemma HandshakeKeepsInv(t: seq<Message>, r: Reader, log: seq<Entry>, rec: Record, maxLen: nat)
    requires ReaderInv(t, r, log) && rec.Fits() && (rec.opens ==> HonestRecord(t, rec))
    ensures ReaderInv(t, r.OpenHandshake(rec, maxLen).0, log + TakenFrom(r, rec, maxLen))
  {
    hide Reader.Valid, SlotInv, OneEpoch, Buffered, Reader.OpenFragment, Reader.OpenRecord, ParseFragment;
    OpenRecordKeepsInv(t, r, log, rec);
    SuccessMeansItOpens(r, rec);
    var (after, outcome) := r.OpenRecord(rec);
    assert log + [] == log;
    if outcome == Success && rec.rtype == RT_HANDSHAKE {
      var f: Fragment, k: nat, off: nat, len: nat :|
        Part(t, f, k, off, len) && ParseFragment(rec.plain) == Some((f, []));
      OneFragmentRecord(after, f, rec.plain, maxLen);
      if after.OpenFragment(f, maxLen).Some? {
        FragmentKeepsInv(t, after, log, f, maxLen, k, off, len);
      }
    } else if outcome == Success && rec.rtype == RT_CHANGE_CIPHER_SPEC {
      CcsKeepsInv(t, after, log, true);
    }
  }

  lemma OneFragmentRecord(r: Reader, f: Fragment, plain: Bytes, maxLen: nat)
    requires |r.slots| == FLIGHT && ParseFragment(plain) == Some((f, []))
    ensures r.OpenFragments(plain, maxLen) ==
            match r.OpenFragment(f, maxLen) case None => (r, Error) case Some(next) => (next, Success)
  {
    hide ParseFragment, Reader.OpenFragment;
  }

  lemma SuccessMeansItOpens(r: Reader, rec: Record)
    ensures r.OpenRecord(rec).1 == Success ==> rec.opens
  {
  }

  /** The pending ChangeCipherSpec flag plays no part in the invariant. */
  lemma CcsKeepsInv(t: seq<Message>, r: Reader, log: seq<Entry>, hasCcs: bool)
    requires ReaderInv(t, r, log)
    ensures ReaderInv(t, r.(hasCcs := hasCcs), log)
  {
    hide SlotInv, OneEpoch;
    var r' := r.(hasCcs := hasCcs);
    forall i | 0 <= i < FLIGHT && r'.slots[i].Some? ensures r'.SlotOk(i, r'.slots[i].value) {
      assert r.SlotOk(i, r.slots[i].value);
    }
    forall j: nat | j < |log| ensures log[j].f.header.seqNo < r'.readSeq || Buffered(r', log[j].f.header.seqNo) {
      assert log[j].f.header.seqNo < r.readSeq || Buffered(r, log[j].f.header.seqNo);
    }
  }

  lemma NextMessageKeepsInv(t: seq<Message>, r: Reader, log: seq<Entry>)
    requires ReaderInv(t, r, log) && r.hasMessage && r.readSeq + 1 < U16
    ensures ReaderInv(t, r.NextMessage(), log)
  {
    hide SlotInv, OneEpoch, Reader.Valid, Frag.Complete;
    NextMessageValid(r);
    var r' := r.NextMessage();
    forall j: nat | j < |log| ensures log[j].f.header.seqNo < r'.readSeq || Buffered(r', log[j].f.header.seqNo) {
      var n := log[j].f.header.seqNo;
      assert n < r.readSeq || Buffered(r, n);
      if n > r.readSeq {
        BufferedNumber(r, n);
        assert n % FLIGHT != r.readSeq % FLIGHT;
      }
    }
  }

  lemma BufferedNumber(r: Reader, n: nat)
    requires r.Valid() && Buffered(r, n)
    ensures r.readSeq <= n < r.readSeq + FLIGHT
  {
    assert r.SlotOk(n % FLIGHT, r.slots[n % FLIGHT].value);
  }

  /** The epoch changes only when nothing incomplete is buffered, so no message mixes epochs. */
  lemma SetReadStateKeepsInv(t: seq<Message>, r: Reader, log: seq<Entry>)
    requires ReaderInv(t, r, log) && !r.HasUnprocessed()
    ensures ReaderInv(t, r.SetReadState(), log)
  {
    hide Faithful, Covered, OneEpoch;
    SetReadStateValid(r);
    var r' := r.SetReadState();
    forall i | 0 <= i < FLIGHT && r'.slots[i].Some? ensures SlotInv(t, r'.epoch, log, r'.slots[i].value) {
      assert r.hasMessage && i == r.readSeq % FLIGHT;
      assert r.CurrentComplete();
    }
    forall j: nat | j < |log| ensures log[j].f.header.seqNo < r'.readSeq || Buffered(r', log[j].f.header.seqNo) {
      assert log[j].f.header.seqNo < r.readSeq || Buffered(r, log[j].f.header.seqNo);
    }
  }

  lemma HasMessageKeepsInv(t: seq<Message>, r: Reader, log: seq<Entry>)
    requires ReaderInv(t, r, log) && r.CurrentComplete()
    ensures ReaderInv(t, r.(hasMessage := true), log)
  {
    hide SlotInv, OneEpoch, Frag.Complete;
    var r' := r.(hasMessage := true);
    forall i | 0 <= i < FLIGHT && r'.slots[i].Some? ensures r'.SlotOk(i, r'.slots[i].value) {
      assert r.SlotOk(i, r.slots[i].value);
    }
    forall j: nat | j < |log| ensures log[j].f.header.seqNo < r'.readSeq || Buffered(r', log[j].f.header.seqNo) {
      assert log[j].f.header.seqNo < r.readSeq || Buffered(r, log[j].f.header.seqNo);
    }
  }

  /** A complete faithful message is, byte for byte, what its sender put in the transcript. */
  lemma RawIsTranscript(t: seq<Message>, f: Frag)
    requires f.Valid() && Faithful(t, f) && f.Complete() && t[f.seqNo].Fits() && f.seqNo < U16
    ensures f.Raw() == t[f.seqNo].Bytes(f.seqNo)
  {
    var body := t[f.seqNo].body;
    assert seq(f.msgLen, i requires 0 <= i < f.msgLen => f.got[i]) == body;
    assert body[0..|body|] == body;
  }

  lemma LongerTranscript(t: seq<Message>, t': seq<Message>, r: Reader, log: seq<Entry>)
    requires ReaderInv(t, r, log) && t <= t'
    ensures ReaderInv(t', r, log)
  {
    hide OneEpoch, Covered, Frag.Complete, Reader.Valid;
    forall i | 0 <= i < FLIGHT && r.slots[i].Some? ensures SlotInv(t', r.epoch, log, r.slots[i].value) {
      assert SlotInv(t, r.epoch, log, r.slots[i].value);
    }
    forall j: nat | j < |log| ensures log[j].f.header.seqNo < r.readSeq || Buffered(r, log[j].f.header.seqNo) {
      assert log[j].f.header.seqNo < r.readSeq || Buffered(r, log[j].f.header.seqNo);
    }
  }

  // The whole system.

  datatype Sys = Sys(
    w: Writer,
    r: Reader,
    log: seq<Entry>,
    accepted: seq<nat>,     // the numbers (epoch, then sequence) of the records accepted so far
    delivered: seq<Bytes>)  // the messages handed to the receiving state machine

  datatype Action =
    | Send(op: Op)
    | ReceiveHandshake(rec: Record, maxLen: nat)
    | ReceiveCcs(rec: Record, maxLen: nat)
    | ReceiveAppData(rec: Record, timeoutOk: bool)
    | GetMessage
    | NextMessage
    | SetReadState

  /** The network holds what the BIO took, for ever. */
  ghost predicate OnNetwork(w: Writer, rec: Record, j: nat) {
    var recs := Records(w.sent);
    && j < |recs|
    && recs[j].rtype == rec.rtype && recs[j].epoch == rec.epoch && recs[j].seqNo == rec.seqNo
    && recs[j].plain == rec.plain
  }

  ghost predicate Deliverable(w: Writer, rec: Record) {
    rec.Fits() && (rec.opens ==> exists j: nat :: OnNetwork(w, rec, j))
  }

  /** When an action may happen. Message numbers and the read epoch stay clear of wrapping around. */
  ghost predicate Enabled(s: Sys, a: Action)
    requires |s.r.slots| == FLIGHT
  {
    match a
    case Send(op) => Allowed(op) && s.w.CursorOk() && s.w.msgSeq < U16 && |Do(s.w, op).transcript| < U16
    case ReceiveHandshake(rec, _) => Deliverable(s.w, rec)
    case ReceiveCcs(rec, _) => Deliverable(s.w, rec)
    case ReceiveAppData(rec, _) => Deliverable(s.w, rec)
    case GetMessage => s.r.CurrentComplete()
    case NextMessage => s.r.hasMessage
    case SetReadState => !s.r.HasUnprocessed() && s.r.epoch + 1 < U16
  }

  ghost function AcceptedBy(r: Reader, rec: Record): seq<nat> {
    if r.OpenRecord(rec).0.seen != r.seen then [rec.Number()] else []
  }

  ghost function Next(s: Sys, a: Action): (s': Sys)
    requires |s.r.slots| == FLIGHT && Enabled(s, a)
    requires a == GetMessage ==> s.r.Valid()
    ensures |s'.r.slots| == FLIGHT
  {
    match a
    case Send(op) => s.(w := Do(s.w, op))
    case ReceiveHandshake(rec, maxLen) => Received(s, s.r.OpenHandshake(rec, maxLen).0, rec, maxLen)
    case ReceiveCcs(rec, maxLen) =>
      if s.r.hasCcs then s.(r := s.r.OpenChangeCipherSpec(rec, maxLen).0)
      else Received(s, s.r.OpenChangeCipherSpec(rec, maxLen).0, rec, maxLen)
    case ReceiveAppData(rec, timeoutOk) =>
      s.(r := s.r.OpenAppData(rec, timeoutOk).0, accepted := s.accepted + AcceptedBy(s.r, rec))
    case GetMessage =>
      s.(r := s.r.(hasMessage := true),
         delivered := if s.r.hasMessage then s.delivered else s.delivered + [s.r.Current().Raw()])
    case NextMessage => s.(r := s.r.NextMessage())
    case SetReadState => s.(r := s.r.SetReadState())
  }

  ghost function Received(s: Sys, r: Reader, rec: Record, maxLen: nat): Sys
    requires |s.r.slots| == FLIGHT
  {
    s.(r := r, log := s.log + TakenFrom(s.r, rec, maxLen), accepted := s.accepted + AcceptedBy(s.r, rec))
  }

  /** Every accepted number was new, and only numbers of the current epoch can still be refused as repeats. */
  ghost predicate AcceptedInv(r: Reader, accepted: seq<nat>) {
    && (forall i, j :: 0 <= i < j < |accepted| ==> accepted[i] != accepted[j])
    && (forall i :: 0 <= i < |accepted| ==> accepted[i] < (r.epoch + 1) * SEQ48)
    && (forall i :: 0 <= i < |accepted| && accepted[i] >= r.epoch * SEQ48 ==> accepted[i] in r.seen)
  }

  /** Message k was delivered k-th, exactly as its sender recorded it. */
  ghost predicate DeliveredInv(t: seq<Message>, r: Reader, delivered: seq<Bytes>) {
    && |delivered| == r.readSeq + (if r.hasMessage then 1 else 0) <= |t| < U16
    && forall k :: 0 <= k < |delivered| ==> t[k].Fits() && delivered[k] == t[k].Bytes(k)
  }

  ghost predicate SysInv(s: Sys)
    ensures SysInv(s) ==> |s.r.slots| == FLIGHT
  {
    && Inv(s.w)
    && AllFit(s.w.transcript)
    && ReaderInv(s.w.transcript, s.r, s.log)
    && AcceptedInv(s.r, s.accepted)
    && DeliveredInv(s.w.transcript, s.r, s.delivered)
  }

  predicate AllFit(t: seq<Message>) {
    forall k :: 0 <= k < |t| ==> t[k].Fits()
  }

  lemma SendKeepsTranscript(w: Writer, op: Op)
    requires Inv(w)
    ensures w.transcript <= Do(w, op).transcript
    ensures AllFit(w.transcript) ==> AllFit(Do(w, op).transcript)
  {
    hide Inv, Writer.FlushFlight, Writer.Retransmit, Writer.WriteRecord, Writer.FinishMessage;
    InvMeansReady(w);
    match op
    case Flush(query, budget, flushOk) => FlightKeepsTranscript(w, query, budget, flushOk);
    case Retransmit(query, budget, flushOk) => FlightKeepsTranscript(w, query, budget, flushOk);
    case WriteAlert(plain, written) => RecordKeepsTranscript(w, RT_ALERT, plain, written);
    case WriteAppData(plain, written) => RecordKeepsTranscript(w, RT_APPLICATION_DATA, plain, written);
    case _ =>
  }

  lemma InvMeansReady(w: Writer)
    requires Inv(w)
    ensures w.CursorOk() && w.msgSeq < U16
  {
  }

  lemma FlightKeepsTranscript(w: Writer, query: Option<int>, budget: nat, flushOk: bool)
    requires Inv(w) && w.CursorOk()
    ensures w.FlushFlight(query, budget, flushOk).0.transcript == w.transcript
    ensures w.Retransmit(query, budget, flushOk).0.transcript == w.transcript
  {
    hide Inv, Writer.SendPackets;
    PreparedKeepsInv(w, query);
    PreparedIsSendable(w.(complete := true).UpdateMtu(query));
    PreparedIsSendable(w.Rewound().UpdateMtu(query));
    SendHonest(w.(complete := true).UpdateMtu(query), budget, flushOk);
    SendHonest(w.Rewound().UpdateMtu(query), budget, flushOk);
  }

  lemma PreparedIsSendable(w: Writer)
    requires Inv(w)
    ensures InFlight(w) && AllHonest(w.transcript, Records(w.sent))
  {
  }

  lemma RecordKeepsTranscript(w: Writer, rtype: nat, plain: Bytes, written: bool)
    ensures w.WriteRecord(rtype, plain, written).0.transcript == w.transcript
  {
    hide Writer.SealRecord;
    RecordKeepsCursor(w, rtype, plain, |plain| + RECORD_HEADER + w.aead.maxOverhead, false);
  }

  /** What the network delivers and opens is honest. */
  lemma DeliverableIsHonest(w: Writer, rec: Record)
    requires Inv(w) && |w.transcript| < U16 && Deliverable(w, rec) && rec.opens
    requires AllFit(w.transcript)
    ensures HonestRecord(w.transcript, rec)
  {
    hide ParseFragment;
    var j: nat :| OnNetwork(w, rec, j);
    var sent := Records(w.sent)[j];
    assert Honest(w.transcript, sent);
    if rec.rtype == RT_HANDSHAKE {
      var f := FragmentOf(sent).value;
      var k: nat, off: nat, len: nat :| IsSlice(w.transcript, f, k, off, len);
      assert Part(w.transcript, f, k, off, len);
    }
  }

  lemma {:induction false} FragmentsKeepCounters(r: Reader, plain: Bytes, maxLen: nat)
    requires |r.slots| == FLIGHT
    ensures var r' := r.OpenFragments(plain, maxLen).0; r' == r.(slots := r'.slots)
    decreases |plain|
  {
    hide ParseFragment;
    if plain == [] || ParseFragment(plain).None? {
    } else {
      var (f, rest) := ParseFragment(plain).value;
      if r.OpenFragment(f, maxLen).Some? {
        FragmentsKeepCounters(r.OpenFragment(f, maxLen).value, rest, maxLen);
      }
    }
  }

  lemma HandshakeKeepsCounters(r: Reader, rec: Record, maxLen: nat)
    requires |r.slots| == FLIGHT
    ensures var r' := r.OpenHandshake(rec, maxLen).0;
            r' == r.(slots := r'.slots, seen := r.OpenRecord(rec).0.seen, hasCcs := r'.hasCcs)
  {
    hide Reader.OpenFragments;
    FragmentsKeepCounters(r.OpenRecord(rec).0, rec.plain, maxLen);
  }

  /** A record is accepted only under a number never accepted before, in this epoch or an earlier one. */
  lemma AcceptedOnce(r: Reader, accepted: seq<nat>, rec: Record)
    requires AcceptedInv(r, accepted) && rec.Fits()
    ensures AcceptedInv(r.OpenRecord(rec).0, accepted + AcceptedBy(r, rec))
  {
    var r' := r.OpenRecord(rec).0;
    if r'.seen == r.seen {
      assert accepted + [] == accepted;
    } else {
      var n := rec.Number();
      assert n !in r.seen && n >= r.epoch * SEQ48;
      assert n !in accepted;
    }
  }

  lemma AcceptedFrame(r: Reader, r': Reader, accepted: seq<nat>)
    requires AcceptedInv(r, accepted) && r'.epoch == r.epoch && r'.seen == r.seen
    ensures AcceptedInv(r', accepted)
  {
  }

  lemma NewEpochForgets(r: Reader, accepted: seq<nat>)
    requires AcceptedInv(r, accepted) && r.epoch + 1 < U16
    ensures AcceptedInv(r.SetReadState(), accepted)
  {
  }

  lemma SendKeepsSysInv(s: Sys, op: Op)
    requires SysInv(s) && Enabled(s, Send(op))
    ensures SysInv(Next(s, Send(op)))
  {
    hide Inv, ReaderInv, AcceptedInv, Do, Allowed;
    DoKeepsInv(s.w, op);
    SendKeepsTranscript(s.w, op);
    LongerTranscript(s.w.transcript, Do(s.w, op).transcript, s.r, s.log);
  }

  lemma HandshakeKeepsSysInv(s: Sys, rec: Record, maxLen: nat)
    requires SysInv(s) && Deliverable(s.w, rec)
    ensures SysInv(Received(s, s.r.OpenHandshake(rec, maxLen).0, rec, maxLen))
  {
    hide Inv, ReaderInv, AcceptedInv, HonestRecord, Reader.OpenHandshake, Reader.OpenRecord, TakenFrom, AcceptedBy;
    if rec.opens {
      DeliverableIsHonest(s.w, rec);
    }
    HandshakeKeepsInv(s.w.transcript, s.r, s.log, rec, maxLen);
    HandshakeKeepsCounters(s.r, rec, maxLen);
    AcceptedOnce(s.r, s.accepted, rec);
    OpenRecordKeepsEpoch(s.r, rec);
    AcceptedFrame(s.r.OpenRecord(rec).0, s.r.OpenHandshake(rec, maxLen).0, s.accepted + AcceptedBy(s.r, rec));
  }

  lemma OpenRecordKeepsEpoch(r: Reader, rec: Record)
    ensures var r' := r.OpenRecord(rec).0; r' == r.(seen := r'.seen)
  {
  }

  lemma CcsFlagKeepsSysInv(s: Sys, hasCcs: bool)
    requires SysInv(s)
    ensures SysInv(s.(r := s.r.(hasCcs := hasCcs)))
  {
    hide Inv, ReaderInv, AcceptedInv;
    CcsKeepsInv(s.w.transcript, s.r, s.log, hasCcs);
    AcceptedFrame(s.r, s.r.(hasCcs := hasCcs), s.accepted);
  }

  lemma ReceiveCcsKeepsSysInv(s: Sys, rec: Record, maxLen: nat)
    requires SysInv(s) && Enabled(s, ReceiveCcs(rec, maxLen))
    ensures SysInv(Next(s, ReceiveCcs(rec, maxLen)))
  {
    hide SysInv, Reader.OpenHandshake, TakenFrom, AcceptedBy;
    if s.r.hasCcs {
      CcsFlagKeepsSysInv(s, false);
    } else {
      HandshakeKeepsSysInv(s, rec, maxLen);
      CcsFlagKeepsSysInv(Received(s, s.r.OpenHandshake(rec, maxLen).0, rec, maxLen), false);
    }
  }

  lemma AppDataKeepsSysInv(s: Sys, rec: Record, timeoutOk: bool)
    requires SysInv(s) && Enabled(s, ReceiveAppData(rec, timeoutOk))
    ensures SysInv(Next(s, ReceiveAppData(rec, timeoutOk)))
  {
    hide Inv, ReaderInv, AcceptedInv, ParseFragment, AcceptedBy;
    AcceptedOnce(s.r, s.accepted, rec);
    OpenRecordKeepsEpoch(s.r, rec);
    OpenRecordKeepsInv(s.w.transcript, s.r, s.log, rec);
  }

  lemma GetMessageKeepsSysInv(s: Sys)
    requires SysInv(s) && s.r.CurrentComplete()
    ensures SysInv(Next(s, GetMessage))
  {
    hide Inv, AcceptedInv, Covered, OneEpoch, Frag.Complete, Frag.Raw;
    HasMessageKeepsInv(s.w.transcript, s.r, s.log);
    AcceptedFrame(s.r, s.r.(hasMessage := true), s.accepted);
    if !s.r.hasMessage {
      var f := s.r.Current();
      assert s.r.SlotOk(s.r.readSeq % FLIGHT, f);
      SlotNumber(s.r, s.r.readSeq % FLIGHT);
      SameResidue(s.r.readSeq, f.seqNo, s.r.readSeq);
      RawIsTranscript(s.w.transcript, f);
    }
  }

  lemma NextMessageKeepsSysInv(s: Sys)
    requires SysInv(s) && s.r.hasMessage
    ensures SysInv(Next(s, NextMessage))
  {
    hide Inv, AcceptedInv, ReaderInv;
    NextMessageKeepsInv(s.w.transcript, s.r, s.log);
    AcceptedFrame(s.r, s.r.NextMessage(), s.accepted);
  }

  lemma SetReadStateKeepsSysInv(s: Sys)
    requires SysInv(s) && Enabled(s, SetReadState)
    ensures SysInv(Next(s, SetReadState))
  {
    hide Inv, AcceptedInv, ReaderInv, Reader.HasUnprocessed;
    SetReadStateKeepsInv(s.w.transcript, s.r, s.log);
    NewEpochForgets(s.r, s.accepted);
  }

  lemma StepKeepsSysInv(s: Sys, a: Action)
    requires SysInv(s) && Enabled(s, a)
    ensures SysInv(Next(s, a))
  {
    hide SysInv;
    match a
    case Send(op) => SendKeepsSysInv(s, op);
    case ReceiveHandshake(rec, maxLen) => HandshakeKeepsSysInv(s, rec, maxLen);
    case ReceiveCcs(rec, maxLen) => ReceiveCcsKeepsSysInv(s, rec, maxLen);
    case ReceiveAppData(rec, timeoutOk) => AppDataKeepsSysInv(s, rec, timeoutOk);
    case GetMessage => GetMessageKeepsSysInv(s);
    case NextMessage => NextMessageKeepsSysInv(s);
    case SetReadState => SetReadStateKeepsSysInv(s);
  }

  ghost predicate SysInit(s: Sys) {
    && Init(s.w)
    && s.r == Reader(0, {}, true, false, 0, false, seq(FLIGHT, _ => None))
    && s.log == [] && s.accepted == [] && s.delivered == []
  }

  ghost function Run(s: Sys, actions: seq<Action>): Option<Sys> {
    if actions == [] then Some(s)
    else match Run(s, actions[..|actions| - 1])
      case None => None
      case Some(v) =>
        var a := actions[|actions| - 1];
        if |v.r.slots| == FLIGHT && Enabled(v, a) && (a == GetMessage ==> v.r.Valid()) then Some(Next(v, a)) else None
  }

  lemma InitIsInv(w: Writer)
    requires Init(w)
    ensures Inv(w) && w.transcript == []
  {
    WriterRuns.EveryRun(w, []);
  }

  lemma SysInvMeans(s: Sys)
    requires SysInv(s)
    ensures forall k :: 0 <= k < |s.delivered| ==>
              k < |s.w.transcript| && s.w.transcript[k].Fits() && k < U16
              && s.delivered[k] == s.w.transcript[k].Bytes(k)
    ensures forall i :: 0 <= i < FLIGHT && s.r.slots[i].Some? ==>
              var f := s.r.slots[i].value;
              && f.seqNo % FLIGHT == i && s.r.readSeq <= f.seqNo < s.r.readSeq + FLIGHT
              && (f.Complete() <==> forall b: nat :: b < f.msgLen ==> Covered(s.log, f.seqNo, b))
    ensures OneEpoch(s.log)
    ensures forall i, j :: 0 <= i < j < |s.accepted| ==> s.accepted[i] != s.accepted[j]
  {
    hide Inv, OneEpoch, Covered, Faithful;
    forall i | 0 <= i < FLIGHT && s.r.slots[i].Some?
      ensures var f := s.r.slots[i].value;
              && f.seqNo % FLIGHT == i && s.r.readSeq <= f.seqNo < s.r.readSeq + FLIGHT
              && (f.Complete() <==> forall b: nat :: b < f.msgLen ==> Covered(s.log, f.seqNo, b))
    {
      var f := s.r.slots[i].value;
      assert s.r.SlotOk(i, f);
      assert SlotInv(s.w.transcript, s.r.epoch, s.log, f);
    }
  }

  /** Any number of sends and retransmissions at any MTU, with any write failures, epoch changes, loss, duplication
      and reordering:
      - the messages delivered are the transcript's, in order, once each, byte for byte;
      - a buffered message is complete exactly when the fragments put into it cover every byte;
      - every message is assembled from records of one read epoch;
      - no record number is accepted twice;
      - the ring slot of a buffered message is its number modulo 7. */
  lemma {:induction false} EveryRun(s: Sys, actions: seq<Action>)
    requires SysInit(s) && Run(s, actions).Some?
    ensures var s' := Run(s, actions).value;
            && SysInv(s')
            && (forall k :: 0 <= k < |s'.delivered| ==>
                  k < |s'.w.transcript| && s'.w.transcript[k].Fits() && k < U16
                  && s'.delivered[k] == s'.w.transcript[k].Bytes(k))
            && (forall i :: 0 <= i < FLIGHT && s'.r.slots[i].Some? ==>
                  var f := s'.r.slots[i].value;
                  && f.seqNo % FLIGHT == i && s'.r.readSeq <= f.seqNo < s'.r.readSeq + FLIGHT
                  && (f.Complete() <==> forall b: nat :: b < f.msgLen ==> Covered(s'.log, f.seqNo, b)))
            && OneEpoch(s'.log)
            && (forall i, j :: 0 <= i < j < |s'.accepted| ==> s'.accepted[i] != s'.accepted[j])
  {
    hide Next, Enabled, Inv, Init;
    if actions == [] {
      assert Inv(s.w) && s.w.transcript == [] by { InitIsInv(s.w); }
      assert forall i :: 0 <= i < FLIGHT ==> s.r.slots[i].None?;
    } else {
      var front := actions[..|actions| - 1];
      EveryRun(s, front);
      StepKeepsSysInv(Run(s, front).value, actions[|actions| - 1]);
    }
    SysInvMeans(Run(s, actions).value);
  }
}
