/** The sending half of a DTLS connection: flights of handshake messages cut into records that fit the MTU.
    Functions on `Writer` values say what each step does; class `Dtls1Writer` of `DtlsSender` carries them out. */
module DtlsWriter {
  import opened Octets
  import opened Wrappers
  import opened DtlsWire

  const RECORD_HEADER: nat := 13  // DTLS1_RT_HEADER_LENGTH
  const MIN_MTU: nat := 228       // kMinMTU
  const DEFAULT_MTU: nat := 1472  // kDefaultMTU
  const CCS: Bytes := [1]

  /** An AEAD as dtls_seal_record sees it: `seal` yields the ciphertext length for a record of the given type and
      number, with so much room for it, or fails. What fails may succeed when it is tried again: the first argument
      counts the attempts. */
  datatype Aead = Aead(maxOverhead: nat, nonceLen: nat, seal: (nat, nat, nat, Bytes, nat) -> Option<nat>) {
    ghost predicate Meets() {
      && nonceLen <= maxOverhead
      && forall attempt, rtype, number, plain, room :: seal(attempt, rtype, number, plain, room).Some? ==>
           seal(attempt, rtype, number, plain, room).value <= room
           && seal(attempt, rtype, number, plain, room).value <= |plain| + maxOverhead
    }
  }

  /** A sealed record; `size` is its length on the wire, `sealer` the AEAD that sealed it. */
  datatype Sent = Sent(rtype: nat, epoch: nat, seqNo: nat, plain: Bytes, size: nat, sealer: Aead)

  type Packet = seq<Sent>

  function Size(p: Packet): nat {
    if p == [] then 0 else Size(p[..|p| - 1]) + p[|p| - 1].size
  }

  function Records(ps: seq<Packet>): seq<Sent> {
    if ps == [] then [] else Records(ps[..|ps| - 1]) + ps[|ps| - 1]
  }

  /** A handshake message as the state machine writes it. */
  datatype Message = Message(mtype: Byte, body: Bytes) {
    predicate Fits() {
      |body| < U24
    }

    /** The fragment of message number `n` that holds the `len` body bytes from `off`. */
    function Slice(n: nat, off: nat, len: nat): Fragment
      requires off + len <= |body|
    {
      Fragment(HmHeader(mtype, |body|, n, off, len), body[off..off + len])
    }

    /** The bytes that enter the transcript: the message as a single fragment. */
    function Bytes(n: nat): Bytes
      requires Fits() && n < U16
    {
      FragmentBytes(Slice(n, 0, |body|))
    }
  }

  /** DTLS_OUTGOING_MESSAGE. */
  datatype OutMsg = OutMsg(data: Bytes, epoch: nat, isCcs: bool)

  datatype SealResult = SealError | NoProgress | Partial(rec: Sent) | Sealed(rec: Sent)
  datatype PacketResult = Full(packet: Packet) | PacketError | MtuTooSmall
  datatype FlightResult = Flushed | Blocked | FlushFailed | Failed | TooSmall

  datatype Cursor = Cursor(written: nat, offset: nat)

  datatype Writer = Writer(
    mtu: nat,
    epoch: nat,               // w_epoch
    writeSeq: nat,            // write_sequence
    lastWriteSeq: nat,        // last_write_sequence
    aead: Aead,               // aead_write_ctx
    lastAead: Aead,           // last_aead_write_ctx
    msgSeq: nat,              // handshake_write_seq
    flight: seq<OutMsg>,      // outgoing_messages
    cursor: Cursor,           // outgoing_written and outgoing_offset
    complete: bool,           // outgoing_messages_complete
    attempts: nat,            // how often a record was to be sealed
    // History:
    transcript: seq<Message>, // every message added
    sent: seq<Packet>,        // every datagram the BIO took
    pass: seq<Packet>,        // those of them that hold flight messages, since the cursor was last rewound
    wrapped: bool,            // a record sequence number or the epoch has wrapped around
    lost: bool)               // a sealing error has struck since the cursor was last rewound
  {
    predicate CursorOk() {
      cursor.written <= |flight| && cursor.offset < U24
    }

    /** dtls1_init_message and dtls1_finish_message: the header's first length is filled in at the end. */
    function FinishMessage(m: Message): Bytes
      requires m.Fits() && msgSeq < U16
    {
      var out := [m.mtype] + BE3(0) + BE2(msgSeq) + BE3(0) + BE3(|m.body|) + m.body;
      out[..1] + out[HM_HEADER - 3..HM_HEADER] + out[4..]
    }

    /** dtls_clear_outgoing_messages. */
    function ClearFlight(): Writer {
      this.(flight := [], cursor := Cursor(0, 0), complete := false, pass := [], lost := false)
    }

    function Begun(): Writer {
      if complete then ClearFlight() else this
    }

    /** A handshake message is framed and added by add_outgoing. None: it is too long, or the flight is full. */
    function AddMessage(m: Message): Option<Writer>
      requires msgSeq < U16
    {
      var w := Begun();
      if !m.Fits() || |w.flight| >= FLIGHT then None
      else Some(w.(flight := w.flight + [OutMsg(w.FinishMessage(m), w.epoch, false)],
                   transcript := w.transcript + [m],
                   msgSeq := (w.msgSeq + 1) % U16))
    }

    /** add_outgoing for a ChangeCipherSpec. */
    function AddChangeCipherSpec(): Option<Writer> {
      var w := Begun();
      if |w.flight| >= FLIGHT then None
      else Some(w.(flight := w.flight + [OutMsg([], w.epoch, true)]))
    }

    /** dtls1_set_write_state. */
    function SetWriteState(next: Aead): Writer {
      this.(epoch := (epoch + 1) % U16, lastWriteSeq := writeSeq, writeSeq := 0, lastAead := aead, aead := next,
            wrapped := wrapped || epoch + 1 >= U16)
    }

    /** A record was sealed, and `next` is the number after it. */
    function Counted(next: nat, previous: bool): Writer {
      var w := this.(attempts := attempts + 1, wrapped := wrapped || next == 0);
      if previous then w.(lastWriteSeq := next) else w.(writeSeq := next)
    }

    /** dtls_seal_record. A record number that wraps to zero fails the call but stays wrapped. */
    function SealRecord(rtype: nat, plain: Bytes, maxOut: nat, previous: bool): (r: (Writer, Option<Sent>))
      requires previous ==> epoch >= 1
      ensures r.0.flight == flight && r.0.cursor == cursor
    {
      var e := if previous then epoch - 1 else epoch;
      var a := if previous then lastAead else aead;
      var s := if previous then lastWriteSeq else writeSeq;
      if maxOut < RECORD_HEADER then (this, None)
      else match a.seal(attempts, rtype, e * SEQ48 + s, plain, maxOut - RECORD_HEADER)
        case None => (this.(attempts := attempts + 1), None)
        case Some(n) =>
          var s' := (s + 1) % SEQ48;
          var w := Counted(s', previous);
          if s' == 0 || n >= U16 then (w, None)
          else (w, Some(Sent(rtype, e, s, plain, RECORD_HEADER + n, a)))
    }

    /** dtls_max_seal_overhead. */
    function Overhead(previous: bool): nat {
      RECORD_HEADER + (if previous then lastAead else aead).maxOverhead
    }

    /** dtls_seal_prefix_len. */
    function Prefix(previous: bool): nat {
      RECORD_HEADER + (if previous then lastAead else aead).nonceLen
    }

    /** seal_next_message on the message at the cursor. */
    function SealNextMessage(maxOut: nat): (r: (Writer, SealResult))
      requires cursor.written < |flight|
      ensures r.0.flight == flight && r.0.cursor.written == cursor.written
    {
      var msg := flight[cursor.written];
      var previous := epoch >= 1 && msg.epoch == epoch - 1;
      if !previous && msg.epoch != epoch then (this, SealError)
      else if msg.isCcs then SealChangeCipherSpec(maxOut, previous)
      else
        match ParseFragment(msg.data)
        case None => (this, SealError)
        case Some((f, rest)) =>
          if f.header.fragOff != 0 || f.header.msgLen != |f.body| || cursor.offset > |f.body| || rest != []
          then (this, SealError)
          else SealFragment(f, maxOut, previous)
    }

    function SealChangeCipherSpec(maxOut: nat, previous: bool): (r: (Writer, SealResult))
      requires previous ==> epoch >= 1
      ensures r.0.flight == flight && r.0.cursor == cursor
    {
      if maxOut < 1 + Overhead(previous) then (this, NoProgress)
      else
        var (w, rec) := SealRecord(RT_CHANGE_CIPHER_SPEC, CCS, maxOut, previous);
        (w, if rec.None? then SealError else Sealed(rec.value))
    }

    /** How many body bytes the next fragment takes. */
    function Todo(left: nat, maxOut: nat, previous: bool): nat
      requires maxOut >= HM_HEADER + 1 + Overhead(previous)
    {
      var room := maxOut - HM_HEADER - Overhead(previous);
      if left > room then room else left
    }

    function SealFragment(whole: Fragment, maxOut: nat, previous: bool): (r: (Writer, SealResult))
      requires previous ==> epoch >= 1
      requires whole.Fits() && cursor.offset <= |whole.body|
      ensures r.0.flight == flight && r.0.cursor.written == cursor.written
    {
      if maxOut < HM_HEADER + 1 + Overhead(previous) || maxOut < Prefix(previous) then (this, NoProgress)
      else
        var left := |whole.body| - cursor.offset;
        var todo := Todo(left, maxOut, previous);
        if HM_HEADER + todo > maxOut - Prefix(previous) then (this, SealError)
        else
          var (w, rec) := SealRecord(RT_HANDSHAKE, FragmentBytes(Part(whole, todo)), maxOut, previous);
          if rec.None? then (w, SealError)
          else if todo == left then (w.(cursor := Cursor(cursor.written, 0)), Sealed(rec.value))
          else (w.(cursor := Cursor(cursor.written, cursor.offset + todo)), Partial(rec.value))
    }

    /** The fragment with the next `todo` bytes of a message. */
    function Part(whole: Fragment, todo: nat): (r: Fragment)
      requires whole.Fits() && cursor.offset + todo <= |whole.body|
      ensures r.Fits()
    {
      Fragment(whole.header.(fragOff := cursor.offset, fragLen := todo),
               whole.body[cursor.offset..cursor.offset + todo])
    }

    /** The loop of seal_next_packet, with `packet` already filled. None means an error. */
    function SealMore(maxOut: nat, packet: Packet): (r: (Writer, Option<Packet>))
      decreases |flight| - cursor.written
    {
      if cursor.written >= |flight| then (this, Some(packet))
      else
        var (w, result) := SealNextMessage(maxOut);
        match result
        case SealError => (w.(lost := w.lost || packet != []), None)
        case NoProgress => (w, Some(packet))
        case Partial(rec) => (w, Some(packet + [rec]))
        case Sealed(rec) =>
          w.Past().SealMore(if rec.size <= maxOut then maxOut - rec.size else 0, packet + [rec])
    }

    /** outgoing_written++. */
    function Past(): Writer {
      this.(cursor := Cursor(cursor.written + 1, cursor.offset))
    }

    /** seal_next_packet. */
    function SealNextPacket(maxOut: nat): (Writer, PacketResult) {
      var (w, packet) := SealMore(maxOut, []);
      (w, if packet.None? then PacketError else if packet.value == [] then MtuTooSmall else Full(packet.value))
    }

    /** dtls1_update_mtu; `query` is the BIO's answer, None when SSL_OP_NO_QUERY_MTU is set. */
    function UpdateMtu(query: Option<int>): Writer {
      if mtu >= MIN_MTU || query.None? then this
      else this.(mtu := if MIN_MTU <= query.value <= 0x4000_0000 then query.value else DEFAULT_MTU)
    }

    /** The loop of send_flight, when the BIO takes `budget` datagrams before a write fails. */
    function SendPackets(budget: nat, flushOk: bool): (Writer, FlightResult)
      requires CursorOk()
      decreases |flight| - cursor.written, U24 - cursor.offset
    {
      if cursor.written >= |flight| then (this, if flushOk then Flushed else FlushFailed)
      else
        var (w, result) := SealNextPacket(mtu);
        match result
        case PacketError => (w, Failed)
        case MtuTooSmall => (w, TooSmall)
        case Full(packet) =>
          PacketMovesCursor(this, mtu);
          if budget == 0 then (w.(cursor := cursor), Blocked)
          else w.Wrote(packet).SendPackets(budget - 1, flushOk)
    }

    /** BIO_write took a datagram of the flight. */
    function Wrote(packet: Packet): Writer {
      this.(sent := sent + [packet], pass := pass + [packet])
    }

    /** dtls1_flush_flight: send_flight from the cursor. */
    function FlushFlight(query: Option<int>, budget: nat, flushOk: bool): (Writer, FlightResult)
      requires CursorOk()
    {
      this.(complete := true).UpdateMtu(query).SendPackets(budget, flushOk)
    }

    /** dtls1_retransmit_outgoing_messages: send_flight from the start of the flight. */
    function Retransmit(query: Option<int>, budget: nat, flushOk: bool): (Writer, FlightResult) {
      Rewound().UpdateMtu(query).SendPackets(budget, flushOk)
    }

    function Rewound(): Writer {
      this.(cursor := Cursor(0, 0), pass := [], lost := false)
    }

    /** dtls1_write_record in the current epoch, for application data and alerts. */
    function WriteRecord(rtype: nat, plain: Bytes, written: bool): (Writer, bool) {
      if |plain| > MAX_PLAIN then (this, false)
      else
        var (w, rec) := SealRecord(rtype, plain, |plain| + RECORD_HEADER + aead.maxOverhead, false);
        if rec.None? || !written then (w, false) else (w.(sent := sent + [[rec.value]]), true)
    }
  }

  /** Sealing changes nothing but the counters and the cursor. */
  ghost predicate SameButCounters(w: Writer, w': Writer) {
    w' == w.(writeSeq := w'.writeSeq, lastWriteSeq := w'.lastWriteSeq, wrapped := w'.wrapped,
             attempts := w'.attempts, cursor := w'.cursor, lost := w'.lost)
  }

  predicate Later(c: Cursor, c': Cursor) {
    c.written < c'.written || (c.written == c'.written && c.offset < c'.offset)
  }

  lemma RecordKeepsCursor(w: Writer, rtype: nat, plain: Bytes, maxOut: nat, previous: bool)
    requires previous ==> w.epoch >= 1
    ensures var w' := w.SealRecord(rtype, plain, maxOut, previous).0;
            SameButCounters(w, w') && w'.cursor == w.cursor && w'.lost == w.lost
  {
  }

  lemma RecordKeepsType(w: Writer, rtype: nat, plain: Bytes, maxOut: nat, previous: bool)
    requires previous ==> w.epoch >= 1
    ensures var rec := w.SealRecord(rtype, plain, maxOut, previous).1;
            rec.Some? ==>
              && rec.value.rtype == rtype && rec.value.plain == plain
              && rec.value.epoch == (if previous then w.epoch - 1 else w.epoch)
              && rec.value.sealer == (if previous then w.lastAead else w.aead)
  {
  }

  lemma SealMovesCursor(w: Writer, maxOut: nat)
    requires w.CursorOk() && w.cursor.written < |w.flight|
    ensures var (w', r) := w.SealNextMessage(maxOut);
            && SameButCounters(w, w') && w'.CursorOk()
            && w'.cursor.written == w.cursor.written && w'.lost == w.lost
            && (r.Partial? ==> w'.cursor.offset > w.cursor.offset)
            && (r.NoProgress? ==> w' == w)
            && (r.SealError? ==> w'.cursor == w.cursor)
  {
    hide Writer.SealRecord, Writer.SealFragment, ParseFragment;
    var msg := w.flight[w.cursor.written];
    var previous := w.epoch >= 1 && msg.epoch == w.epoch - 1;
    RecordKeepsCursor(w, RT_CHANGE_CIPHER_SPEC, CCS, maxOut, previous);
    var parsed := ParseFragment(msg.data);
    if (previous || msg.epoch == w.epoch) && parsed.Some? && w.cursor.offset <= |parsed.value.0.body| {
      FragmentMovesCursor(w, parsed.value.0, maxOut, previous);
    }
  }

  lemma FragmentMovesCursor(w: Writer, whole: Fragment, maxOut: nat, previous: bool)
    requires w.CursorOk() && (previous ==> w.epoch >= 1)
    requires whole.Fits() && w.cursor.offset <= |whole.body|
    ensures var (w', r) := w.SealFragment(whole, maxOut, previous);
            && SameButCounters(w, w') && w'.CursorOk()
            && w'.cursor.written == w.cursor.written && w'.lost == w.lost
            && (r.Partial? ==> w'.cursor.offset > w.cursor.offset)
            && (r.NoProgress? ==> w' == w)
            && (r.SealError? ==> w'.cursor == w.cursor)
  {
    hide Writer.SealRecord, FragmentBytes;
    forall plain
      ensures var w' := w.SealRecord(RT_HANDSHAKE, plain, maxOut, previous).0;
              SameButCounters(w, w') && w'.cursor == w.cursor && w'.lost == w.lost
    {
      RecordKeepsCursor(w, RT_HANDSHAKE, plain, maxOut, previous);
    }
  }

  lemma {:induction false} MoreMovesCursor(w: Writer, maxOut: nat, packet: Packet)
    requires w.CursorOk()
    ensures var (w', p) := w.SealMore(maxOut, packet);
            && SameButCounters(w, w') && w'.CursorOk()
            && (p.Some? ==> packet <= p.value && w'.lost == w.lost)
            && (p.Some? && p.value == packet ==> w' == w)
            && (p.Some? && p.value != packet ==> Later(w.cursor, w'.cursor))
            && (p.None? ==> w'.lost || (packet == [] && w'.cursor == w.cursor))
            && (w.lost ==> w'.lost)
    decreases |w.flight| - w.cursor.written
  {
    hide Writer.SealNextMessage;
    if w.cursor.written >= |w.flight| {
    } else {
      SealMovesCursor(w, maxOut);
      var (v, r) := w.SealNextMessage(maxOut);
      if r.Sealed? {
        MoreMovesCursor(v.Past(), if r.rec.size <= maxOut then maxOut - r.rec.size else 0, packet + [r.rec]);
      }
    }
  }

  /** The lexicographic measure of send_flight: every full packet moves the cursor forward. */
  lemma PacketMovesCursor(w: Writer, maxOut: nat)
    requires w.CursorOk()
    ensures var (w', r) := w.SealNextPacket(maxOut);
            && SameButCounters(w, w') && w'.CursorOk()
            && (!r.PacketError? ==> w'.lost == w.lost)
            && (r.MtuTooSmall? ==> w' == w)
            && (r.Full? ==> Later(w.cursor, w'.cursor))
            && (r.PacketError? ==> w'.lost || w'.cursor == w.cursor)
            && (w.lost ==> w'.lost)
  {
    hide Writer.SealNextMessage;
    MoreMovesCursor(w, maxOut, []);
    assert w.SealNextPacket(maxOut).0 == w.SealMore(maxOut, []).0;
  }
}
