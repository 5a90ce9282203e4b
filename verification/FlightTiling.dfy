/** What a flight looks like on the wire: the records written cover its messages contiguously, in order and once. */
module FlightTiling {
  import opened Octets
  import opened Wrappers
  import opened DtlsWire
  import opened DtlsWriter

  /** The message parses as a single fragment holding all of it. */
  predicate WellFormed(m: OutMsg) {
    m.isCcs ||
    match ParseFragment(m.data)
    case None => false
    case Some((f, rest)) => f.header.fragOff == 0 && f.header.msgLen == |f.body| && rest == []
  }

  function Whole(m: OutMsg): (f: Fragment)
    requires WellFormed(m) && !m.isCcs
    ensures f.Fits()
  {
    ParseFragment(m.data).value.0
  }

  predicate FlightOk(flight: seq<OutMsg>) {
    forall i :: 0 <= i < |flight| ==> WellFormed(flight[i])
  }

  /** The cursor rests on a message, at 0 or strictly inside its body, or at the end of the flight. */
  predicate InRange(flight: seq<OutMsg>, c: Cursor)
    requires FlightOk(flight)
  {
    && c.written <= |flight|
    && (c.offset != 0 ==>
          c.written < |flight| && !flight[c.written].isCcs && c.offset < |Whole(flight[c.written]).body|)
  }

  /** The handshake fragment that a record consists of. */
  function FragmentOf(rec: Sent): Option<Fragment> {
    if rec.rtype != RT_HANDSHAKE then None
    else match ParseFragment(rec.plain)
      case None => None
      case Some((f, rest)) => if rest == [] then Some(f) else None
  }

  /** `f` is the part of `whole` that starts at `off`; it is empty only if `whole` is. */
  predicate IsPart(whole: Fragment, off: nat, f: Fragment) {
    && f.header == whole.header.(fragOff := off, fragLen := |f.body|)
    && off + |f.body| <= |whole.body|
    && f.body == whole.body[off..off + |f.body|]
    && (f.body == [] ==> whole.body == [])
  }

  /** Where the cursor goes when `rec` is exactly what is due at `c`, in the epoch of its message. */
  function Due(flight: seq<OutMsg>, c: Cursor, rec: Sent): Option<Cursor>
    requires FlightOk(flight)
  {
    if c.written >= |flight| || rec.epoch != flight[c.written].epoch then None
    else if flight[c.written].isCcs then
      if rec.rtype == RT_CHANGE_CIPHER_SPEC && rec.plain == CCS then Some(Cursor(c.written + 1, 0)) else None
    else
      var whole := Whole(flight[c.written]);
      match FragmentOf(rec)
      case None => None
      case Some(f) =>
        if !IsPart(whole, c.offset, f) then None
        else if c.offset + |f.body| == |whole.body| then Some(Cursor(c.written + 1, 0))
        else Some(Cursor(c.written, c.offset + |f.body|))
  }

  /** Where the records `recs` take the cursor from the start of the flight, if each is due when it comes. */
  function Follow(flight: seq<OutMsg>, recs: seq<Sent>): Option<Cursor>
    requires FlightOk(flight)
  {
    if recs == [] then Some(Cursor(0, 0))
    else match Follow(flight, recs[..|recs| - 1])
      case None => None
      case Some(c) => Due(flight, c, recs[|recs| - 1])
  }

  lemma FollowOne(flight: seq<OutMsg>, recs: seq<Sent>, rec: Sent)
    requires FlightOk(flight) && Follow(flight, recs).Some?
    ensures Follow(flight, recs + [rec]) == Due(flight, Follow(flight, recs).value, rec)
  {
    assert (recs + [rec])[..|recs + [rec]| - 1] == recs;
  }

  ghost predicate Tiling(w: Writer, recs: seq<Sent>) {
    && FlightOk(w.flight) && InRange(w.flight, w.cursor)
    && Follow(w.flight, recs) == Some(w.cursor)
  }

  /** One call of seal_next_message seals exactly what is due. */
  lemma SealedIsDue(w: Writer, maxOut: nat)
    requires FlightOk(w.flight) && InRange(w.flight, w.cursor) && w.cursor.written < |w.flight|
    ensures var (w', r) := w.SealNextMessage(maxOut);
            && (r.Sealed? ==> Due(w.flight, w.cursor, r.rec) == Some(w'.Past().cursor) && w'.cursor.offset == 0)
            && (r.Partial? ==> Due(w.flight, w.cursor, r.rec) == Some(w'.cursor) && InRange(w.flight, w'.cursor))
  {
    hide ParseFragment, Writer.SealFragment;
    var msg := w.flight[w.cursor.written];
    var previous := w.epoch >= 1 && msg.epoch == w.epoch - 1;
    if !msg.isCcs && (previous || msg.epoch == w.epoch) {
      FragmentIsDue(w, maxOut, previous);
    }
  }

  lemma FragmentIsDue(w: Writer, maxOut: nat, previous: bool)
    requires FlightOk(w.flight) && InRange(w.flight, w.cursor) && w.cursor.written < |w.flight|
    requires !w.flight[w.cursor.written].isCcs && (previous ==> w.epoch >= 1)
    requires w.flight[w.cursor.written].epoch == if previous then w.epoch - 1 else w.epoch
    ensures var (w', r) := w.SealFragment(Whole(w.flight[w.cursor.written]), maxOut, previous);
            && (r.Sealed? ==> Due(w.flight, w.cursor, r.rec) == Some(w'.Past().cursor) && w'.cursor.offset == 0)
            && (r.Partial? ==> Due(w.flight, w.cursor, r.rec) == Some(w'.cursor) && InRange(w.flight, w'.cursor))
  {
    hide ParseFragment, FragmentBytes, Writer.SealRecord, WellFormed, Due, Whole, IsPart;
    var whole := Whole(w.flight[w.cursor.written]);
    if maxOut >= HM_HEADER + 1 + w.Overhead(previous) {
      var todo := w.Todo(|whole.body| - w.cursor.offset, maxOut, previous);
      var part := w.Part(whole, todo);
      RecordKeepsCursor(w, RT_HANDSHAKE, FragmentBytes(part), maxOut, previous);
      RecordKeepsType(w, RT_HANDSHAKE, FragmentBytes(part), maxOut, previous);
      var rec := w.SealRecord(RT_HANDSHAKE, FragmentBytes(part), maxOut, previous).1;
      if rec.Some? {
        PartIsDue(w, todo, rec.value);
      }
    }
  }

  /** A record that holds the next `todo` bytes of the message at the cursor is due there. */
  lemma PartIsDue(w: Writer, todo: nat, rec: Sent)
    requires FlightOk(w.flight) && InRange(w.flight, w.cursor) && w.cursor.written < |w.flight|
    requires !w.flight[w.cursor.written].isCcs && w.cursor.offset + todo <= |Whole(w.flight[w.cursor.written]).body|
    requires todo > 0 || Whole(w.flight[w.cursor.written]).body == []
    requires rec.rtype == RT_HANDSHAKE && rec.epoch == w.flight[w.cursor.written].epoch
    requires rec.plain == FragmentBytes(w.Part(Whole(w.flight[w.cursor.written]), todo))
    ensures Due(w.flight, w.cursor, rec)
         == Some(if w.cursor.offset + todo == |Whole(w.flight[w.cursor.written]).body|
                      then Cursor(w.cursor.written + 1, 0)
                 else Cursor(w.cursor.written, w.cursor.offset + todo))
  {
    hide ParseFragment, FragmentBytes, WellFormed;
    var whole := Whole(w.flight[w.cursor.written]);
    var part := w.Part(whole, todo);
    ParseInvertsWrite(part, []);
    assert FragmentBytes(part) + [] == FragmentBytes(part);
    assert IsPart(whole, w.cursor.offset, part);
  }

  lemma {:induction false} MoreTiles(w: Writer, maxOut: nat, packet: Packet, before: seq<Sent>)
    requires w.CursorOk() && Tiling(w, before + packet)
    ensures var (w', p) := w.SealMore(maxOut, packet);
            p.Some? ==> Tiling(w', before + p.value)
    decreases |w.flight| - w.cursor.written
  {
    hide Writer.SealNextMessage, Due, Follow, FlightOk;
    if w.cursor.written >= |w.flight| {
    } else {
      SealMovesCursor(w, maxOut);
      SealedIsDue(w, maxOut);
      var (v, r) := w.SealNextMessage(maxOut);
      if r.Sealed? || r.Partial? {
        FollowOne(w.flight, before + packet, r.rec);
        assert before + packet + [r.rec] == before + (packet + [r.rec]);
      }
      if r.Sealed? {
        MoreTiles(v.Past(), if r.rec.size <= maxOut then maxOut - r.rec.size else 0, packet + [r.rec], before);
      }
    }
  }

  lemma PacketTiles(w: Writer, maxOut: nat)
    requires w.CursorOk() && Tiling(w, Records(w.pass))
    ensures var (w', r) := w.SealNextPacket(maxOut);
            r.Full? ==> Tiling(w'.Wrote(r.packet), Records(w.pass + [r.packet]))
  {
    hide Writer.SealNextMessage;
    assert Records(w.pass) + [] == Records(w.pass);
    MoreTiles(w, maxOut, [], Records(w.pass));
    var (v, r) := w.SealNextPacket(maxOut);
    assert v == w.SealMore(maxOut, []).0;
    if r.Full? {
      assert (w.pass + [r.packet])[..|w.pass + [r.packet]| - 1] == w.pass;
    }
  }

  /** Byte i of message k lies before the cursor. */
  predicate Passed(c: Cursor, k: nat, i: nat) {
    k < c.written || (k == c.written && i < c.offset)
  }

  /** Record j, when its turn comes, carries byte i of message k. */
  ghost predicate Carries(flight: seq<OutMsg>, recs: seq<Sent>, j: nat, k: nat, i: nat)
    requires FlightOk(flight)
  {
    && j < |recs|
    && Follow(flight, recs[..j]).Some?
    && CarriesFrom(flight, Follow(flight, recs[..j]).value, recs[j], k, i)
  }

  ghost predicate CarriesFrom(flight: seq<OutMsg>, c: Cursor, rec: Sent, k: nat, i: nat)
    requires FlightOk(flight)
  {
    && c.written == k < |flight| && !flight[k].isCcs && i < |Whole(flight[k]).body|
    && FragmentOf(rec).Some?
    && var f := FragmentOf(rec).value;
       && f.header.fragOff == c.offset <= i < c.offset + |f.body|
       && f.body[i - c.offset] == Whole(flight[k]).body[i]
  }

  lemma DueCarries(flight: seq<OutMsg>, c: Cursor, rec: Sent, k: nat, i: nat)
    requires FlightOk(flight) && Due(flight, c, rec).Some?
    requires k < |flight| && !flight[k].isCcs && i < |Whole(flight[k]).body|
    ensures CarriesFrom(flight, c, rec, k, i) <==> Passed(Due(flight, c, rec).value, k, i) && !Passed(c, k, i)
  {
    hide ParseFragment;
  }

  lemma CarriesInPrefix(flight: seq<OutMsg>, recs: seq<Sent>, j: nat, k: nat, i: nat)
    requires FlightOk(flight) && recs != [] && j < |recs| - 1
    ensures Carries(flight, recs, j, k, i) <==> Carries(flight, recs[..|recs| - 1], j, k, i)
  {
    assert recs[..|recs| - 1][..j] == recs[..j];
  }

  /** Each byte before the cursor is carried, unaltered, by exactly one record; no byte after it is carried. */
  lemma {:induction false} CarriedOnce(flight: seq<OutMsg>, recs: seq<Sent>, k: nat, i: nat)
    requires FlightOk(flight) && Follow(flight, recs).Some?
    requires k < |flight| && !flight[k].isCcs && i < |Whole(flight[k]).body|
    ensures Passed(Follow(flight, recs).value, k, i) <==> exists j: nat :: Carries(flight, recs, j, k, i)
    ensures forall j: nat, j': nat :: Carries(flight, recs, j, k, i) && Carries(flight, recs, j', k, i) ==> j == j'
    decreases |recs|
  {
    hide Due, CarriesFrom;
    if recs == [] {
    } else {
      var n := |recs| - 1;
      var c := Follow(flight, recs[..n]).value;
      CarriedOnce(flight, recs[..n], k, i);
      DueCarries(flight, c, recs[n], k, i);
      PassedStays(flight, c, recs[n], k, i);
      forall j: nat | j < n ensures Carries(flight, recs, j, k, i) <==> Carries(flight, recs[..n], j, k, i) {
        CarriesInPrefix(flight, recs, j, k, i);
      }
      assert Carries(flight, recs, n, k, i) <==> CarriesFrom(flight, c, recs[n], k, i);
      if j: nat :| Carries(flight, recs[..n], j, k, i) {
        assert Carries(flight, recs, j, k, i);
      }
    }
  }

  lemma PassedStays(flight: seq<OutMsg>, c: Cursor, rec: Sent, k: nat, i: nat)
    requires FlightOk(flight) && Due(flight, c, rec).Some?
    ensures Passed(c, k, i) ==> Passed(Due(flight, c, rec).value, k, i)
  {
    hide ParseFragment;
  }
}
