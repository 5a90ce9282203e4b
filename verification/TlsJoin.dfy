/** Two sides that follow one script over a reliable channel, whatever machines they are. */
module TlsJoin {
  import opened Wrappers
  import opened TlsMessages
  import opened TlsScript
  import S = TlsServer

  /** Side `server` stands before slot p with connection l, the other side before slot p' with l'. What is under
      way is exactly what lies between them, and their transcripts are those of the script. */
  ghost predicate Joined(st: Setting, server: bool, p: nat, l: Link, p': nat, l': Link) {
    && l.server == server && l'.server != server
    && l.inbox + l'.outbox == st.Wire(!server, p, p')
    && l'.inbox + l.outbox == st.Wire(server, p', p)
    && st.Silent(server, p, p') && st.Silent(!server, p', p)
    && l.transcript == st.Hashed(p) && l'.transcript == st.Hashed(p')
  }

  /** An act takes one side from slot p to slot r as the script says; q is the slot it reads, if it reads. */
  ghost predicate Fits(st: Setting, server: bool, act: Act, p: nat, q: nat, r: nat) {
    p <= r &&
    match act
    case Nothing => st.Quiet(p, r)
    case OpenCipher => st.Quiet(p, r)
    case Take => st.NextIs(p, q) && q < r && ByServer(q) != server && !IsCcs(q) && st.Quiet(q + 1, r)
    case TakeFinished => st.NextIs(p, q) && q < r && ByServer(q) != server && !IsCcs(q) && st.Quiet(q + 1, r)
    case Restart(_) => false
    case Say(kinds) =>
      && st.Silent(!server, p, r)
      && st.Wire(server, p, r) == Messages(kinds) && st.Hashed(r) == st.Hashed(p) + kinds
    case Finish(before, after) =>
      var hashed := st.Hashed(p) + before + after;
      && st.Silent(!server, p, r)
      && st.Wire(server, p, r) == Messages(before) + [Ccs] + Messages(after)
                                  + [Handshake(Finished, FinishedMac(server, hashed))]
      && st.Hashed(r) == hashed + [Finished]
  }

  ghost predicate Moves(st: Setting, server: bool, act: Act, p: int, q: int, r: int) {
    p >= 0 && q >= 0 && r >= 0 && Fits(st, server, act, p, q, r)
  }

  /** Slots with nothing from either side's channel do not matter to that channel. */
  lemma SilentShift(st: Setting, server: bool, p: nat, r: nat, p': nat)
    requires p <= r && st.Silent(server, p, r)
    ensures st.Wire(server, p, p') == st.Wire(server, r, p') && st.Wire(server, p', r) == st.Wire(server, p', p)
  {
    WireSilent(st, server, p, r);
    if r <= p' {
      WireSplit(st, server, p, r, p');
    } else {
      assert p <= p' ==> st.Silent(server, p, p');
      if p <= p' { WireSilent(st, server, p, p'); }
    }
    if p' <= p {
      WireSplit(st, server, p', p, r);
    } else if p' <= r {
      assert st.Silent(server, p', r);
      WireSilent(st, server, p', r);
    }
  }

  /** Sending: the other side cannot be past anything this side still has to send. */
  lemma SendKeepsJoined(st: Setting, server: bool, p: nat, l: Link, r: nat, p': nat, l': Link)
    requires Joined(st, server, p, l, p', l') && p <= r && st.Silent(!server, p, r)
    ensures Joined(st, server, r,
                   l.(outbox := l.outbox + st.Wire(server, p, r), transcript := st.Hashed(r)), p', l')
  {
    hide Setting.Present, ByServer, Setting.Hashed, Setting.Sends;
    SilentShift(st, !server, p, r, p');
    if p' <= p {
      WireSplit(st, server, p', p, r);
    } else if p' <= r {
      WireSplit(st, server, p, p', r);
      WireSilent(st, server, p, p');
    } else {
      assert st.Silent(server, p, r);
      WireSilent(st, server, p, r);
    }
    assert l'.inbox + (l.outbox + st.Wire(server, p, r)) == l'.inbox + l.outbox + st.Wire(server, p, r);
  }

  /** Receiving: the head of the inbox is the item in the next filled slot. */
  lemma ReceiveKeepsJoined(st: Setting, server: bool, p: nat, l: Link, q: nat, r: nat, p': nat, l': Link)
    requires Joined(st, server, p, l, p', l') && l.inbox != []
    requires st.NextIs(p, q) && q < r && ByServer(q) != server && st.Quiet(q + 1, r)
    ensures l.inbox[0] == st.ItemAt(q)
    ensures Joined(st, server, r, l.(inbox := l.inbox[1..], transcript := st.Hashed(r)), p', l')
  {
    hide Setting.Present, ByServer, Setting.Hashed, Setting.Sends, Setting.ItemAt;
    WireHead(st, !server, p, q, p');
    assert (l.inbox + l'.outbox)[0] == l.inbox[0];
    assert l.inbox[1..] + l'.outbox == (l.inbox + l'.outbox)[1..];
    SilentShift(st, !server, q + 1, r, p');
    SilentShift(st, server, q + 1, r, p');
    assert st.Silent(server, p, q + 1);
    SilentShift(st, server, p, q + 1, p');
  }

  lemma HashedTake(st: Setting, p: nat, q: nat, r: nat)
    requires st.NextIs(p, q) && q < r && st.Quiet(q + 1, r)
    ensures st.Hashed(q) == st.Hashed(p)
    ensures st.Hashed(r) == st.Hashed(p) + (if IsCcs(q) then [] else [st.KindAt(q)])
  {
    HashedQuiet(st, p, q);
    HashedQuiet(st, q + 1, r);
  }

  /** An act that fits the script keeps the two sides joined. */
  lemma ActKeepsJoined(st: Setting, server: bool, act: Act, p: nat, l: Link, q: nat, r: nat, p': nat, l': Link)
    requires Joined(st, server, p, l, p', l') && Fits(st, server, act, p, q, r) && l.CanDo(act)
    ensures Joined(st, server, r, l.Do(act), p', l')
  {
    hide Joined;
    match act
    case Nothing => QuietKeepsJoined(st, server, p, l, r, p', l');
    case OpenCipher =>
      QuietKeepsJoined(st, server, p, l, r, p', l');
      ProgressIsPrivate(st, server, r, l, p', l', l.ProgressAfter(act));
    case Take =>
      TakeKeepsJoined(st, server, act, p, l, q, r, p', l');
    case TakeFinished =>
      TakeKeepsJoined(st, server, act, p, l, q, r, p', l');
    case Say(kinds) =>
      assert l.transcript == st.Hashed(p) by { JoinedMeans(st, server, p, l, p', l'); }
      SendKeepsJoined(st, server, p, l, r, p', l');
    case Finish(before, after) =>
      JoinedMeans(st, server, p, l, p', l');
      SendKeepsJoined(st, server, p, l, r, p', l');
      var sent := l.(outbox := l.outbox + st.Wire(server, p, r), transcript := st.Hashed(r));
      ProgressIsPrivate(st, server, r, sent, p', l', l.ProgressAfter(act));
      var last := Handshake(Finished, FinishedMac(server, l.transcript + before + after));
      assert l.outbox + (Messages(before) + [Ccs] + Messages(after) + [last])
          == l.outbox + Messages(before) + [Ccs] + Messages(after) + [last];
  }

  lemma JoinedMeans(st: Setting, server: bool, p: nat, l: Link, p': nat, l': Link)
    requires Joined(st, server, p, l, p', l')
    ensures l.transcript == st.Hashed(p) && l.server == server
  {
  }

  lemma ProgressIsPrivate(st: Setting, server: bool, p: nat, l: Link, p': nat, l': Link, progress: Progress)
    requires Joined(st, server, p, l, p', l')
    ensures Joined(st, server, p, l.(progress := progress), p', l')
  {
  }

  lemma QuietKeepsJoined(st: Setting, server: bool, p: nat, l: Link, r: nat, p': nat, l': Link)
    requires Joined(st, server, p, l, p', l') && p <= r && st.Quiet(p, r)
    ensures Joined(st, server, r, l, p', l')
  {
    assert st.Silent(server, p, r) && st.Silent(!server, p, r);
    SendKeepsJoined(st, server, p, l, r, p', l');
    WireSilent(st, server, p, r);
    HashedQuiet(st, p, r);
    assert l.(outbox := l.outbox + [], transcript := st.Hashed(r)) == l;
  }

  lemma TakeKeepsJoined(st: Setting, server: bool, act: Act, p: nat, l: Link, q: nat, r: nat, p': nat, l': Link)
    requires Joined(st, server, p, l, p', l') && Fits(st, server, act, p, q, r) && l.CanDo(act)
    requires act.Take? || act.TakeFinished?
    ensures Joined(st, server, r, l.Do(act), p', l')
  {
    ReceiveKeepsJoined(st, server, p, l, q, r, p', l');
    HashedTake(st, p, q, r);
    ProgressIsPrivate(st, server, r, l.(inbox := l.inbox[1..], transcript := st.Hashed(r)),
                      p', l', l.ProgressAfter(act));
  }

  lemma JoinedIsSymmetric(st: Setting, server: bool, p: nat, l: Link, p': nat, l': Link)
    requires Joined(st, server, p, l, p', l')
    ensures Joined(st, !server, p', l', p, l)
  {
  }

  // The moves a machine's states make.

  lemma QuietOne(st: Setting, p: nat)
    requires !st.Present(p)
    ensures st.Quiet(p, p + 1)
  {
    hide Setting.Present;
  }

  /** The session decides which Finished phase comes first; the slots of the other order stay empty. */
  lemma Gaps(st: Setting)
    ensures !st.Resumed() ==> st.Quiet(EARLY_TICKET, CERT)
    ensures st.Resumed() ==> st.Quiet(CERT, CLIENT_CCS) && st.Quiet(TICKET, END)
  {
  }

  lemma Stays(st: Setting, server: bool, p: nat, q: nat)
    ensures Moves(st, server, Nothing, p, q, p) && Moves(st, server, OpenCipher, p, q, p)
  {
    hide Setting.Present;
  }

  lemma Passes(st: Setting, server: bool, p: nat, q: nat)
    requires !st.Present(p)
    ensures Moves(st, server, Nothing, p, q, p + 1)
  {
    hide Setting.Present;
  }

  lemma Jumps(st: Setting, server: bool, p: nat, q: nat, r: nat)
    requires p <= r && st.Quiet(p, r)
    ensures Moves(st, server, Nothing, p, q, r)
  {
    hide Setting.Present;
  }

  /** The message looked at is taken; it may lie beyond empty slots. */
  lemma Takes(st: Setting, server: bool, p: nat, q: nat, r: nat)
    requires st.NextIs(p, q) && q < r && ByServer(q) != server && !IsCcs(q) && st.Quiet(q + 1, r)
    ensures Moves(st, server, Take, p, q, r) && Moves(st, server, TakeFinished, p, q, r)
  {
    hide Setting.Present, ByServer, IsCcs;
  }

  lemma TakesOne(st: Setting, server: bool, p: nat)
    requires st.Present(p) && ByServer(p) != server && !IsCcs(p)
    ensures Moves(st, server, Take, p, p, p + 1) && Moves(st, server, TakeFinished, p, p, p + 1)
  {
    hide Setting.Present, ByServer, IsCcs;
  }

  lemma SaysOne(st: Setting, server: bool, p: nat, q: nat)
    requires st.Present(p) && ByServer(p) == server && !IsCcs(p) && st.KindAt(p) != Finished
    ensures Moves(st, server, Say([st.KindAt(p)]), p, q, p + 1)
  {
    SentInSlot(st, server, p);
    assert st.Hashed(p + 1) == st.Hashed(p) + st.Said(p);
    assert st.Said(p) == [st.KindAt(p)];
    hide Setting.Present, ByServer, IsCcs;
  }

  lemma SentInSlot(st: Setting, server: bool, p: nat)
    requires st.Present(p) && ByServer(p) == server && !IsCcs(p) && st.KindAt(p) != Finished
    ensures st.Wire(server, p, p + 1) == Messages([st.KindAt(p)])
    ensures st.Silent(!server, p, p + 1)
  {
    assert st.Wire(server, p, p + 1) == st.Wire(server, p, p) + st.Sends(server, p);
    assert st.Sends(server, p) == [st.ItemAt(p)];
    hide Setting.Present, ByServer, IsCcs;
    assert Messages([st.KindAt(p)]) == [Handshake(st.KindAt(p), NoMac)] + Messages([]);
  }

  /** Two turns to speak in a row make one. */
  lemma SaysMore(st: Setting, server: bool, a: seq<Kind>, b: seq<Kind>, p: nat, q: nat, m: nat, r: nat)
    requires Moves(st, server, Say(a), p, q, m) && Moves(st, server, Say(b), m, q, r)
    ensures Moves(st, server, Say(a + b), p, q, r)
  {
    hide Setting.Present, ByServer, Setting.Wire, Setting.Hashed, Messages;
    WireSplit(st, server, p, m, r);
    MessagesAppend(a, b);
    assert st.Hashed(p) + a + b == st.Hashed(p) + (a + b);
  }

  /** A message that is only sent when its slot is filled. */
  lemma SaysMaybe(st: Setting, server: bool, p: nat, q: nat)
    requires st.Present(p) ==> ByServer(p) == server && !IsCcs(p) && st.KindAt(p) != Finished
    ensures Moves(st, server, Say(S.When(st.Present(p), st.KindAt(p))), p, q, p + 1)
  {
    if st.Present(p) {
      SaysOne(st, server, p, q);
    } else {
      SaysNothing(st, server, p, q, p + 1);
    }
  }

  lemma SaysNothing(st: Setting, server: bool, p: nat, q: nat, r: nat)
    requires p <= r && (r == p + 1 ==> !st.Present(p)) && (r != p + 1 ==> st.Quiet(p, r))
    ensures Moves(st, server, Say([]), p, q, r)
  {
    if r == p + 1 { QuietOne(st, p); }
    QuietIsSilent(st, p, r);
    hide Setting.Present, ByServer, Setting.Wire, Setting.Hashed;
    WireSilent(st, server, p, r);
    HashedQuiet(st, p, r);
    assert st.Hashed(p) + [] == st.Hashed(p);
  }

  lemma QuietIsSilent(st: Setting, p: nat, r: nat)
    requires st.Quiet(p, r)
    ensures st.Silent(true, p, r) && st.Silent(false, p, r)
  {
    hide Setting.Present, ByServer;
  }
}
