/** The client machine and the server machine joined by a reliable channel. */
module TlsComposition {
  import opened Wrappers
  import opened TlsMessages
  import R = TlsRuns
  import opened TlsScript
  import opened TlsJoin
  import C = TlsClient
  import S = TlsServer
  import CS = TlsClientScript
  import SS = TlsServerScript

  /** What one side has flushed is in the other side's inbox. */
  datatype Sys = Sys(c: C.Client, s: S.Server) {
    /** One turn of the client. */
    function ClientTurn(o: Oracle): Sys {
      Sys(c.Turn(o), if c.wait.Flush? && o.flushes then s.(link := Delivered(s.link, c.link.outbox)) else s)
    }

    /** One turn of the server. */
    function ServerTurn(o: Oracle): Sys {
      Sys(if s.wait.Flush? && o.flushes then c.(link := Delivered(c.link, s.link.outbox)) else c, s.Turn(o))
    }
  }

  function Delivered(l: Link, items: seq<Item>): Link {
    l.(inbox := l.inbox + items)
  }

  function ClientSlot(st: Setting, c: C.Client): int {
    CS.Slot(st, c.hs.state, c.wait.AwaitCcs?)
  }

  function ServerSlot(st: Setting, s: S.Server): int {
    SS.Slot(st, s.hs.state, s.wait.AwaitCcs?)
  }

  ghost predicate Inv(st: Setting, y: Sys) {
    && st.Agreed()
    && CS.OnScript(st, y.c.hs, y.c.wait) && SS.OnScript(st, y.s.hs, y.s.wait)
    && C.PhaseOk(y.c) && S.PhaseOk(y.s)
    && (CS.Holds(y.c.hs.state, y.c.wait) || y.c.link.outbox == [])
    && (SS.Holds(y.s.hs.state, y.s.wait) || y.s.link.outbox == [])
    && ClientSlot(st, y.c) >= 0 && ServerSlot(st, y.s) >= 0
    && Joined(st, false, ClientSlot(st, y.c), y.c.link, ServerSlot(st, y.s), y.s.link)
  }

  function Start(st: Setting): Sys {
    Sys(C.Start(st.client), S.Start(st.server))
  }

  lemma StartIsInv(st: Setting)
    requires st.Agreed()
    ensures Inv(st, Start(st))
  {
    var y := Start(st);
    assert ClientSlot(st, y.c) == 0 && ServerSlot(st, y.s) == 0;
    assert st.Wire(true, 0, 0) == [] && st.Wire(false, 0, 0) == [] && st.Hashed(0) == [];
  }

  /** A message that has arrived is the one in slot q, with the verify data the reader will compute. */
  lemma HeadIs(st: Setting, server: bool, p: nat, l: Link, q: nat, p': nat, l': Link)
    requires Joined(st, server, p, l, p', l') && l.inbox != []
    requires st.NextIs(p, q) && ByServer(q) != server
    ensures l.inbox[0] == st.ItemAt(q)
    ensures !IsCcs(q) ==> l.Peek() == Some(st.KindAt(q)) && (st.KindAt(q) == Finished ==> l.FinishedChecks())
  {
    hide Setting.Present, Setting.KindAt, ByServer, IsCcs;
    ReceiveKeepsJoined(st, server, p, l, q, q + 1, p', l');
    HashedQuiet(st, p, q);
  }

  /** Flushing moves the outbox into the other side's inbox. */
  lemma FlushKeepsJoined(st: Setting, server: bool, p: nat, l: Link, p': nat, l': Link)
    requires Joined(st, server, p, l, p', l')
    ensures Joined(st, server, p, l.(outbox := []), p', Delivered(l', l.outbox))
  {
    hide Setting.Wire, Setting.Hashed;
    assert l'.inbox + l.outbox + [] == l'.inbox + l.outbox;
  }

  lemma CcsKeepsJoined(st: Setting, server: bool, p: nat, l: Link, p': nat, l': Link)
    requires Joined(st, server, p, l, p', l') && l.inbox != []
    requires st.NextIs(p, p) && ByServer(p) != server && IsCcs(p)
    ensures l.inbox[0] == Ccs && Joined(st, server, p + 1, l.(inbox := l.inbox[1..]), p', l')
  {
    hide Setting.Present, Setting.KindAt, ByServer;
    ReceiveKeepsJoined(st, server, p, l, p, p + 1, p', l');
    HashedTake(st, p, p, p + 1);
    JoinedMeans(st, server, p, l, p', l');
    assert st.Hashed(p) + [] == st.Hashed(p);
  }

  // The client's turns.

  lemma QuietActKeepsOutbox(st: Setting, server: bool, l: Link, act: Act, p: int, q: int, r: int)
    requires Moves(st, server, act, p, q, r) && l.CanDo(act)
    ensures !act.Say? && !act.Finish? ==> l.Do(act).outbox == l.outbox
  {
  }

  lemma ClientRunKeepsInv(st: Setting, y: Sys, o: Oracle)
    requires Inv(st, y) && y.c.wait == Ok && !o.fails
    ensures Inv(st, y.ClientTurn(o))
  {
    ClientIsReady(st, y, o);
    var h, l := y.c.hs, y.c.link;
    var e := h.Run(l.Peek(), l.FinishedChecks(), o);
    hide CS.Follows, C.Hs.Run, CS.Ready, C.PhaseOk, S.PhaseOk, CS.Slot, SS.Slot, CS.Holds, SS.Holds, CS.At, Joined,
         Moves, Link.Do, CS.OnScript, SS.OnScript, Setting.Agreed, Sys.ClientTurn;
    CS.RunFollows(st, h, l.Peek(), l.FinishedChecks(), o);
    C.TurnAdvances(y.c, o);
    ClientActs(st, y, e);
    ClientRuns(y, o);
  }

  /** A client that does not wait runs its state. */
  lemma ClientRuns(y: Sys, o: Oracle)
    requires y.c.wait == Ok
    ensures var h, l := y.c.hs, y.c.link;
            var e := h.Run(l.Peek(), l.FinishedChecks(), o);
            && y.ClientTurn(o).c == y.c.Turn(o)
            && (l.CanDo(e.act) ==>
                  y.ClientTurn(o) == Sys(C.Client(C.Hs(h.cfg, e.state, e.terms), e.wait, l.Do(e.act)), y.s))
  {
    hide C.Hs.Run, Link.Do;
  }

  lemma ClientActs(st: Setting, y: Sys, e: C.Effect)
    requires Inv(st, y) && y.c.wait == Ok && CS.Follows(st, y.c.hs, e) && y.c.link.CanDo(e.act)
    ensures CS.Slot(st, e.state, e.wait.AwaitCcs?) >= 0
    ensures Joined(st, false, CS.Slot(st, e.state, e.wait.AwaitCcs?), y.c.link.Do(e.act), ServerSlot(st, y.s), y.s.link)
    ensures CS.Holds(e.state, e.wait) || y.c.link.Do(e.act).outbox == []
    ensures CS.OnScript(st, C.Hs(y.c.hs.cfg, e.state, e.terms), e.wait)
  {
    hide C.PhaseOk, S.PhaseOk, CS.Slot, SS.Slot, CS.Holds, SS.Holds, CS.At, Joined, Fits, Link.Do, CS.OnScript,
         SS.OnScript, Setting.Agreed;
    var p, q, r := ClientSlot(st, y.c), CS.At(st, y.c.hs.state), CS.Slot(st, e.state, e.wait.AwaitCcs?);
    QuietActKeepsOutbox(st, false, y.c.link, e.act, p, q, r);
    ActKeepsJoined(st, false, e.act, p, y.c.link, q, r, ServerSlot(st, y.s), y.s.link);
  }

  lemma ClientIsReady(st: Setting, y: Sys, o: Oracle)
    requires Inv(st, y) && y.c.wait == Ok && !o.fails
    ensures CS.Ready(st, y.c.hs, y.c.link.Peek(), y.c.link.FinishedChecks(), o)
    ensures CS.Looks(st, y.c.hs.state) && y.c.link.inbox != [] ==> y.c.link.Peek().Some?
  {
    hide CS.Learnt, CS.Looks, CS.Finds, CS.Slot, SS.Slot, CS.At, SS.OnScript, C.PhaseOk, S.PhaseOk, CS.Holds, SS.Holds,
         Joined, Setting.NextIs, Setting.KindAt, ByServer, IsCcs, Setting.Agreed;
    if CS.Looks(st, y.c.hs.state) && y.c.link.inbox != [] {
      CS.LooksAtNext(st, y.c.hs);
      HeadIs(st, false, ClientSlot(st, y.c), y.c.link, CS.At(st, y.c.hs.state), ServerSlot(st, y.s), y.s.link);
    }
  }

  /** Waiting turns: flushes, arrivals, callbacks. */
  lemma ClientWaitKeepsInv(st: Setting, y: Sys, o: Oracle)
    requires Inv(st, y) && y.c.wait != Ok
    ensures Inv(st, y.ClientTurn(o))
    ensures y.c.wait.Reads() && y.c.link.inbox != [] ==> y.ClientTurn(o).c.wait == Ok
  {
    hide CS.Learnt, CS.Looks, CS.Finds, SS.Slot, CS.At, SS.OnScript, C.Phase, S.Phase, SS.Holds, Joined,
         Setting.NextIs, Setting.KindAt, ByServer, IsCcs, Setting.Agreed, Setting.Resumed;
    var l, p, p' := y.c.link, ClientSlot(st, y.c), ServerSlot(st, y.s);
    if y.c.wait.Flush? && o.flushes {
      FlushKeepsJoined(st, false, p, l, p', y.s.link);
    } else if y.c.wait.AwaitCcs? && l.inbox != [] {
      CS.CcsIsNext(st, y.c.hs);
      CcsKeepsJoined(st, false, p, l, p', y.s.link);
    } else if y.c.wait.Reads() && l.inbox != [] {
      CS.LooksAtNext(st, y.c.hs);
      HeadIs(st, false, p, l, CS.At(st, y.c.hs.state), p', y.s.link);
    }
  }

  // The server's turns.

  lemma ServerIsReady(st: Setting, y: Sys, o: Oracle)
    requires Inv(st, y) && y.s.wait == Ok && !o.fails
    ensures SS.Ready(st, y.s.hs, y.s.link.Peek(), y.s.link.FinishedChecks(), o)
    ensures SS.Looks(st, y.s.hs.state) && y.s.link.inbox != [] ==> y.s.link.Peek().Some?
  {
    hide SS.Learnt, SS.Looks, SS.Finds, SS.Slot, CS.Slot, CS.OnScript, C.PhaseOk, S.PhaseOk, CS.Holds, SS.Holds,
         Joined, Setting.NextIs, Setting.KindAt, ByServer, IsCcs, Setting.Agreed;
    if SS.Looks(st, y.s.hs.state) && y.s.link.inbox != [] {
      SS.LooksAtNext(st, y.s.hs);
      JoinedIsSymmetric(st, false, ClientSlot(st, y.c), y.c.link, ServerSlot(st, y.s), y.s.link);
      HeadIs(st, true, ServerSlot(st, y.s), y.s.link, ServerSlot(st, y.s), ClientSlot(st, y.c), y.c.link);
    }
  }

  lemma ServerRunKeepsInv(st: Setting, y: Sys, o: Oracle)
    requires Inv(st, y) && y.s.wait == Ok && !o.fails
    ensures Inv(st, y.ServerTurn(o))
  {
    ServerIsReady(st, y, o);
    var h, l := y.s.hs, y.s.link;
    var e := h.Run(l.Peek(), l.FinishedChecks(), o);
    hide SS.Follows, S.Hs.Run, SS.Ready, C.PhaseOk, S.PhaseOk, CS.Slot, SS.Slot, CS.Holds, SS.Holds, Joined, Moves,
         Link.Do, CS.OnScript, SS.OnScript, Setting.Agreed, Sys.ServerTurn;
    SS.RunFollows(st, h, l.Peek(), l.FinishedChecks(), o);
    S.TurnAdvances(y.s, o);
    ServerActs(st, y, e);
    ServerRuns(y, o);
  }

  /** A server that does not wait runs its state. */
  lemma ServerRuns(y: Sys, o: Oracle)
    requires y.s.wait == Ok
    ensures var h, l := y.s.hs, y.s.link;
            var e := h.Run(l.Peek(), l.FinishedChecks(), o);
            && y.ServerTurn(o).s == y.s.Turn(o)
            && (l.CanDo(e.act) ==>
                  y.ServerTurn(o) == Sys(y.c, S.Server(S.Hs(h.cfg, e.state, e.terms), e.wait, l.Do(e.act))))
  {
    hide S.Hs.Run, Link.Do;
  }

  lemma ServerActs(st: Setting, y: Sys, e: S.Effect)
    requires Inv(st, y) && y.s.wait == Ok && SS.Follows(st, y.s.hs, e) && y.s.link.CanDo(e.act)
    ensures SS.Slot(st, e.state, e.wait.AwaitCcs?) >= 0
    ensures Joined(st, false, ClientSlot(st, y.c), y.c.link, SS.Slot(st, e.state, e.wait.AwaitCcs?), y.s.link.Do(e.act))
    ensures SS.Holds(e.state, e.wait) || y.s.link.Do(e.act).outbox == []
    ensures SS.OnScript(st, S.Hs(y.s.hs.cfg, e.state, e.terms), e.wait)
  {
    hide C.PhaseOk, S.PhaseOk, CS.Slot, SS.Slot, CS.Holds, SS.Holds, Joined, Fits, Link.Do, CS.OnScript, SS.OnScript,
         Setting.Agreed;
    var p, r, p' := ServerSlot(st, y.s), SS.Slot(st, e.state, e.wait.AwaitCcs?), ClientSlot(st, y.c);
    QuietActKeepsOutbox(st, true, y.s.link, e.act, p, p, r);
    JoinedIsSymmetric(st, false, p', y.c.link, p, y.s.link);
    ActKeepsJoined(st, true, e.act, p, y.s.link, p, r, p', y.c.link);
    JoinedIsSymmetric(st, true, r, y.s.link.Do(e.act), p', y.c.link);
  }

  lemma ServerWaitKeepsInv(st: Setting, y: Sys, o: Oracle)
    requires Inv(st, y) && y.s.wait != Ok
    ensures Inv(st, y.ServerTurn(o))
    ensures y.s.wait.Reads() && y.s.link.inbox != [] ==> y.ServerTurn(o).s.wait == Ok
  {
    hide SS.Learnt, SS.Looks, SS.Finds, CS.Slot, CS.OnScript, C.Phase, S.Phase, CS.Holds, Joined,
         Setting.NextIs, Setting.KindAt, ByServer, IsCcs, Setting.Agreed, Setting.Resumed;
    var l, p, p' := y.s.link, ServerSlot(st, y.s), ClientSlot(st, y.c);
    JoinedIsSymmetric(st, false, p', y.c.link, p, l);
    if y.s.wait.Flush? && o.flushes {
      FlushKeepsJoined(st, true, p, l, p', y.c.link);
      JoinedIsSymmetric(st, true, p, l.(outbox := []), p', Delivered(y.c.link, l.outbox));
    } else if y.s.wait.AwaitCcs? && l.inbox != [] {
      SS.CcsIsNext(st, y.s.hs);
      CcsKeepsJoined(st, true, p, l, p', y.c.link);
      JoinedIsSymmetric(st, true, p + 1, l.(inbox := l.inbox[1..]), p', y.c.link);
    } else if y.s.wait.Reads() && l.inbox != [] {
      SS.LooksAtNext(st, y.s.hs);
      HeadIs(st, true, p, l, p, p', y.c.link);
    }
  }

  datatype Action = TurnClient(o: Oracle) | TurnServer(o: Oracle)

  function Step(y: Sys, a: Action): Sys {
    match a
    case TurnClient(o) => y.ClientTurn(o)
    case TurnServer(o) => y.ServerTurn(o)
  }

  lemma StepKeepsInv(st: Setting, y: Sys, a: Action)
    requires Inv(st, y) && !a.o.fails
    ensures Inv(st, Step(y, a))
  {
    hide Inv, Sys.ClientTurn, Sys.ServerTurn;
    match a
    case TurnClient(o) => if y.c.wait == Ok { ClientRunKeepsInv(st, y, o); } else { ClientWaitKeepsInv(st, y, o); }
    case TurnServer(o) => if y.s.wait == Ok { ServerRunKeepsInv(st, y, o); } else { ServerWaitKeepsInv(st, y, o); }
  }

  function Run(y: Sys, actions: seq<Action>): Sys {
    if actions == [] then y else Step(Run(y, actions[..|actions| - 1]), actions[|actions| - 1])
  }

  /** In every interleaving, for every agreed setting, with any delays of callbacks and flushes: neither side meets
      an error, and each transcript is a beginning of one and the same script. */
  lemma {:induction false} EveryRun(st: Setting, actions: seq<Action>)
    requires st.Agreed() && forall i :: 0 <= i < |actions| ==> !actions[i].o.fails
    ensures var y := Run(Start(st), actions);
            && Inv(st, y)
            && y.c.wait != Error && y.s.wait != Error
            && ClientSlot(st, y.c) >= 0 && y.c.link.transcript == st.Hashed(ClientSlot(st, y.c))
            && ServerSlot(st, y.s) >= 0 && y.s.link.transcript == st.Hashed(ServerSlot(st, y.s))
  {
    hide Step, CS.Slot, SS.Slot, CS.Learnt, SS.Learnt, CS.Looks, SS.Looks, C.Phase, S.Phase;
    if actions == [] {
      StartIsInv(st);
    } else {
      var front := actions[..|actions| - 1];
      EveryRun(st, front);
      StepKeepsInv(st, Run(Start(st), front), actions[|actions| - 1]);
    }
  }

  // No deadlock, and an end.

  /** Work left on one side: four for every state ahead, and how far the current wait is from being over. */
  function WaitLeft(wait: Wait, l: Link): nat {
    match wait
    case Ok => if l.inbox == [] then 2 else 0
    case AwaitMessage => 1
    case AwaitServerHello => 1
    case _ => 3
  }

  function Measure(y: Sys): nat {
    4 * C.Rank(y.c.hs.state, y.c.hs.terms.session) + WaitLeft(y.c.wait, y.c.link)
    + 4 * S.Rank(y.s.hs.state, y.s.hs.terms.session) + WaitLeft(y.s.wait, y.s.link)
  }

  /** Nothing to do: all states are done, or bytes must come first. */
  predicate ClientRests(y: Sys) {
    (y.c.hs.state.Done? && y.c.wait == Ok) || (y.c.wait.Reads() && y.c.link.inbox == [])
  }

  predicate ServerRests(y: Sys) {
    (y.s.hs.state.Done? && y.s.wait == Ok) || (y.s.wait.Reads() && y.s.link.inbox == [])
  }

  /** An environment that delays nothing. */
  const SMOOTH := Oracle(false, false, true)

  lemma ClientMakesProgress(st: Setting, y: Sys)
    requires Inv(st, y) && !ClientRests(y)
    ensures Measure(y.ClientTurn(SMOOTH)) < Measure(y)
  {
    hide C.Rank, S.Rank, Joined, S.PhaseOk, C.PhaseOk, CS.Learnt, SS.OnScript, CS.Slot, SS.Slot;
    if y.c.wait == Ok {
      ClientIsReady(st, y, SMOOTH);
      C.TurnAdvances(y.c, SMOOTH);
      ClientMovesOn(st, y.c.hs, y.c.link.Peek(), y.c.link.FinishedChecks());
    } else {
      ClientWaitKeepsInv(st, y, SMOOTH);
    }
  }

  /** A state that is run without delay is left, unless it looks for a message that has not come. */
  lemma ClientMovesOn(st: Setting, h: C.Hs, peek: Option<Kind>, checks: bool)
    requires CS.Ready(st, h, peek, checks, SMOOTH) && !h.state.Done?
    ensures var e := h.Run(peek, checks, SMOOTH);
            e.state != h.state || (CS.Looks(st, h.state) && peek.None?
                                                && (e.wait.AwaitMessage? || e.wait.AwaitServerHello?)
                                   && e.act == Nothing)
  {
  }

  lemma ServerMakesProgress(st: Setting, y: Sys)
    requires Inv(st, y) && !ServerRests(y)
    ensures Measure(y.ServerTurn(SMOOTH)) < Measure(y)
  {
    hide C.Rank, S.Rank, Joined, S.PhaseOk, C.PhaseOk, SS.Learnt, CS.OnScript, CS.Slot, SS.Slot;
    if y.s.wait == Ok {
      ServerIsReady(st, y, SMOOTH);
      S.TurnAdvances(y.s, SMOOTH);
      ServerMovesOn(st, y.s.hs, y.s.link.Peek(), y.s.link.FinishedChecks());
    } else {
      ServerWaitKeepsInv(st, y, SMOOTH);
    }
  }

  lemma ServerMovesOn(st: Setting, h: S.Hs, peek: Option<Kind>, checks: bool)
    requires SS.Ready(st, h, peek, checks, SMOOTH) && !h.state.Done?
    ensures var e := h.Run(peek, checks, SMOOTH);
            e.state != h.state || (SS.Looks(st, h.state) && peek.None? && e.wait.AwaitMessage? && e.act == Nothing)
  {
  }

  /** A resting side has nothing unsent, and the next filled slot, if any, is the other side's. */
  ghost predicate TheirTurn(st: Setting, server: bool, p: nat) {
    st.Quiet(p, END) || exists q: nat :: st.NextIs(p, q) && ByServer(q) != server
  }

  lemma RestingClient(st: Setting, y: Sys)
    requires Inv(st, y) && ClientRests(y)
    ensures y.c.link.outbox == [] && ClientSlot(st, y.c) <= END
    ensures TheirTurn(st, false, ClientSlot(st, y.c))
    ensures !y.c.hs.state.Done? ==> y.c.link.inbox == [] && !st.Quiet(ClientSlot(st, y.c), END)
  {
    hide Joined, C.PhaseOk, S.PhaseOk, SS.OnScript, SS.Slot, SS.Holds, CS.Learnt, Setting.Present, ByServer, CS.At;
    ClientSlotInRange(st, y.c);
    if y.c.wait.AwaitCcs? {
      CS.CcsIsNext(st, y.c.hs);
      NextIsBeforeEnd(st, ClientSlot(st, y.c), ClientSlot(st, y.c));
    } else if y.c.wait.Reads() {
      CS.LooksAtNext(st, y.c.hs);
      NextIsBeforeEnd(st, ClientSlot(st, y.c), CS.At(st, y.c.hs.state));
    }
  }

  lemma ClientSlotInRange(st: Setting, c: C.Client)
    requires CS.OnScript(st, c.hs, c.wait)
    ensures ClientSlot(st, c) <= END && (c.hs.state.Done? && c.wait == Ok ==> ClientSlot(st, c) == END)
  {
    hide CS.Looks, CS.Knows;
  }

  lemma ServerSlotInRange(st: Setting, s: S.Server)
    requires SS.OnScript(st, s.hs, s.wait)
    ensures ServerSlot(st, s) <= END && (s.hs.state.Done? && s.wait == Ok ==> ServerSlot(st, s) == END)
  {
    hide SS.Looks;
  }

  lemma NextIsBeforeEnd(st: Setting, p: nat, q: nat)
    requires st.NextIs(p, q)
    ensures q < END && !st.Quiet(p, END)
  {
  }

  lemma RestingServer(st: Setting, y: Sys)
    requires Inv(st, y) && ServerRests(y)
    ensures y.s.link.outbox == [] && ServerSlot(st, y.s) <= END
    ensures TheirTurn(st, true, ServerSlot(st, y.s))
    ensures !y.s.hs.state.Done? ==> y.s.link.inbox == [] && !st.Quiet(ServerSlot(st, y.s), END)
  {
    hide Joined, C.PhaseOk, S.PhaseOk, CS.OnScript, CS.Slot, CS.Holds, SS.Learnt, Setting.Present, ByServer;
    ServerSlotInRange(st, y.s);
    if y.s.wait.AwaitCcs? {
      SS.CcsIsNext(st, y.s.hs);
      NextIsBeforeEnd(st, ServerSlot(st, y.s), ServerSlot(st, y.s));
    } else if y.s.wait.Reads() {
      SS.LooksAtNext(st, y.s.hs);
      NextIsBeforeEnd(st, ServerSlot(st, y.s), ServerSlot(st, y.s));
    }
  }

  /** If nothing is under way and each side leaves the next word to the other, nothing is left to say. */
  lemma NothingLeft(st: Setting, server: bool, p: nat, p': nat)
    requires p <= END && p' <= END && TheirTurn(st, server, p) && TheirTurn(st, !server, p')
    requires st.Wire(!server, p, p') == [] && st.Wire(server, p', p) == []
    ensures st.Quiet(p, END)
  {
    if !st.Quiet(p, END) {
      var q: nat :| st.NextIs(p, q) && ByServer(q) != server;
      NextIsBeforeEnd(st, p, q);
      hide Setting.Present, ByServer, Setting.Wire;
      WireHead(st, !server, p, q, p');
      if !st.Quiet(p', END) {
        var q': nat :| st.NextIs(p', q') && ByServer(q') == server;
        WireHead(st, server, p', q', p);
      }
    }
  }

  lemma NothingUnderWay(st: Setting, y: Sys)
    requires Inv(st, y) && ClientRests(y) && ServerRests(y)
    ensures st.Wire(true, ClientSlot(st, y.c), ServerSlot(st, y.s)) == []
    ensures st.Wire(false, ServerSlot(st, y.s), ClientSlot(st, y.c)) == []
    ensures y.c.hs.state.Done? && y.s.hs.state.Done? ==> y.c.link.inbox == [] && y.s.link.inbox == []
  {
    RestingClient(st, y);
    RestingServer(st, y);
    ClientSlotInRange(st, y.c);
    ServerSlotInRange(st, y.s);
    hide CS.Slot, SS.Slot, CS.OnScript, SS.OnScript, C.PhaseOk, S.PhaseOk, CS.Holds, SS.Holds, TheirTurn,
         Setting.Present,
         Setting.Sends, Setting.Hashed, ByServer;
  }

  /** Two resting sides are both done. */
  lemma NoDeadlock(st: Setting, y: Sys)
    requires Inv(st, y) && ClientRests(y) && ServerRests(y)
    ensures y.c.hs.state.Done? && y.s.hs.state.Done?
  {
    RestingClient(st, y);
    RestingServer(st, y);
    NothingUnderWay(st, y);
    hide CS.Slot, SS.Slot, CS.OnScript, SS.OnScript, C.PhaseOk, S.PhaseOk, CS.Holds, SS.Holds, TheirTurn,
         Setting.Present,
         Setting.Sends, Setting.Hashed, ByServer, Setting.Wire, Joined;
    NothingLeft(st, false, ClientSlot(st, y.c), ServerSlot(st, y.s));
    NothingLeft(st, true, ServerSlot(st, y.s), ClientSlot(st, y.c));
  }

  /** Both sides have finished in agreement: nothing is left in the channel, the transcripts are equal and complete,
      and each side has switched its ciphers, accepted the other's Finished and sent its own, once. */
  ghost predicate Agreement(st: Setting, y: Sys) {
    && y.c.hs.state.Done? && y.s.hs.state.Done?
    && y.c.link.inbox == [] && y.c.link.outbox == [] && y.s.link.inbox == [] && y.s.link.outbox == []
    && y.c.link.transcript == st.Hashed(END) && y.s.link.transcript == st.Hashed(END)
    && y.c.link.progress == Progress(true, true, 1, 1) && y.s.link.progress == Progress(true, true, 1, 1)
    && y.c.hs.terms.session == y.s.hs.terms.session == st.Resumed()
  }

  lemma ClientAtEnd(st: Setting, y: Sys)
    requires Inv(st, y) && ClientRests(y) && y.c.hs.state.Done?
    ensures y.c.link.transcript == st.Hashed(END) && y.c.link.progress == Progress(true, true, 1, 1)
    ensures y.c.hs.terms.session == st.Resumed()
  {
    hide CS.Slot, SS.Slot, CS.Holds, SS.Holds, SS.OnScript, S.PhaseOk, Joined, Setting.Hashed, Setting.Present,
         Setting.Resumed;
    ClientSlotInRange(st, y.c);
    JoinedMeans(st, false, ClientSlot(st, y.c), y.c.link, ServerSlot(st, y.s), y.s.link);
  }

  lemma ServerAtEnd(st: Setting, y: Sys)
    requires Inv(st, y) && ServerRests(y) && y.s.hs.state.Done?
    ensures y.s.link.transcript == st.Hashed(END) && y.s.link.progress == Progress(true, true, 1, 1)
    ensures y.s.hs.terms.session == st.Resumed()
  {
    hide CS.Slot, SS.Slot, CS.Holds, SS.Holds, CS.OnScript, C.PhaseOk, Joined, Setting.Hashed, Setting.Present,
         Setting.Resumed;
    ServerSlotInRange(st, y.s);
    JoinedIsSymmetric(st, false, ClientSlot(st, y.c), y.c.link, ServerSlot(st, y.s), y.s.link);
    JoinedMeans(st, true, ServerSlot(st, y.s), y.s.link, ClientSlot(st, y.c), y.c.link);
  }

  lemma RestIsAgreement(st: Setting, y: Sys)
    requires Inv(st, y) && ClientRests(y) && ServerRests(y)
    ensures Agreement(st, y)
  {
    hide Inv, ClientRests, ServerRests, Setting.Hashed, Setting.Resumed;
    RestingClient(st, y);
    RestingServer(st, y);
    NoDeadlock(st, y);
    NothingUnderWay(st, y);
    ClientAtEnd(st, y);
    ServerAtEnd(st, y);
  }

  /** Every turn of the schedule is taken, without delay, by a side that is not at rest then. */
  predicate Eager(y: Sys, actions: seq<Action>) {
    actions == [] ||
    var front, a := actions[..|actions| - 1], actions[|actions| - 1];
    && Eager(y, front)
    && a.o == SMOOTH
    && if a.TurnClient? then !ClientRests(Run(y, front)) else !ServerRests(Run(y, front))
  }

  /** From any state of any run, as soon as callbacks and flushes are no longer delayed, every schedule of turns by
      sides that have work is at most as long as the work that was left; and when it has left both sides at rest, they
      are in agreement. */
  lemma {:induction false} RunsEndInAgreement(st: Setting, y: Sys, actions: seq<Action>)
    requires Inv(st, y) && Eager(y, actions)
    ensures var y' := Run(y, actions);
            && Inv(st, y')
            && |actions| + Measure(y') <= Measure(y)
            && (ClientRests(y') && ServerRests(y') ==> Agreement(st, y'))
    decreases |actions|
  {
    hide Inv, Agreement, Measure, Step, ClientRests, ServerRests;
    if actions == [] {
    } else {
      var front, a := actions[..|actions| - 1], actions[|actions| - 1];
      RunsEndInAgreement(st, y, front);
      NextMakesProgress(st, Run(y, front), a);
      StepKeepsInv(st, Run(y, front), a);
    }
    if ClientRests(Run(y, actions)) && ServerRests(Run(y, actions)) {
      RestIsAgreement(st, Run(y, actions));
    }
  }

  /** Such a schedule can always be continued until both rest. */
  lemma {:induction false} AgreementIsReached(st: Setting, y: Sys, actions: seq<Action>) returns (all: seq<Action>)
    requires Inv(st, y) && Eager(y, actions)
    ensures Eager(y, all) && actions <= all && Agreement(st, Run(y, all))
    decreases Measure(Run(y, actions))
  {
    RunsEndInAgreement(st, y, actions);
    hide Inv, Agreement, Measure, Step, ClientRests, ServerRests;
    var z := Run(y, actions);
    if ClientRests(z) && ServerRests(z) {
      all := actions;
    } else {
      var a := if ClientRests(z) then TurnServer(SMOOTH) else TurnClient(SMOOTH);
      assert (actions + [a])[..|actions + [a]| - 1] == actions;
      NextMakesProgress(st, z, a);
      all := AgreementIsReached(st, y, actions + [a]);
    }
  }

  // Calls of ssl_run_handshake are such turns.

  function ClientTurns(os: seq<Oracle>): seq<Action> {
    seq(|os|, i requires 0 <= i < |os| => TurnClient(os[i]))
  }

  function ServerTurns(os: seq<Oracle>): seq<Action> {
    seq(|os|, i requires 0 <= i < |os| => TurnServer(os[i]))
  }

  /** What one call on the client does in place, whatever waits and states it runs through, is a run of the two sides,
      and leaves them on the script. */
  lemma {:induction false} ClientCallKeepsInv(st: Setting, y: Sys, os: seq<Oracle>)
    requires Inv(st, y) && forall i :: 0 <= i < |os| ==> !os[i].fails
    ensures var y' := Run(y, ClientTurns(os));
            Inv(st, y') && y'.c == R.After(C.Step, y.c, R.Turns(os))
    decreases |os|
  {
    hide Inv, C.Client.Turn;
    if os == [] {
    } else {
      var n := |os| - 1;
      ClientCallKeepsInv(st, y, os[..n]);
      assert ClientTurns(os)[..n] == ClientTurns(os[..n]) && R.Turns(os)[..n] == R.Turns(os[..n]);
      StepKeepsInv(st, Run(y, ClientTurns(os[..n])), TurnClient(os[n]));
    }
  }

  /** And on the server. */
  lemma {:induction false} ServerCallKeepsInv(st: Setting, y: Sys, os: seq<Oracle>)
    requires Inv(st, y) && forall i :: 0 <= i < |os| ==> !os[i].fails
    ensures var y' := Run(y, ServerTurns(os));
            Inv(st, y') && y'.s == R.After(S.Step, y.s, R.Turns(os))
    decreases |os|
  {
    hide Inv, S.Server.Turn;
    if os == [] {
    } else {
      var n := |os| - 1;
      ServerCallKeepsInv(st, y, os[..n]);
      assert ServerTurns(os)[..n] == ServerTurns(os[..n]) && R.Turns(os)[..n] == R.Turns(os[..n]);
      StepKeepsInv(st, Run(y, ServerTurns(os[..n])), TurnServer(os[n]));
    }
  }

  lemma NextMakesProgress(st: Setting, y: Sys, a: Action)
    requires Inv(st, y) && a.o == SMOOTH
    requires if a.TurnClient? then !ClientRests(y) else !ServerRests(y)
    ensures Measure(Step(y, a)) < Measure(y)
  {
    hide Inv, ClientRests, ServerRests, Sys.ClientTurn, Sys.ServerTurn, Measure;
    match a
    case TurnClient(o) => ClientMakesProgress(st, y);
    case TurnServer(o) => ServerMakesProgress(st, y);
  }
}
