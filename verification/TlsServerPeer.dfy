/** The server machine against any peer, whatever it sends and in whatever order. */
module TlsServerPeer {
  import opened Wrappers
  import opened TlsMessages
  import opened TlsRuns
  import opened TlsServer
  import opened TlsScript
  import opened TlsJoin
  import C = TlsClient
  import SS = TlsServerScript

  // Failures.

  /** In this state the code makes a check that may fail. */
  predicate Checks(h: Hs) {
    match h.state
    case StartAccept => false
    case SendServerKeyExchange => h.terms.hasParams
    case ReadClientCertificate => h.terms.certRequest
    case VerifyClientCertificate => h.terms.peerCert
    case ReadClientCertificateVerify => h.terms.peerCert
    case ReadChangeCipherSpec => false
    case ReadNextProto => h.cfg.npn
    case ReadChannelId => h.terms.channelId
    case ReadClientFinished => false
    case FinishServerHandshake => false
    case Done => false
    case _ => true
  }

  /** A turn in which the check of the state fails changes nothing, and leaves the machine waiting or in error. */
  lemma FailureStops(h: Hs, peek: Option<Kind>, checks: bool, o: Oracle)
    requires (checks ==> peek.Some?) && o.fails && Checks(h)
    ensures var e := h.Run(peek, checks, o);
            e.state == h.state && e.terms == h.terms && e.act == Nothing && e.wait != Ok && !e.wait.Flush?
  {
  }

  /** So does one with a Finished that was not computed by the client over this very transcript. */
  lemma WrongFinishedStops(h: Hs, peek: Option<Kind>, o: Oracle)
    requires h.state.ReadClientFinished? && peek.Some?
    ensures h.Run(peek, false, o) == h.Stay(Error)
  {
  }

  /** A certificate that is not there, where the server insists on one, is an error; and so is any other message. */
  lemma MissingCertificateStops(h: Hs, peek: Option<Kind>, checks: bool, o: Oracle)
    requires (checks ==> peek.Some?) && h.state.ReadClientCertificate? && h.terms.certRequest && peek.Some?
    requires !peek.value.Certificate? || (peek.value.empty && h.cfg.failIfNoPeerCert)
    ensures h.Run(peek, checks, o) == h.Stay(Error)
  {
  }

  /** Otherwise a failure does not matter: but for the error, the turn is that of a machine whose checks pass. */
  lemma FailureIsAnError(h: Hs, peek: Option<Kind>, checks: bool, o: Oracle)
    requires checks ==> peek.Some?
    ensures var e, e' := h.Run(peek, checks, o), h.Run(peek, checks, o.(fails := false));
            e == e' || e == h.Stay(Error) || e == e'.(wait := Error)
  {
  }

  /** In this state, with this message before it, the code asks an application callback. */
  predicate Asks(h: Hs, peek: Option<Kind>) {
    match h.state
    case ReadClientHello => peek.Some? && peek.value.ClientHello?
    case SelectCertificate => peek.Some?
    case Tls13 => true
    case SelectParameters => peek.Some? && peek.value.ClientHello?
    case SendServerKeyExchange => h.terms.hasParams && h.cfg.cipher.certAuth
    case VerifyClientCertificate => h.terms.peerCert
    case ReadClientKeyExchange =>
      peek == Some(ClientKeyExchange) && h.cfg.cipher.certAuth && !h.cfg.cipher.ecdhe
    case _ => false
  }

  /** A callback that is not ready is waited for, with nothing changed; otherwise it makes no difference. */
  lemma PendingIsWaitedFor(h: Hs, peek: Option<Kind>, checks: bool, o: Oracle)
    requires checks ==> peek.Some?
    ensures var e := h.Run(peek, checks, o);
            && (Asks(h, peek) && o.pending && !o.fails ==> e == h.Stay(Pending))
            && if e.wait.Pending? then e == h.Stay(Pending) && Asks(h, peek) && o.pending
               else e == h.Run(peek, checks, o.(pending := false))
  {
  }

  /** Once in error, a machine does nothing more, whatever arrives. */
  lemma {:induction false} ErrorIsForEver(s: Server, events: seq<Event>)
    requires s.wait == Error
    ensures var s' := After(Step, s, events);
            s'.wait == Error && s'.hs == s.hs && s'.link == s.link.(inbox := s'.link.inbox)
  {
    hide Hs.Run, Link.Do;
    if events == [] {
    } else {
      ErrorIsForEver(s, events[..|events| - 1]);
    }
  }

  // The transcript.

  /** The server's place in the handshake of the setting: what it has settled, and what it has hashed. */
  ghost predicate Within(st: Setting, s: Server) {
    && s.hs.cfg == st.server && st.Agreed() && SS.OnScript(st, s.hs, Ok)
    && SS.Slot(st, s.hs.state, false) >= 0
    && s.link.transcript == st.Hashed(SS.Slot(st, s.hs.state, false))
  }

  /** What the client turns out to be, when the server takes its ClientHello or its Certificate. */
  function Met(st: Setting, h: Hs, peek: Option<Kind>): Setting {
    if peek.Some? && peek.value.ClientHello?
       && (h.state.ReadClientHello? || h.state.SelectCertificate? || h.state.SelectParameters?)
    then st.(client := st.client.(session := peek.value.session, hasCert := true))
    else if peek.Some? && peek.value.Certificate? && h.state.ReadClientCertificate? && h.terms.certRequest
    then st.(client := st.client.(hasCert := !peek.value.empty))
    else st
  }

  /** Up to the client's Certificate, the script does not depend on whether it has one. */
  lemma {:induction false} SameBefore(st: Setting, st': Setting, n: nat)
    requires st'.server == st.server && st'.client == st.client.(hasCert := st'.client.hasCert) && n <= CLIENT_CERT
    ensures st'.Hashed(n) == st.Hashed(n)
  {
    hide Setting.Said;
    if n == 0 {
    } else {
      SameBefore(st, st', n - 1);
      SameSlot(st, st', n - 1);
    }
  }

  lemma SameSlot(st: Setting, st': Setting, i: nat)
    requires st'.server == st.server && st'.client == st.client.(hasCert := st'.client.hasCert) && i < CLIENT_CERT
    ensures st'.Said(i) == st.Said(i)
  {
    hide Setting.Ticket, Setting.ChannelId, Setting.Status, Setting.CertRequested, Setting.HasParams;
    SameTerms(st, st');
  }

  lemma SameTerms(st: Setting, st': Setting)
    requires st'.server == st.server && st'.client == st.client.(hasCert := st'.client.hasCert)
    ensures st'.Resumed() == st.Resumed() && st'.Ticket() == st.Ticket() && st'.ChannelId() == st.ChannelId()
    ensures st'.Status() == st.Status() && st'.CertRequested() == st.CertRequested()
    ensures st'.HasParams() == st.HasParams() && st'.ServerHello() == st.ServerHello()
  {
  }

  lemma MetIsWithin(st: Setting, s: Server, peek: Option<Kind>)
    requires Within(st, s)
    requires peek.Some? && s.hs.state.ReadClientCertificate? && s.hs.terms.certRequest ==>
               !(peek.value.Certificate? && peek.value.empty && s.hs.cfg.failIfNoPeerCert)
    ensures Within(Met(st, s.hs, peek), s)
  {
    hide Setting.Hashed, Setting.Present, Setting.KindAt;
    var st' := Met(st, s.hs, peek);
    if s.hs.state.ReadClientCertificate? && st' != st {
      SameBefore(st, st', CLIENT_CERT);
    } else if st' != st {
      assert SS.Slot(st', s.hs.state, false) == 0;
      NothingHashed(st);
      NothingHashed(st');
    }
  }

  lemma NothingHashed(st: Setting)
    ensures st.Hashed(0) == []
  {
  }

  /** The message that the machine acts on: while it only looks at the ClientHello, its kind is not checked again. */
  function Seen(st: Setting, h: Hs, peek: Option<Kind>): Option<Kind> {
    if h.state.SelectCertificate? && peek.Some? && !peek.value.ClientHello? then Some(ClientHello(st.client.session))
    else peek
  }

  /** A message that does not end in error is the one the script has there. */
  ghost predicate Right(st: Setting, h: Hs, peek: Option<Kind>, checks: bool, o: Oracle)
    requires checks ==> peek.Some? && peek.value == Finished
  {
    var st', peek' := Met(st, h, peek), Seen(Met(st, h, peek), h, peek);
    var checks' := checks && peek' == peek;
    && h.Run(peek', checks', o) == h.Run(peek, checks, o)
    && SS.Ready(st', h, peek', checks', o)
    && (h.Run(peek, checks, o).act.Take? || h.Run(peek, checks, o).act.TakeFinished? ==>
          peek' == peek && SS.Looks(st', h.state))
  }

  lemma OpeningIsRight(st: Setting, h: Hs, peek: Option<Kind>, checks: bool, o: Oracle)
    requires (checks ==> peek.Some? && peek.value == Finished) && SS.OnScript(Met(st, h, peek), h, Ok) && !o.fails
    requires h.Run(peek, checks, o).wait != Error && Met(st, h, peek).Agreed()
    requires h.state.StartAccept? || h.state.ReadClientHello? || h.state.SelectCertificate? || h.state.Tls13?
             || h.state.SelectParameters? || h.state.SendServerHello? || h.state.SendServerCertificate?
    ensures Right(st, h, peek, checks, o)
  {
    hide Setting.Present, Setting.Hashed;
  }

  lemma FlightIsRight(st: Setting, h: Hs, peek: Option<Kind>, checks: bool, o: Oracle)
    requires (checks ==> peek.Some? && peek.value == Finished) && SS.OnScript(Met(st, h, peek), h, Ok) && !o.fails
    requires h.Run(peek, checks, o).wait != Error && Met(st, h, peek).Agreed()
    requires h.state.SendServerKeyExchange? || h.state.SendServerHelloDone? || h.state.ReadClientCertificate?
             || h.state.VerifyClientCertificate? || h.state.ReadClientKeyExchange?
             || h.state.ReadClientCertificateVerify? || h.state.ReadChangeCipherSpec?
    ensures Right(st, h, peek, checks, o)
  {
    hide Setting.Present, Setting.Hashed;
  }

  lemma ClosingIsRight(st: Setting, h: Hs, peek: Option<Kind>, checks: bool, o: Oracle)
    requires (checks ==> peek.Some? && peek.value == Finished) && SS.OnScript(Met(st, h, peek), h, Ok) && !o.fails
    requires h.Run(peek, checks, o).wait != Error && Met(st, h, peek).Agreed()
    requires h.state.ProcessChangeCipherSpec? || h.state.ReadNextProto? || h.state.ReadChannelId?
             || h.state.ReadClientFinished? || h.state.SendServerFinished? || h.state.FinishServerHandshake?
             || h.state.Done?
    ensures Right(st, h, peek, checks, o)
  {
    hide Setting.Present, Setting.Hashed;
  }

  lemma MessageIsRight(st: Setting, h: Hs, peek: Option<Kind>, checks: bool, o: Oracle)
    requires (checks ==> peek.Some? && peek.value == Finished) && SS.OnScript(Met(st, h, peek), h, Ok) && !o.fails
    requires h.Run(peek, checks, o).wait != Error && Met(st, h, peek).Agreed()
    ensures Right(st, h, peek, checks, o)
  {
    hide Hs.Run, Right, SS.OnScript, Setting.Agreed, Met;
    match h.state
    case StartAccept | ReadClientHello | SelectCertificate | Tls13 | SelectParameters | SendServerHello
      | SendServerCertificate => OpeningIsRight(st, h, peek, checks, o);
    case SendServerKeyExchange | SendServerHelloDone | ReadClientCertificate | VerifyClientCertificate
      | ReadClientKeyExchange | ReadClientCertificateVerify
      | ReadChangeCipherSpec => FlightIsRight(st, h, peek, checks, o);
    case _ => ClosingIsRight(st, h, peek, checks, o);
  }

  lemma ActHashes(st: Setting, act: Act, p: int, q: int, r: int, l: Link)
    requires Moves(st, true, act, p, q, r) && l.CanDo(act) && l.server && l.transcript == st.Hashed(p)
    requires act.Take? || act.TakeFinished? ==> l.Peek().value == st.KindAt(q)
    ensures l.Do(act).transcript == st.Hashed(r)
  {
    hide Setting.Present, Setting.KindAt, IsCcs, ByServer, Setting.Said;
    if act.Take? || act.TakeFinished? {
      HashedTake(st, p, q, r);
    } else if act.Nothing? || act.OpenCipher? {
      HashedQuiet(st, p, r);
    }
  }

  /** Waiting for the ChangeCipherSpec hashes nothing. */
  lemma CcsHashesNothing(st: Setting, h: Hs)
    requires SS.OnScript(st, h, Ok) && h.state.ProcessChangeCipherSpec?
    ensures st.Hashed(SS.Slot(st, h.state, false)) == st.Hashed(SS.Slot(st, h.state, true))
  {
    hide Setting.Present, Setting.KindAt;
  }

  lemma FoundIsThere(st: Setting, h: Hs, kind: Kind)
    requires SS.OnScript(st, h, Ok) && SS.Looks(st, h.state) && SS.Finds(st, h.state, kind)
    ensures SS.Slot(st, h.state, false) >= 0 && kind == st.KindAt(SS.Slot(st, h.state, false))
  {
    SS.LooksAtNext(st, h);
  }

  /** Against any peer, a turn that is no error keeps the server in the script of a setting that its client turns out
      to have; an error leaves it there. */
  lemma TurnStaysWithin(st: Setting, s: Server, o: Oracle) returns (st': Setting)
    requires Within(st, s) && s.link.server
    ensures Within(st', s.Turn(o)) && st'.server == st.server
  {
    if s.wait != Ok {
      st' := st;
    } else {
      var h, l := s.hs, s.link;
      var peek, checks := l.Peek(), l.FinishedChecks();
      var e, e' := h.Run(peek, checks, o), h.Run(peek, checks, o.(fails := false));
      FailureIsAnError(h, peek, checks, o);
      if e == h.Stay(Error) || e' == h.Stay(Error) {
        st' := st;
        StayedWithin(st, s, o);
      } else {
        st' := Met(st, h, peek);
        RunStaysWithin(st, s, o);
      }
    }
  }

  lemma StayedWithin(st: Setting, s: Server, o: Oracle)
    requires Within(st, s) && s.wait == Ok
    requires var e := s.hs.Run(s.link.Peek(), s.link.FinishedChecks(), o);
             e.state == s.hs.state && e.terms == s.hs.terms && e.act == Nothing
    ensures Within(st, s.Turn(o))
  {
    hide Hs.Run, SS.OnScript, Setting.Agreed, SS.Slot, Setting.Hashed;
  }

  lemma RunStaysWithin(st: Setting, s: Server, o: Oracle)
    requires Within(st, s) && s.link.server && s.wait == Ok
    requires var peek, checks := s.link.Peek(), s.link.FinishedChecks();
             var e, e' := s.hs.Run(peek, checks, o), s.hs.Run(peek, checks, o.(fails := false));
             e' != s.hs.Stay(Error) && (e == e' || e == e'.(wait := Error))
    ensures Within(Met(st, s.hs, s.link.Peek()), s.Turn(o))
  {
    var h, l, o' := s.hs, s.link, o.(fails := false);
    var peek, checks := l.Peek(), l.FinishedChecks();
    var st' := Met(st, h, peek);
    var e' := h.Run(peek, checks, o');
    NotInsisted(h, peek, checks, o');
    MetIsWithin(st, s, peek);
    ErrorStays(h, peek, checks, o');
    MessageIsRight(st, h, peek, checks, o');
    var peek' := Seen(st', h, peek);
    var checks' := checks && peek' == peek;
    hide Hs.Run, SS.OnScript, SS.Ready, SS.Looks, SS.Finds, Setting.Agreed, SS.Slot, Setting.Hashed, Met, Moves;
    hide Link.Do, SS.FullSlot, SS.ClientProves;
    SS.RunFollows(st', h, peek', checks', o');
    if e'.act.Take? || e'.act.TakeFinished? {
      ReadyFinds(st', h, peek', checks', o');
      FoundIsThere(st', h, peek.value);
    }
    FollowedMoves(st', h, e');
    ActHashes(st', e'.act, SS.Slot(st', h.state, false), SS.Slot(st', h.state, false),
              SS.Slot(st', e'.state, e'.wait.AwaitCcs?), l);
    ScriptWhatever(st', Hs(h.cfg, e'.state, e'.terms), e'.wait);
    TurnIs(s, o);
  }

  lemma NotInsisted(h: Hs, peek: Option<Kind>, checks: bool, o: Oracle)
    requires (checks ==> peek.Some?) && h.Run(peek, checks, o) != h.Stay(Error)
    ensures peek.Some? && h.state.ReadClientCertificate? && h.terms.certRequest ==>
              !(peek.value.Certificate? && peek.value.empty && h.cfg.failIfNoPeerCert)
  {
  }

  lemma ErrorStays(h: Hs, peek: Option<Kind>, checks: bool, o: Oracle)
    requires (checks ==> peek.Some?) && !o.fails
    ensures h.Run(peek, checks, o).wait == Error ==> h.Run(peek, checks, o) == h.Stay(Error)
  {
  }

  lemma ReadyFinds(st: Setting, h: Hs, peek: Option<Kind>, checks: bool, o: Oracle)
    requires SS.Ready(st, h, peek, checks, o) && SS.Looks(st, h.state) && peek.Some?
    ensures SS.OnScript(st, h, Ok) && SS.Finds(st, h.state, peek.value)
  {
  }

  lemma FollowedMoves(st: Setting, h: Hs, e: Effect)
    requires SS.Follows(st, h, e)
    ensures Moves(st, true, e.act, SS.Slot(st, h.state, false), SS.Slot(st, h.state, false),
                  SS.Slot(st, e.state, e.wait.AwaitCcs?))
    ensures SS.OnScript(st, Hs(h.cfg, e.state, e.terms), e.wait)
  {
  }

  /** The place in the script is that of the state, whatever it waits for. */
  lemma ScriptWhatever(st: Setting, h: Hs, wait: Wait)
    requires SS.OnScript(st, h, wait) && SS.Slot(st, h.state, wait.AwaitCcs?) >= 0
    ensures SS.OnScript(st, h, Ok) && SS.Slot(st, h.state, false) >= 0
    ensures st.Hashed(SS.Slot(st, h.state, false)) == st.Hashed(SS.Slot(st, h.state, wait.AwaitCcs?))
  {
    hide Setting.Hashed, SS.Learnt;
    if wait.AwaitCcs? {
      CcsHashesNothing(st, h);
    }
  }

  lemma TurnIs(s: Server, o: Oracle)
    requires s.wait == Ok
    ensures var e := s.hs.Run(s.link.Peek(), s.link.FinishedChecks(), o);
            && s.link.CanDo(e.act)
            && s.Turn(o) == Server(Hs(s.hs.cfg, e.state, e.terms), e.wait, s.link.Do(e.act))
  {
    hide Hs.Run, Link.Do;
  }

  // Whole runs.

  lemma {:induction false} RunStaysIn(cfg: Config, events: seq<Event>) returns (st: Setting)
    requires !cfg.tls13
    ensures var s := After(Step, Start(cfg), events); st.server == cfg && Within(st, s) && s.link.server
  {
    hide Server.Turn, Within;
    if events == [] {
      st := Setting(C.Config(false, false, true, false), cfg);
      StartsWithin(st);
    } else {
      var was := RunStaysIn(cfg, events[..|events| - 1]);
      var s := After(Step, Start(cfg), events[..|events| - 1]);
      match events[|events| - 1]
      case Run(o) =>
        st := TurnStaysWithin(was, s, o);
        TurnKeepsSide(s, o);
      case Arrive(items) =>
        st := was;
        ArrivalStaysWithin(st, s, items);
    }
  }

  lemma StartsWithin(st: Setting)
    requires st.client.hasCert && !st.server.tls13
    ensures Within(st, Start(st.server))
  {
    NothingHashed(st);
  }

  lemma TurnKeepsSide(s: Server, o: Oracle)
    ensures s.Turn(o).link.server == s.link.server && s.Turn(o).hs.cfg == s.hs.cfg
  {
    hide Hs.Run;
  }

  lemma ArrivalStaysWithin(st: Setting, s: Server, items: seq<Item>)
    requires Within(st, s)
    ensures Within(st, s.(link := s.link.(inbox := s.link.inbox + items)))
  {
  }

  predicate LeftOrEarly(h: Hs) {
    || (h.terms.tls13 && (h.state.Tls13? || h.state.FinishServerHandshake? || h.state.Done?))
    || h.state.StartAccept? || h.state.ReadClientHello? || h.state.SelectCertificate?
  }

  lemma StaysLeft(h: Hs, peek: Option<Kind>, checks: bool, o: Oracle)
    requires (checks ==> peek.Some?) && h.cfg.tls13 && LeftOrEarly(h)
    ensures var e := h.Run(peek, checks, o); LeftOrEarly(Hs(h.cfg, e.state, e.terms))
  {
  }

  /** A server that has negotiated TLS 1.3 does not go on with TLS 1.2. */
  lemma {:induction false} Tls13IsLeft(cfg: Config, events: seq<Event>)
    requires cfg.tls13
    ensures var h := After(Step, Start(cfg), events).hs; h.cfg == cfg && LeftOrEarly(h)
  {
    hide Hs.Run, Link.Do, Link.Resolve, LeftOrEarly;
    if events == [] {
      assert LeftOrEarly(Start(cfg).hs) by { StartIsEarly(cfg); }
    } else {
      var front, last := events[..|events| - 1], events[|events| - 1];
      Tls13IsLeft(cfg, front);
      var s := After(Step, Start(cfg), front);
      if last.Run? && s.wait == Ok {
        StaysLeft(s.hs, s.link.Peek(), s.link.FinishedChecks(), last.o);
      }
    }
  }

  lemma StartIsEarly(cfg: Config)
    ensures LeftOrEarly(Start(cfg).hs)
  {
  }

  /** Against any peer, whatever fails: a server that reaches its end without TLS 1.3 has hashed just the messages of
      a handshake as it should be, with a client that gave it the certificate it may insist on; and it took the
      session up exactly when that handshake does. */
  lemma EndsOnScript(cfg: Config, events: seq<Event>) returns (st: Setting)
    ensures var s := After(Step, Start(cfg), events);
            s.hs.state.Done? && !s.hs.terms.tls13 ==>
              && st.server == cfg && st.Agreed() && s.link.transcript == st.Hashed(END)
              && s.hs.terms.session == st.Resumed() && s.hs.terms.certRequest == st.CertRequested()
              && s.hs.terms.peerCert == (st.CertRequested() && st.client.hasCert)
  {
    hide Step, Within, Setting.Hashed, Setting.Agreed, Setting.Resumed, Setting.CertRequested;
    if cfg.tls13 {
      Tls13IsLeft(cfg, events);
      st := Setting(C.Config(false, false, true, false), cfg);
    } else {
      st := RunStaysIn(cfg, events);
      if After(Step, Start(cfg), events).hs.state.Done? {
        AtTheEnd(st, After(Step, Start(cfg), events));
      }
    }
  }

  lemma AtTheEnd(st: Setting, s: Server)
    requires Within(st, s) && s.hs.state.Done?
    ensures st.Agreed() && s.link.transcript == st.Hashed(END)
    ensures s.hs.terms.session == st.Resumed() && s.hs.terms.certRequest == st.CertRequested()
    ensures s.hs.terms.peerCert == (st.CertRequested() && st.client.hasCert)
  {
    hide Setting.Hashed, Setting.Agreed, Setting.Resumed, Setting.CertRequested;
  }

  lemma {:induction false} SaidIsHashed(st: Setting, i: nat, n: nat)
    requires i < n && st.Present(i) && !IsCcs(i)
    ensures st.KindAt(i) in st.Hashed(n)
  {
    hide Setting.Present, Setting.KindAt, IsCcs;
    if i < n - 1 {
      SaidIsHashed(st, i, n - 1);
    }
  }

  /** A turn in which a certificate that came is verified, or the proof that its owner sent it, and that succeeds. */
  ghost predicate ProofTurn(x: Server, events: seq<Event>, state: State, i: nat) {
    && i < |events| && events[i].Run?
    && var s := After(Step, x, events[..i]);
       && s.wait == Ok && s.hs.state == state && s.hs.terms.peerCert && !events[i].o.fails
       && (state.VerifyClientCertificate? ==> !events[i].o.pending)
       && (state.ReadClientCertificateVerify? ==> s.link.Peek() == Some(CertificateVerify))
  }

  /** In a full handshake of TLS 1.2, past the point where the client's certificate was due. */
  predicate Past(h: Hs, state: State) {
    !h.terms.session && !h.terms.tls13 && !h.state.Tls13? && Rank(h.state, false) < Rank(state, false)
  }

  /** There is one turn in which a server that has a client's certificate gets past this state. */
  lemma ProofIsMade(h: Hs, peek: Option<Kind>, checks: bool, o: Oracle, state: State)
    requires (checks ==> peek.Some?) && (state.VerifyClientCertificate? || state.ReadClientCertificateVerify?)
    requires h.state.Tls13? ==> h.terms.tls13
    requires var e := h.Run(peek, checks, o);
             Past(Hs(h.cfg, e.state, e.terms), state) && e.terms.peerCert && !(Past(h, state) && h.terms.peerCert)
    ensures h.state == state && h.terms.peerCert && !o.fails
    ensures state.VerifyClientCertificate? ==> !o.pending
    ensures state.ReadClientCertificateVerify? ==> peek == Some(CertificateVerify)
  {
  }

  lemma {:induction false} PhaseStays(x: Server, events: seq<Event>)
    requires PhaseOk(x)
    ensures PhaseOk(After(Step, x, events))
  {
    hide Server.Turn, Rank;
    if events == [] {
    } else {
      PhaseStays(x, events[..|events| - 1]);
      if events[|events| - 1].Run? {
        TurnAdvances(After(Step, x, events[..|events| - 1]), events[|events| - 1].o);
      }
    }
  }

  /** From whatever state in phase: a server that has a client's certificate passes these states only by verifying. */
  lemma {:induction false} ProofWasMade(x: Server, events: seq<Event>, state: State) returns (i: nat)
    requires state.VerifyClientCertificate? || state.ReadClientCertificateVerify?
    requires PhaseOk(x) && !(Past(x.hs, state) && x.hs.terms.peerCert)
    requires var h := After(Step, x, events).hs; Past(h, state) && h.terms.peerCert
    ensures ProofTurn(x, events, state, i)
    decreases |events|
  {
    hide Hs.Run, Link.Do, Past;
    var front, last := events[..|events| - 1], events[|events| - 1];
    var s := After(Step, x, front);
    if Past(s.hs, state) && s.hs.terms.peerCert {
      i := ProofWasMade(x, front, state);
      assert front[..i] == events[..i];
    } else {
      i := |events| - 1;
      PhaseStays(x, front);
      ProofIsMade(s.hs, s.link.Peek(), s.link.FinishedChecks(), last.o, state);
    }
  }

  /** Where the server insists on a client certificate that it has asked for, it has one once it is past its due. */
  predicate Insists(h: Hs) {
    Past(h, ReadClientCertificate) && h.terms.certRequest && h.cfg.failIfNoPeerCert ==> h.terms.peerCert
  }

  lemma InsistsEarly(h: Hs, peek: Option<Kind>, checks: bool, o: Oracle)
    requires (checks ==> peek.Some?) && Insists(h)
    requires h.state.StartAccept? || h.state.ReadClientHello? || h.state.SelectCertificate?
             || (h.state.Tls13? && h.terms.tls13) || h.state.SelectParameters?
    ensures var e := h.Run(peek, checks, o); Insists(Hs(h.cfg, e.state, e.terms))
  {
  }

  lemma InsistsInFlight(h: Hs, peek: Option<Kind>, checks: bool, o: Oracle)
    requires (checks ==> peek.Some?) && Insists(h)
    requires h.state.SendServerHello? || h.state.SendServerCertificate? || h.state.SendServerKeyExchange?
             || h.state.SendServerHelloDone? || h.state.ReadClientCertificate?
    ensures var e := h.Run(peek, checks, o); Insists(Hs(h.cfg, e.state, e.terms))
  {
  }

  lemma InsistsInClientFlight(h: Hs, peek: Option<Kind>, checks: bool, o: Oracle)
    requires (checks ==> peek.Some?) && Insists(h)
    requires h.state.VerifyClientCertificate? || h.state.ReadClientKeyExchange? || h.state.ReadClientCertificateVerify?
             || h.state.ReadChangeCipherSpec? || h.state.ProcessChangeCipherSpec?
    ensures var e := h.Run(peek, checks, o); Insists(Hs(h.cfg, e.state, e.terms))
  {
  }

  lemma InsistsLate(h: Hs, peek: Option<Kind>, checks: bool, o: Oracle)
    requires (checks ==> peek.Some?) && Insists(h)
    requires h.state.ReadNextProto? || h.state.ReadChannelId? || h.state.ReadClientFinished?
             || h.state.SendServerFinished? || h.state.FinishServerHandshake? || h.state.Done?
    ensures var e := h.Run(peek, checks, o); Insists(Hs(h.cfg, e.state, e.terms))
  {
  }

  lemma InsistenceStays(h: Hs, peek: Option<Kind>, checks: bool, o: Oracle)
    requires (checks ==> peek.Some?) && (h.state.Tls13? ==> h.terms.tls13) && Insists(h)
    ensures var e := h.Run(peek, checks, o); Insists(Hs(h.cfg, e.state, e.terms))
  {
    hide Hs.Run, Insists;
    match h.state
    case StartAccept | ReadClientHello | SelectCertificate | Tls13
      | SelectParameters => InsistsEarly(h, peek, checks, o);
    case SendServerHello | SendServerCertificate | SendServerKeyExchange | SendServerHelloDone
      | ReadClientCertificate => InsistsInFlight(h, peek, checks, o);
    case VerifyClientCertificate | ReadClientKeyExchange | ReadClientCertificateVerify | ReadChangeCipherSpec
      | ProcessChangeCipherSpec => InsistsInClientFlight(h, peek, checks, o);
    case _ => InsistsLate(h, peek, checks, o);
  }

  lemma {:induction false} AlwaysInsists(x: Server, events: seq<Event>)
    requires PhaseOk(x) && Insists(x.hs)
    ensures Insists(After(Step, x, events).hs)
  {
    hide Hs.Run, Link.Do, Insists;
    if events == [] {
    } else {
      var front, last := events[..|events| - 1], events[|events| - 1];
      AlwaysInsists(x, front);
      PhaseStays(x, front);
      var s := After(Step, x, front);
      if last.Run? && s.wait == Ok {
        InsistenceStays(s.hs, s.link.Peek(), s.link.FinishedChecks(), last.o);
      }
    }
  }

  lemma NothingPast(cfg: Config)
    ensures PhaseOk(Start(cfg)) && Insists(Start(cfg).hs) && !Start(cfg).hs.terms.peerCert
  {
  }

  /** Against any peer: a server that insists on a client certificate and reaches its end in a full handshake without
      TLS 1.3, having asked for one, has one. And whenever it has one, it was verified, and a CertificateVerify was
      taken and verified. */
  lemma ClientIsProven(cfg: Config, events: seq<Event>) returns (verified: nat, proved: nat)
    requires var s := After(Step, Start(cfg), events); s.hs.state.Done? && !s.hs.terms.tls13 && !s.hs.terms.session
    ensures var s := After(Step, Start(cfg), events);
            && (s.hs.terms.certRequest && cfg.failIfNoPeerCert ==> s.hs.terms.peerCert)
            && (s.hs.terms.peerCert ==>
                  && ProofTurn(Start(cfg), events, VerifyClientCertificate, verified)
                  && ProofTurn(Start(cfg), events, ReadClientCertificateVerify, proved)
                  && CertificateVerify in s.link.transcript)
  {
    hide ProofTurn, Step, Setting.Hashed;
    var s := After(Step, Start(cfg), events);
    var st := EndsOnScript(cfg, events);
    verified, proved := 0, 0;
    NothingPast(cfg);
    if s.hs.terms.peerCert {
      verified := ProofWasMade(Start(cfg), events, VerifyClientCertificate);
      proved := ProofWasMade(Start(cfg), events, ReadClientCertificateVerify);
      SaidIsHashed(st, CERT_VERIFY, END);
    }
  }

  // What is taken from the peer.

  /** A turn takes at most the item that came first: a message, which is hashed, or, where it waits for one and never
      elsewhere, a ChangeCipherSpec. */
  lemma TurnTakes(s: Server, o: Oracle)
    ensures var l, l' := s.link, s.Turn(o).link;
            || l'.inbox == l.inbox
            || (&& l.inbox != [] && l'.inbox == l.inbox[1..]
                && match l.inbox[0]
                   case Ccs => s.wait.AwaitCcs? && s.Turn(o) == Server(s.hs, Ok, l.(inbox := l'.inbox))
                   case Handshake(kind, _) => s.wait == Ok && l'.transcript == l.transcript + [kind])
  {
  }

  /** The ChangeCipherSpec is next, and the server, which has not switched its read cipher, waits for it. */
  ghost predicate SeesCcs(s: Server) {
    && s.hs.state.ProcessChangeCipherSpec? && s.wait.AwaitCcs? && !s.link.progress.readCipher
    && s.link.inbox != [] && s.link.inbox[0].Ccs?
  }

  predicate PastCcs(s: Server) {
    s.link.progress.readCipher || (s.hs.state.ProcessChangeCipherSpec? && !s.wait.AwaitCcs? && !s.wait.Error?)
  }

  /** The state that switches the read cipher is entered only to wait. */
  lemma CcsIsAwaited(h: Hs, peek: Option<Kind>, checks: bool, o: Oracle)
    requires checks ==> peek.Some?
    ensures var e := h.Run(peek, checks, o);
            e.act.OpenCipher? || (e.state.ProcessChangeCipherSpec? && !e.wait.AwaitCcs? && !e.wait.Error?) ==>
              h.state.ProcessChangeCipherSpec?
  {
  }

  lemma CcsPassed(s: Server, o: Oracle)
    requires !PastCcs(s) && PastCcs(s.Turn(o))
    ensures SeesCcs(s) && s.Turn(o).link == s.link.(inbox := s.link.inbox[1..])
  {
    hide Hs.Run, Link.Do;
    if s.wait == Ok {
      CcsIsAwaited(s.hs, s.link.Peek(), s.link.FinishedChecks(), o);
    }
  }

  /** Against any peer: a server that has switched its read cipher took a ChangeCipherSpec for it, in its place. */
  lemma {:induction false} CipherWasSwitched(cfg: Config, events: seq<Event>) returns (i: nat)
    requires PastCcs(After(Step, Start(cfg), events))
    ensures i < |events| && events[i].Run?
    ensures SeesCcs(After(Step, Start(cfg), events[..i]))
    decreases |events|
  {
    hide Server.Turn, SeesCcs;
    var front, last := events[..|events| - 1], events[|events| - 1];
    var s := After(Step, Start(cfg), front);
    if PastCcs(s) {
      i := CipherWasSwitched(cfg, front);
      assert front[..i] == events[..i];
    } else {
      i := |events| - 1;
      CcsPassed(s, last.o);
    }
  }

  /** The client's Finished that was accepted was computed by the client over what the server had hashed by then. */
  ghost predicate Accepts(s: Server) {
    && s.wait == Ok && s.hs.state.ReadClientFinished? && s.link.inbox != []
    && s.link.inbox[0] == Handshake(Finished, FinishedMac(false, s.link.transcript))
  }

  lemma TranscriptGrows(s: Server, o: Oracle)
    requires s.link.server
    ensures s.link.transcript <= s.Turn(o).link.transcript
    ensures s.Turn(o).link.progress.accepted != s.link.progress.accepted ==>
              Accepts(s) && s.Turn(o).link.transcript == s.link.transcript + [Finished]
  {
  }

  /** Against any peer: when a Finished has been accepted, there was a turn in which the client's Finished over the
      transcript so far was there; and that transcript, and the Finished, are the beginning of the present one. */
  lemma {:induction false} FinishedWasRight(cfg: Config, events: seq<Event>) returns (i: nat)
    requires After(Step, Start(cfg), events).link.progress.accepted > 0
    ensures i < |events|
    ensures var s := After(Step, Start(cfg), events[..i]);
            Accepts(s) && s.link.transcript + [Finished] <= After(Step, Start(cfg), events).link.transcript
    decreases |events|
  {
    hide Server.Turn, Accepts;
    var front, last := events[..|events| - 1], events[|events| - 1];
    var s := After(Step, Start(cfg), front);
    SideStays(cfg, front);
    if last.Run? {
      TranscriptGrows(s, last.o);
    }
    if s.link.progress.accepted > 0 {
      i := FinishedWasRight(cfg, front);
      assert front[..i] == events[..i];
    } else {
      i := |events| - 1;
    }
  }

  lemma {:induction false} SideStays(cfg: Config, events: seq<Event>)
    ensures After(Step, Start(cfg), events).link.server
  {
    hide Hs.Run, Link.Do;
    if events == [] {
    } else {
      SideStays(cfg, events[..|events| - 1]);
    }
  }
}
