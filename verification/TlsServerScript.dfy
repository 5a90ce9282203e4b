/** With an agreeable client, the server machine follows the script. */
module TlsServerScript {
  import opened Wrappers
  import opened TlsMessages
  import opened TlsServer
  import opened TlsScript
  import opened TlsJoin

  /** The slot of a full handshake that a server in this state stands before. */
  function FullSlot(s: State): nat {
    match s
    case StartAccept => 0
    case ReadClientHello => 0
    case SelectCertificate => 0
    case SelectParameters => 0
    case SendServerHello => 1
    case SendServerCertificate => 5
    case SendServerKeyExchange => 7
    case SendServerHelloDone => 8
    case ReadClientCertificate => 10
    case VerifyClientCertificate => 11
    case ReadClientKeyExchange => 11
    case ReadClientCertificateVerify => 12
    case ReadChangeCipherSpec => 13
    case ProcessChangeCipherSpec => 14
    case ReadNextProto => 14
    case ReadChannelId => 15
    case ReadClientFinished => 16
    case SendServerFinished => 17
    case FinishServerHandshake => 20
    case Done => 20
    case Tls13 => 21
  }

  /** The slot of this handshake: in a resumed one the server finishes early, and while the server awaits the
      ChangeCipherSpec, that is the slot it stands before. */
  function Slot(st: Setting, s: State, awaitsCcs: bool): int {
    FullSlot(s) - (if st.Resumed() && s.SendServerFinished? then TICKET - EARLY_TICKET else 0)
    - (if awaitsCcs then 1 else 0)
  }

  predicate ClientProves(st: Setting) {
    st.CertRequested() && st.client.hasCert
  }

  /** The state looks at the next message. */
  predicate Looks(st: Setting, s: State) {
    match s
    case ReadClientHello => true
    case SelectCertificate => true
    case SelectParameters => true
    case ReadClientCertificate => st.CertRequested()
    case ReadClientKeyExchange => true
    case ReadClientCertificateVerify => ClientProves(st)
    case ReadNextProto => st.server.npn
    case ReadChannelId => st.ChannelId()
    case ReadClientFinished => true
    case _ => false
  }

  /** The message it then finds, in the slot it stands before. */
  predicate Finds(st: Setting, s: State, kind: Kind) {
    match s
    case ReadClientHello => kind == ClientHello(st.client.session)
    case SelectCertificate => kind == ClientHello(st.client.session)
    case SelectParameters => kind == ClientHello(st.client.session)
    case ReadClientCertificate => kind == Certificate(!st.client.hasCert)
    case ReadClientKeyExchange => kind == ClientKeyExchange
    case ReadClientCertificateVerify => kind == CertificateVerify
    case ReadNextProto => kind == NextProto
    case ReadChannelId => kind == TlsMessages.ChannelId
    case ReadClientFinished => kind == Finished
    case _ => true
  }

  /** What the server has decided is what was set. */
  predicate Learnt(st: Setting, s: State, t: Terms) {
    var p := FullSlot(s);
    && p <= END
    && (s.SelectCertificate? || s.SelectParameters? || p == SH ==> t.channelId == st.server.channelIdAsked)
    && (p >= SH ==> t.session == st.Resumed() && t.ticketExpected == st.Ticket() && t.certRequest == st.CertRequested())
    && (p > SH ==> t.channelId == st.ChannelId())
    && (CERT <= p <= CERT_VERIFY ==> !t.session)
    && (p == CERT ==> t.statusExpected == st.Status())
    && (p == SKE ==> t.hasParams == st.HasParams())
    && (p <= CLIENT_CERT ==> !t.peerCert)
    && (CKE <= p ==> t.peerCert == ClientProves(st))
  }

  /** What the server may be waiting for. */
  predicate WaitOk(st: Setting, s: State, wait: Wait) {
    && !wait.Error? && !wait.AwaitServerHello?
    && (wait.AwaitCcs? ==> s.ProcessChangeCipherSpec?)
    && (wait.AwaitMessage? ==> Looks(st, s))
  }

  predicate OnScript(st: Setting, h: Hs, wait: Wait) {
    h.cfg == st.server && !h.terms.tls13 && Learnt(st, h.state, h.terms) && WaitOk(st, h.state, wait)
  }

  /** Unsent messages are only held in these states. */
  predicate Holds(s: State, wait: Wait) {
    || wait.Flush? || s.SendServerCertificate? || s.SendServerKeyExchange? || s.SendServerHelloDone?
    || s.SendServerFinished?
  }

  /** What running a state does, when the message looked at is the script's. */
  ghost predicate Follows(st: Setting, h: Hs, e: Effect) {
    && OnScript(st, Hs(h.cfg, e.state, e.terms), e.wait)
    && Moves(st, true, e.act, Slot(st, h.state, false), Slot(st, h.state, false), Slot(st, e.state, e.wait.AwaitCcs?))
    && (Holds(h.state, Ok) ==> Holds(e.state, e.wait))
    && (!Holds(e.state, e.wait) ==> !e.act.Say? && !e.act.Finish?)
  }

  /** Hypotheses of the lemmas below: an agreed setting, a server on script, no failing check. */
  predicate Ready(st: Setting, h: Hs, peek: Option<Kind>, checks: bool, o: Oracle) {
    && st.Agreed() && OnScript(st, h, Ok) && !o.fails && (checks ==> peek.Some?)
    && (Looks(st, h.state) && peek.Some? ==> Finds(st, h.state, peek.value) && (peek.value == Finished ==> checks))
  }

  // The moves the server makes.

  lemma HelloMoves(st: Setting)
    ensures Moves(st, true, Take, CH, CH, SH)
    ensures Moves(st, true, Say([st.ServerHello()]), SH, SH, if st.Resumed() then EARLY_TICKET else CERT)
  {
    hide Moves;
    TakesOne(st, true, CH);
    SaysOne(st, true, SH, SH);
    Gaps(st);
    if !st.Resumed() {
      SaysNothing(st, true, EARLY_TICKET, SH, CERT);
      SaysMore(st, true, [st.ServerHello()], [], SH, SH, EARLY_TICKET, CERT);
      assert [st.ServerHello()] + [] == [st.ServerHello()];
    }
  }

  function Certificates(st: Setting): seq<Kind> {
    if st.server.cipher.certAuth then [Certificate(false)] + When(st.Status(), CertificateStatus) else []
  }

  lemma CertificateMoves(st: Setting)
    requires !st.Resumed()
    ensures Moves(st, true, Say(Certificates(st)), CERT, CERT, SKE)
  {
    hide Moves, Setting.Status;
    SaysMaybe(st, true, CERT, CERT);
    SaysMaybe(st, true, STATUS, CERT);
    SaysMore(st, true, When(st.server.cipher.certAuth, Certificate(false)), When(st.Status(), CertificateStatus),
             CERT, CERT, STATUS, SKE);
    assert !st.server.cipher.certAuth ==> !st.Status() by { StatusNeedsCertificate(st); }
    assert When(st.server.cipher.certAuth, Certificate(false)) + When(st.Status(), CertificateStatus)
        == Certificates(st);
  }

  lemma StatusNeedsCertificate(st: Setting)
    ensures st.Status() ==> st.server.cipher.certAuth
  {
  }

  lemma KeyExchangeMoves(st: Setting)
    requires !st.Resumed()
    ensures st.HasParams() ==> Moves(st, true, Say([ServerKeyExchange]), SKE, SKE, CERT_REQUEST)
    ensures !st.HasParams() ==> Moves(st, true, Nothing, SKE, SKE, CERT_REQUEST)
  {
    hide Moves, Setting.HasParams;
    if st.HasParams() { SaysOne(st, true, SKE, SKE); } else { Passes(st, true, SKE, SKE); }
  }

  lemma HelloDoneMoves(st: Setting)
    requires !st.Resumed()
    ensures Moves(st, true, Say(When(st.CertRequested(), CertificateRequest) + [ServerHelloDone]),
                  CERT_REQUEST, CERT_REQUEST, CLIENT_CERT)
  {
    hide Moves, Setting.CertRequested;
    SaysMaybe(st, true, CERT_REQUEST, CERT_REQUEST);
    SaysOne(st, true, HELLO_DONE, CERT_REQUEST);
    SaysMore(st, true, When(st.CertRequested(), CertificateRequest), [ServerHelloDone],
             CERT_REQUEST, CERT_REQUEST, HELLO_DONE, CLIENT_CERT);
  }

  lemma ClientFlightMoves(st: Setting)
    requires !st.Resumed()
    ensures st.CertRequested() ==> Moves(st, true, Take, CLIENT_CERT, CLIENT_CERT, CKE)
    ensures !st.CertRequested() ==> Moves(st, true, Nothing, CLIENT_CERT, CLIENT_CERT, CKE)
    ensures Moves(st, true, Take, CKE, CKE, CERT_VERIFY)
  {
    hide Moves, Setting.CertRequested;
    if st.CertRequested() { TakesOne(st, true, CLIENT_CERT); } else { Passes(st, true, CLIENT_CERT, CLIENT_CERT); }
    TakesOne(st, true, CKE);
  }

  lemma VerifyMoves(st: Setting)
    ensures ClientProves(st) ==> Moves(st, true, Take, CERT_VERIFY, CERT_VERIFY, CLIENT_CCS)
    ensures !ClientProves(st) ==> Moves(st, true, Nothing, CERT_VERIFY, CERT_VERIFY, CLIENT_CCS)
  {
    hide Moves, Setting.CertRequested;
    if ClientProves(st) { TakesOne(st, true, CERT_VERIFY); } else { Passes(st, true, CERT_VERIFY, CERT_VERIFY); }
  }

  lemma LastMessageMoves(st: Setting)
    ensures st.server.npn ==> Moves(st, true, Take, NEXT_PROTO, NEXT_PROTO, CHANNEL_ID)
    ensures !st.server.npn ==> Moves(st, true, Nothing, NEXT_PROTO, NEXT_PROTO, CHANNEL_ID)
    ensures st.ChannelId() ==> Moves(st, true, Take, CHANNEL_ID, CHANNEL_ID, CLIENT_FINISHED)
    ensures !st.ChannelId() ==> Moves(st, true, Nothing, CHANNEL_ID, CHANNEL_ID, CLIENT_FINISHED)
  {
    hide Moves, Setting.ChannelId;
    if st.server.npn { TakesOne(st, true, NEXT_PROTO); } else { Passes(st, true, NEXT_PROTO, NEXT_PROTO); }
    if st.ChannelId() { TakesOne(st, true, CHANNEL_ID); } else { Passes(st, true, CHANNEL_ID, CHANNEL_ID); }
  }

  lemma FinishedMoves(st: Setting)
    ensures st.Resumed() ==> Moves(st, true, TakeFinished, CLIENT_FINISHED, CLIENT_FINISHED, END)
    ensures !st.Resumed() ==> Moves(st, true, TakeFinished, CLIENT_FINISHED, CLIENT_FINISHED, TICKET)
  {
    hide Moves;
    Gaps(st);
    if st.Resumed() {
      Takes(st, true, CLIENT_FINISHED, CLIENT_FINISHED, END);
    } else {
      TakesOne(st, true, CLIENT_FINISHED);
    }
  }

  /** The wire and the transcript of the server's last flight: ticket, cipher change, Finished. */
  lemma LastFlight(st: Setting, p: nat)
    requires p == if st.Resumed() then EARLY_TICKET else TICKET
    ensures Moves(st, true, Finish(When(st.Ticket(), NewSessionTicket(st.server.emptyTicket)), []), p, p,
                  if st.Resumed() then CLIENT_CCS else END)
  {
    hide Moves, Setting.Ticket;
    var before := When(st.Ticket(), NewSessionTicket(st.server.emptyTicket));
    LastFlightItems(st, p, before);
    Gaps(st);
    if st.Resumed() {
      FinishThenQuiet(st, before, p, p + 3, CLIENT_CCS);
    }
  }

  lemma LastFlightItems(st: Setting, p: nat, before: seq<Kind>)
    requires p == if st.Resumed() then EARLY_TICKET else TICKET
    requires before == When(st.Ticket(), NewSessionTicket(st.server.emptyTicket))
    ensures Moves(st, true, Finish(before, []), p, p, p + 3)
  {
    LastFlightSlots(st, p);
    hide Setting.Present, Setting.Ticket, ByServer, IsCcs, Setting.Sends, Setting.Said, Messages;
    NoMessages();
    assert st.Wire(true, p, p + 1) == st.Wire(true, p, p) + st.Sends(true, p);
    assert st.Wire(true, p, p + 2) == st.Wire(true, p, p + 1) + [Ccs];
    assert st.Wire(true, p, p + 3) == st.Wire(true, p, p + 2) + st.Sends(true, p + 2);
    assert st.Hashed(p + 1) == st.Hashed(p) + before;
    assert st.Hashed(p + 2) == st.Hashed(p + 1) + [];
    assert st.Hashed(p + 2) == st.Hashed(p) + before + [];
    assert st.Hashed(p + 3) == st.Hashed(p + 2) + [Finished];
    assert st.Wire(true, p, p + 3)
        == Messages(before) + [Ccs] + [] + [Handshake(Finished, FinishedMac(true, st.Hashed(p + 2)))];
  }

  lemma LastFlightSlots(st: Setting, p: nat)
    requires p == if st.Resumed() then EARLY_TICKET else TICKET
    ensures var before := When(st.Ticket(), NewSessionTicket(st.server.emptyTicket));
            && st.Sends(true, p) == Messages(before) && st.Said(p) == before
            && st.Sends(true, p + 1) == [Ccs] && st.Said(p + 1) == []
            && st.Sends(true, p + 2) == [Handshake(Finished, FinishedMac(true, st.Hashed(p + 2)))]
            && st.Said(p + 2) == [Finished]
            && st.Silent(false, p, p + 3)
  {
    hide Setting.Ticket, Setting.Hashed;
    var ticket := NewSessionTicket(st.server.emptyTicket);
    assert Messages([ticket]) == [Handshake(ticket, NoMac)] + Messages([]);
  }

  lemma FinishThenQuiet(st: Setting, before: seq<Kind>, p: nat, m: nat, r: nat)
    requires Moves(st, true, Finish(before, []), p, p, m) && m <= r && st.Quiet(m, r)
    ensures Moves(st, true, Finish(before, []), p, p, r)
  {
    QuietIsSilent(st, m, r);
    hide Setting.Present, ByServer, Setting.Wire, Setting.Hashed, Messages;
    WireSplit(st, true, p, m, r);
    WireSilent(st, true, m, r);
    HashedQuiet(st, m, r);
  }

  lemma EffectFollows(st: Setting, h: Hs, e: Effect)
    requires OnScript(st, Hs(h.cfg, e.state, e.terms), e.wait)
    requires Moves(st, true, e.act, Slot(st, h.state, false), Slot(st, h.state, false),
                   Slot(st, e.state, e.wait.AwaitCcs?))
    requires Holds(h.state, Ok) ==> Holds(e.state, e.wait)
    requires !Holds(e.state, e.wait) ==> !e.act.Say? && !e.act.Finish?
    ensures Follows(st, h, e)
  {
  }

  lemma StartFollows(st: Setting, h: Hs, peek: Option<Kind>, checks: bool, o: Oracle)
    requires Ready(st, h, peek, checks, o) && h.state.StartAccept?
    ensures Follows(st, h, h.Go(ReadClientHello))
  {
    hide Follows, Moves, Setting.Present, Setting.KindAt, ByServer, IsCcs, Setting.Agreed, Setting.Resumed,
         Setting.Ticket, Setting.ChannelId, Setting.Status, Setting.CertRequested, Setting.HasParams,
         Setting.ServerHello;
    Stays(st, true, CH, CH);
    EffectFollows(st, h, h.Go(ReadClientHello));
  }

  lemma ClientHelloFollows(st: Setting, h: Hs, peek: Option<Kind>, checks: bool, o: Oracle)
    requires Ready(st, h, peek, checks, o) && h.state.ReadClientHello?
    ensures Follows(st, h, h.DoReadClientHello(peek, o))
  {
    hide Follows, Moves, Setting.Present, Setting.KindAt, ByServer, IsCcs, Setting.Agreed, Setting.Resumed,
         Setting.Ticket, Setting.ChannelId, Setting.Status, Setting.CertRequested, Setting.HasParams,
         Setting.ServerHello;
    Stays(st, true, CH, CH);
    if peek.None? {
      EffectFollows(st, h, h.Stay(AwaitMessage));
    } else if o.pending {
      EffectFollows(st, h, h.Stay(Pending));
    } else {
      EffectFollows(st, h, Effect(SelectCertificate, h.terms.(channelId := h.cfg.channelIdAsked), Ok, Nothing));
    }
  }

  lemma SelectFollows(st: Setting, h: Hs, peek: Option<Kind>, checks: bool, o: Oracle)
    requires Ready(st, h, peek, checks, o) && h.state.SelectCertificate?
    ensures Follows(st, h, h.DoSelectCertificate(peek, o))
  {
    hide Follows, Moves, Setting.Present, Setting.KindAt, ByServer, IsCcs, Setting.Agreed, Setting.Resumed,
         Setting.Ticket, Setting.ChannelId, Setting.Status, Setting.CertRequested, Setting.HasParams,
         Setting.ServerHello;
    Stays(st, true, CH, CH);
    assert !st.server.tls13 by { AgreedMeans(st); }
    if peek.None? {
      EffectFollows(st, h, h.Stay(AwaitMessage));
    } else if o.pending {
      EffectFollows(st, h, h.Stay(Pending));
    } else {
      EffectFollows(st, h, h.Go(SelectParameters));
    }
  }

  lemma AgreedMeans(st: Setting)
    requires st.Agreed()
    ensures !st.server.tls13 && (st.CertRequested() && st.server.failIfNoPeerCert ==> st.client.hasCert)
  {
  }

  lemma ParametersFollows(st: Setting, h: Hs, peek: Option<Kind>, checks: bool, o: Oracle)
    requires Ready(st, h, peek, checks, o) && h.state.SelectParameters?
    ensures Follows(st, h, h.DoSelectParameters(peek, o))
  {
    hide Follows, Moves, Setting.Present, Setting.KindAt, ByServer, IsCcs, Setting.Agreed, Setting.ChannelId,
         Setting.Status, Setting.HasParams, Setting.ServerHello;
    HelloMoves(st);
    Stays(st, true, CH, CH);
    if peek.None? {
      EffectFollows(st, h, h.Stay(AwaitMessage));
    } else if o.pending {
      EffectFollows(st, h, h.Stay(Pending));
    } else {
      EffectFollows(st, h, h.DoSelectParameters(peek, o));
    }
  }

  lemma ResumedProvesNothing(st: Setting)
    ensures st.Resumed() ==> !ClientProves(st)
  {
  }

  lemma HelloFollows(st: Setting, h: Hs, peek: Option<Kind>, checks: bool, o: Oracle)
    requires Ready(st, h, peek, checks, o) && h.state.SendServerHello?
    ensures Follows(st, h, h.DoSendServerHello(o))
  {
    hide Follows, Moves, Setting.Present, Setting.KindAt, ByServer, IsCcs, Setting.Agreed, Setting.Resumed,
         Setting.Ticket, Setting.CertRequested, Setting.HasParams;
    HelloMoves(st);
    ResumedProvesNothing(st);
    EffectFollows(st, h, h.DoSendServerHello(o));
  }

  lemma CertificateFollows(st: Setting, h: Hs, peek: Option<Kind>, checks: bool, o: Oracle)
    requires Ready(st, h, peek, checks, o) && h.state.SendServerCertificate?
    ensures Follows(st, h, h.DoSendServerCertificate(o))
  {
    hide Follows, Moves, Setting.Present, Setting.KindAt, ByServer, IsCcs, Setting.Agreed, Setting.Resumed,
         Setting.Ticket, Setting.ChannelId, Setting.Status, Setting.CertRequested, Setting.ServerHello;
    CertificateMoves(st);
    EffectFollows(st, h, h.DoSendServerCertificate(o));
  }

  lemma KeyExchangeFollows(st: Setting, h: Hs, peek: Option<Kind>, checks: bool, o: Oracle)
    requires Ready(st, h, peek, checks, o) && h.state.SendServerKeyExchange?
    ensures Follows(st, h, h.DoSendServerKeyExchange(o))
  {
    hide Follows, Moves, Setting.Present, Setting.KindAt, ByServer, IsCcs, Setting.Agreed, Setting.Resumed,
         Setting.Ticket, Setting.ChannelId, Setting.Status, Setting.CertRequested, Setting.HasParams,
         Setting.ServerHello;
    KeyExchangeMoves(st);
    if !h.terms.hasParams {
      EffectFollows(st, h, h.Go(SendServerHelloDone));
    } else if h.cfg.cipher.certAuth && o.pending {
      Stays(st, true, SKE, SKE);
      EffectFollows(st, h, h.Stay(Pending));
    } else {
      EffectFollows(st, h, Effect(SendServerHelloDone, h.terms.(hasParams := false), Ok, Say([ServerKeyExchange])));
    }
  }

  lemma HelloDoneFollows(st: Setting, h: Hs, peek: Option<Kind>, checks: bool, o: Oracle)
    requires Ready(st, h, peek, checks, o) && h.state.SendServerHelloDone?
    ensures Follows(st, h, h.DoSendServerHelloDone(o))
  {
    hide Follows, Moves, Setting.Present, Setting.KindAt, ByServer, IsCcs, Setting.Agreed, Setting.Resumed,
         Setting.Ticket, Setting.ChannelId, Setting.Status, Setting.CertRequested, Setting.HasParams,
         Setting.ServerHello;
    HelloDoneMoves(st);
    EffectFollows(st, h, h.DoSendServerHelloDone(o));
  }

  lemma ClientCertificateFollows(st: Setting, h: Hs, peek: Option<Kind>, checks: bool, o: Oracle)
    requires Ready(st, h, peek, checks, o) && h.state.ReadClientCertificate?
    ensures Follows(st, h, h.DoReadClientCertificate(peek, o))
  {
    hide Follows, Moves, Setting.Present, Setting.KindAt, ByServer, IsCcs, Setting.Agreed, Setting.Resumed,
         Setting.Ticket, Setting.ChannelId, Setting.Status, Setting.CertRequested, Setting.HasParams,
         Setting.ServerHello;
    ClientFlightMoves(st);
    AgreedMeans(st);
    if !h.terms.certRequest {
      EffectFollows(st, h, h.Go(VerifyClientCertificate));
    } else if peek.None? {
      Stays(st, true, CLIENT_CERT, CLIENT_CERT);
      EffectFollows(st, h, h.Stay(AwaitMessage));
    } else {
      EffectFollows(st, h, Effect(VerifyClientCertificate, h.terms.(peerCert := st.client.hasCert), Ok, Take));
    }
  }

  lemma VerifyFollows(st: Setting, h: Hs, peek: Option<Kind>, checks: bool, o: Oracle)
    requires Ready(st, h, peek, checks, o) && h.state.VerifyClientCertificate?
    ensures Follows(st, h, h.DoVerifyClientCertificate(o))
  {
    hide Follows, Moves, Setting.Present, Setting.KindAt, ByServer, IsCcs, Setting.Agreed, Setting.Resumed,
         Setting.Ticket, Setting.ChannelId, Setting.Status, Setting.CertRequested, Setting.HasParams,
         Setting.ServerHello;
    Stays(st, true, CKE, CKE);
    if h.terms.peerCert && o.pending {
      EffectFollows(st, h, h.Stay(Pending));
    } else {
      EffectFollows(st, h, h.Go(ReadClientKeyExchange));
    }
  }

  lemma ClientKeyFollows(st: Setting, h: Hs, peek: Option<Kind>, checks: bool, o: Oracle)
    requires Ready(st, h, peek, checks, o) && h.state.ReadClientKeyExchange?
    ensures Follows(st, h, h.DoReadClientKeyExchange(peek, o))
  {
    hide Follows, Moves, Setting.Present, Setting.KindAt, ByServer, IsCcs, Setting.Agreed, Setting.Resumed,
         Setting.Ticket, Setting.ChannelId, Setting.Status, Setting.CertRequested, Setting.HasParams,
         Setting.ServerHello;
    ClientFlightMoves(st);
    Stays(st, true, CKE, CKE);
    if peek.None? {
      EffectFollows(st, h, h.Stay(AwaitMessage));
    } else if h.cfg.cipher.certAuth && !h.cfg.cipher.ecdhe && o.pending {
      EffectFollows(st, h, h.Stay(Pending));
    } else {
      EffectFollows(st, h, h.GoWith(ReadClientCertificateVerify, Take));
    }
  }

  lemma CertificateVerifyFollows(st: Setting, h: Hs, peek: Option<Kind>, checks: bool, o: Oracle)
    requires Ready(st, h, peek, checks, o) && h.state.ReadClientCertificateVerify?
    ensures Follows(st, h, h.DoReadClientCertificateVerify(peek, o))
  {
    hide Follows, Moves, Setting.Present, Setting.KindAt, ByServer, IsCcs, Setting.Agreed, Setting.Resumed,
         Setting.Ticket, Setting.ChannelId, Setting.Status, Setting.CertRequested, Setting.HasParams,
         Setting.ServerHello;
    VerifyMoves(st);
    if !h.terms.peerCert {
      EffectFollows(st, h, h.Go(ReadChangeCipherSpec));
    } else if peek.None? {
      Stays(st, true, CERT_VERIFY, CERT_VERIFY);
      EffectFollows(st, h, h.Stay(AwaitMessage));
    } else {
      EffectFollows(st, h, h.GoWith(ReadChangeCipherSpec, Take));
    }
  }

  lemma CcsFollows(st: Setting, h: Hs, peek: Option<Kind>, checks: bool, o: Oracle)
    requires Ready(st, h, peek, checks, o) && h.state.ReadChangeCipherSpec?
    ensures Follows(st, h, h.DoReadChangeCipherSpec())
  {
    hide Follows, Moves, Setting.Present, Setting.KindAt, ByServer, IsCcs, Setting.Agreed, Setting.Resumed,
         Setting.Ticket, Setting.ChannelId, Setting.Status, Setting.CertRequested, Setting.HasParams,
         Setting.ServerHello;
    Stays(st, true, CLIENT_CCS, CLIENT_CCS);
    EffectFollows(st, h, Effect(ProcessChangeCipherSpec, h.terms, AwaitCcs, Nothing));
  }

  lemma CipherFollows(st: Setting, h: Hs, peek: Option<Kind>, checks: bool, o: Oracle)
    requires Ready(st, h, peek, checks, o) && h.state.ProcessChangeCipherSpec?
    ensures Follows(st, h, h.DoProcessChangeCipherSpec(o))
  {
    hide Follows, Moves, Setting.Present, Setting.KindAt, ByServer, IsCcs, Setting.Agreed, Setting.Resumed,
         Setting.Ticket, Setting.ChannelId, Setting.Status, Setting.CertRequested, Setting.HasParams,
         Setting.ServerHello;
    Stays(st, true, NEXT_PROTO, NEXT_PROTO);
    EffectFollows(st, h, h.GoWith(ReadNextProto, OpenCipher));
  }

  lemma NextProtoFollows(st: Setting, h: Hs, peek: Option<Kind>, checks: bool, o: Oracle)
    requires Ready(st, h, peek, checks, o) && h.state.ReadNextProto?
    ensures Follows(st, h, h.DoReadNextProto(peek, o))
  {
    hide Follows, Moves, Setting.Present, Setting.KindAt, ByServer, IsCcs, Setting.Agreed, Setting.Resumed,
         Setting.Ticket, Setting.ChannelId, Setting.Status, Setting.CertRequested, Setting.HasParams,
         Setting.ServerHello;
    LastMessageMoves(st);
    if !h.cfg.npn {
      EffectFollows(st, h, h.Go(ReadChannelId));
    } else if peek.None? {
      Stays(st, true, NEXT_PROTO, NEXT_PROTO);
      EffectFollows(st, h, h.Stay(AwaitMessage));
    } else {
      EffectFollows(st, h, h.GoWith(ReadChannelId, Take));
    }
  }

  lemma ChannelIdFollows(st: Setting, h: Hs, peek: Option<Kind>, checks: bool, o: Oracle)
    requires Ready(st, h, peek, checks, o) && h.state.ReadChannelId?
    ensures Follows(st, h, h.DoReadChannelId(peek, o))
  {
    hide Follows, Moves, Setting.Present, Setting.KindAt, ByServer, IsCcs, Setting.Agreed, Setting.Resumed,
         Setting.Ticket, Setting.ChannelId, Setting.Status, Setting.CertRequested, Setting.HasParams,
         Setting.ServerHello;
    LastMessageMoves(st);
    if !h.terms.channelId {
      EffectFollows(st, h, h.Go(ReadClientFinished));
    } else if peek.None? {
      Stays(st, true, CHANNEL_ID, CHANNEL_ID);
      EffectFollows(st, h, h.Stay(AwaitMessage));
    } else {
      EffectFollows(st, h, h.GoWith(ReadClientFinished, Take));
    }
  }

  lemma ClientFinishedFollows(st: Setting, h: Hs, peek: Option<Kind>, checks: bool, o: Oracle)
    requires Ready(st, h, peek, checks, o) && h.state.ReadClientFinished?
    ensures Follows(st, h, h.DoReadClientFinished(peek, checks, o))
  {
    hide Follows, Moves, Setting.Present, Setting.KindAt, ByServer, IsCcs, Setting.Agreed, Setting.Resumed,
         Setting.Ticket, Setting.ChannelId, Setting.Status, Setting.CertRequested, Setting.HasParams,
         Setting.ServerHello;
    FinishedMoves(st);
    if peek.None? {
      Stays(st, true, CLIENT_FINISHED, CLIENT_FINISHED);
      EffectFollows(st, h, h.Stay(AwaitMessage));
    } else if h.terms.session {
      EffectFollows(st, h, h.GoWith(FinishServerHandshake, TakeFinished));
    } else {
      EffectFollows(st, h, h.GoWith(SendServerFinished, TakeFinished));
    }
  }

  lemma ServerFinishedFollows(st: Setting, h: Hs, peek: Option<Kind>, checks: bool, o: Oracle)
    requires Ready(st, h, peek, checks, o) && h.state.SendServerFinished?
    ensures Follows(st, h, h.DoSendServerFinished(o))
  {
    hide Follows, Moves, Setting.Present, Setting.KindAt, ByServer, IsCcs, Setting.Agreed, Setting.Resumed,
         Setting.Ticket, Setting.ChannelId, Setting.Status, Setting.CertRequested, Setting.HasParams,
         Setting.ServerHello;
    LastFlight(st, Slot(st, h.state, false));
    if h.terms.session {
      EffectFollows(st, h, h.DoSendServerFinished(o));
    } else {
      EffectFollows(st, h, h.DoSendServerFinished(o));
    }
  }

  lemma EndFollows(st: Setting, h: Hs)
    requires OnScript(st, h, Ok)
    ensures h.state.FinishServerHandshake? ==> Follows(st, h, h.Go(Done))
    ensures h.state.Done? ==> Follows(st, h, h.Stay(Ok))
  {
    hide Moves, Setting.Present;
    Stays(st, true, END, END);
  }

  /** Every state of the server machine follows the script. */
  lemma RunFollows(st: Setting, h: Hs, peek: Option<Kind>, checks: bool, o: Oracle)
    requires Ready(st, h, peek, checks, o)
    ensures Follows(st, h, h.Run(peek, checks, o))
  {
    hide Follows, Looks, Finds, WaitOk, Hs.DoReadClientHello, Hs.DoSelectCertificate, Hs.DoSelectParameters,
         Hs.DoSendServerHello, Hs.DoSendServerCertificate, Hs.DoSendServerKeyExchange, Hs.DoSendServerHelloDone,
         Hs.DoReadClientCertificate, Hs.DoVerifyClientCertificate, Hs.DoReadClientKeyExchange,
         Hs.DoReadClientCertificateVerify, Hs.DoReadChangeCipherSpec, Hs.DoProcessChangeCipherSpec, Hs.DoReadNextProto,
         Hs.DoReadChannelId, Hs.DoReadClientFinished, Hs.DoSendServerFinished, Hs.Go, Hs.Stay;
    match h.state
    case StartAccept => StartFollows(st, h, peek, checks, o);
    case ReadClientHello => ClientHelloFollows(st, h, peek, checks, o);
    case SelectCertificate => SelectFollows(st, h, peek, checks, o);
    case Tls13 =>
    case SelectParameters => ParametersFollows(st, h, peek, checks, o);
    case SendServerHello => HelloFollows(st, h, peek, checks, o);
    case SendServerCertificate => CertificateFollows(st, h, peek, checks, o);
    case SendServerKeyExchange => KeyExchangeFollows(st, h, peek, checks, o);
    case SendServerHelloDone => HelloDoneFollows(st, h, peek, checks, o);
    case ReadClientCertificate => ClientCertificateFollows(st, h, peek, checks, o);
    case VerifyClientCertificate => VerifyFollows(st, h, peek, checks, o);
    case ReadClientKeyExchange => ClientKeyFollows(st, h, peek, checks, o);
    case ReadClientCertificateVerify => CertificateVerifyFollows(st, h, peek, checks, o);
    case ReadChangeCipherSpec => CcsFollows(st, h, peek, checks, o);
    case ProcessChangeCipherSpec => CipherFollows(st, h, peek, checks, o);
    case ReadNextProto => NextProtoFollows(st, h, peek, checks, o);
    case ReadChannelId => ChannelIdFollows(st, h, peek, checks, o);
    case ReadClientFinished => ClientFinishedFollows(st, h, peek, checks, o);
    case SendServerFinished => ServerFinishedFollows(st, h, peek, checks, o);
    case FinishServerHandshake => EndFollows(st, h);
    case Done => EndFollows(st, h);
  }

  /** The message that a looking state waits for is the next one due, and the client sends it. */
  lemma LooksAtNext(st: Setting, h: Hs)
    requires OnScript(st, h, Ok) && Looks(st, h.state)
    ensures var p := Slot(st, h.state, false);
            p >= 0 && st.NextIs(p, p) && !ByServer(p) && !IsCcs(p) && Finds(st, h.state, st.KindAt(p))
  {
  }

  lemma CcsIsNext(st: Setting, h: Hs)
    requires OnScript(st, h, Ok) && h.state.ProcessChangeCipherSpec?
    ensures var p := Slot(st, h.state, true);
            p >= 0 && st.NextIs(p, p) && !ByServer(p) && IsCcs(p) && Slot(st, h.state, false) == p + 1
  {
  }
}
