/** With an agreeable server, the client machine follows the script. */
module TlsClientScript {
  import opened Wrappers
  import opened TlsMessages
  import opened TlsClient
  import opened TlsScript
  import opened TlsJoin

  /** The slot of a full handshake that a client in this state stands before. */
  function FullSlot(s: State): nat {
    match s
    case StartConnect => 0
    case EnterEarlyData => 1
    case ReadHelloVerifyRequest => 1
    case ReadServerHello => 1
    case ReadServerCertificate => 5
    case ReadCertificateStatus => 6
    case VerifyServerCertificate => 7
    case ReadServerKeyExchange => 7
    case ReadCertificateRequest => 8
    case ReadServerHelloDone => 9
    case SendClientCertificate => 10
    case SendClientKeyExchange => 11
    case SendClientCertificateVerify => 12
    case SendClientFinished => 13
    case FinishFlight => 17
    case ReadSessionTicket => 17
    case ProcessChangeCipherSpec => 19
    case ReadServerFinished => 19
    case FinishClientHandshake => 20
    case Done => 20
    case Tls13 => 21
  }

  /** The slot of this handshake: in a resumed one the server finishes early, and while the client awaits the
      ChangeCipherSpec, that is the slot it stands before. */
  function Slot(st: Setting, s: State, awaitsCcs: bool): int {
    var early := st.Resumed() && (s.ReadSessionTicket? || s.ProcessChangeCipherSpec? || s.ReadServerFinished?);
    FullSlot(s) - (if early then TICKET - EARLY_TICKET else 0) - (if awaitsCcs then 1 else 0)
  }

  /** The state looks at the next message. */
  predicate Looks(st: Setting, s: State) {
    match s
    case ReadHelloVerifyRequest => true
    case ReadServerHello => true
    case ReadServerCertificate => st.server.cipher.certAuth
    case ReadCertificateStatus => st.Status()
    case ReadServerKeyExchange => true
    case ReadCertificateRequest => st.server.cipher.certAuth
    case ReadServerHelloDone => true
    case ReadSessionTicket => st.Ticket()
    case ReadServerFinished => true
    case _ => false
  }

  /** The slot of the message it then finds: optional messages may be missing. */
  function At(st: Setting, s: State): int {
    if s.ReadServerKeyExchange? && !st.HasParams() then
      if st.CertRequested() then CERT_REQUEST else HELLO_DONE
    else if s.ReadCertificateRequest? && !st.CertRequested() then HELLO_DONE
    else Slot(st, s, false)
  }

  /** The message it then finds. */
  predicate Finds(st: Setting, s: State, kind: Kind) {
    match s
    case ReadHelloVerifyRequest => kind == st.ServerHello()
    case ReadServerHello => kind == st.ServerHello()
    case ReadServerCertificate => kind == Certificate(false)
    case ReadCertificateStatus => kind == CertificateStatus
    case ReadServerKeyExchange =>
      kind == if st.HasParams() then ServerKeyExchange
              else if st.CertRequested() then CertificateRequest else ServerHelloDone
    case ReadCertificateRequest => kind == if st.CertRequested() then CertificateRequest else ServerHelloDone
    case ReadServerHelloDone => kind == ServerHelloDone
    case ReadSessionTicket => kind == NewSessionTicket(st.server.emptyTicket)
    case ReadServerFinished => kind == Finished
    case _ => true
  }

  /** What the client has learnt is what was set. */
  predicate Knows(st: Setting, t: Terms) {
    && t.session == st.Resumed() && t.cipher == st.server.cipher && t.statusExpected == st.Status()
    && t.npn == st.server.npn && t.channelId == st.ChannelId()
  }

  predicate Learnt(st: Setting, s: State, t: Terms) {
    var p := FullSlot(s);
    && p <= END
    && (p == SH ==> t.session == st.client.session)
    && (p > SH ==> Knows(st, t))
    && (CERT <= p <= CERT_VERIFY ==> !t.session)
    && (CERT <= p <= CERT_REQUEST ==> !t.certRequest)
    && (HELLO_DONE <= p <= CERT_VERIFY ==> t.certRequest == st.CertRequested())
    && (s.ReadSessionTicket? || (CERT <= p <= TICKET && !t.session) ==> t.ticketExpected == st.Ticket())
  }

  /** What the client may be waiting for. */
  predicate WaitOk(st: Setting, s: State, wait: Wait) {
    && !wait.Error?
    && (wait.AwaitCcs? ==> s.ProcessChangeCipherSpec?)
    && (wait.AwaitMessage? || wait.AwaitServerHello? ==> Looks(st, s))
  }

  predicate OnScript(st: Setting, h: Hs, wait: Wait) {
    h.cfg == st.client && !h.terms.tls13 && Learnt(st, h.state, h.terms) && WaitOk(st, h.state, wait)
  }

  /** Unsent messages are only held in these states. */
  predicate Holds(s: State, wait: Wait) {
    wait.Flush? || s.SendClientKeyExchange? || s.SendClientCertificateVerify? || s.SendClientFinished?
  }

  /** What running a state does, when the message looked at is the script's. */
  ghost predicate Follows(st: Setting, h: Hs, e: Effect) {
    && OnScript(st, Hs(h.cfg, e.state, e.terms), e.wait)
    && Moves(st, false, e.act, Slot(st, h.state, false), At(st, h.state), Slot(st, e.state, e.wait.AwaitCcs?))
    && (Holds(h.state, Ok) ==> Holds(e.state, e.wait))
    && (!Holds(e.state, e.wait) ==> !e.act.Say? && !e.act.Finish?)
  }

  /** Hypotheses of the lemmas below: an agreed setting, a client on script, no failing check. */
  predicate Ready(st: Setting, h: Hs, peek: Option<Kind>, checks: bool, o: Oracle) {
    && st.Agreed() && OnScript(st, h, Ok) && !o.fails && (checks ==> peek.Some?)
    && (Looks(st, h.state) && peek.Some? ==> Finds(st, h.state, peek.value) && (peek.value == Finished ==> checks))
  }

  // The moves the client makes.

  lemma HelloMoves(st: Setting)
    ensures Moves(st, false, Say([ClientHello(st.client.session)]), CH, CH, SH)
    ensures Moves(st, false, Take, SH, SH, if st.Resumed() then EARLY_TICKET else CERT)
  {
    hide Moves;
    SaysOne(st, false, CH, CH);
    Gaps(st);
    Takes(st, false, SH, SH, if st.Resumed() then EARLY_TICKET else CERT);
  }

  lemma CertificateMoves(st: Setting)
    requires !st.Resumed()
    ensures Moves(st, false, if st.server.cipher.certAuth then Take else Nothing, CERT, CERT, STATUS)
    ensures Moves(st, false, if st.Status() then Take else Nothing, STATUS, STATUS, SKE)
  {
    hide Moves, Setting.Status;
    if st.server.cipher.certAuth { TakesOne(st, false, CERT); } else { Passes(st, false, CERT, CERT); }
    if st.Status() { TakesOne(st, false, STATUS); } else { Passes(st, false, STATUS, STATUS); }
  }

  lemma KeyExchangeMoves(st: Setting, q: nat)
    requires !st.Resumed()
    ensures if st.HasParams() then Moves(st, false, Take, SKE, SKE, CERT_REQUEST)
            else Moves(st, false, Nothing, SKE, q, CERT_REQUEST)
  {
    hide Moves, Setting.HasParams;
    if st.HasParams() { TakesOne(st, false, SKE); } else { Passes(st, false, SKE, q); }
  }

  lemma RequestMoves(st: Setting, q: nat)
    ensures if st.CertRequested() then Moves(st, false, Take, CERT_REQUEST, CERT_REQUEST, HELLO_DONE)
            else Moves(st, false, Nothing, CERT_REQUEST, q, HELLO_DONE)
  {
    hide Moves, Setting.CertRequested;
    if st.CertRequested() { TakesOne(st, false, CERT_REQUEST); } else { Passes(st, false, CERT_REQUEST, q); }
  }

  lemma ClientFlightMoves(st: Setting)
    requires !st.Resumed()
    ensures Moves(st, false, Take, HELLO_DONE, HELLO_DONE, CLIENT_CERT)
    ensures Moves(st, false, if st.CertRequested() then Say([Certificate(!st.client.hasCert)]) else Nothing,
                  CLIENT_CERT, CLIENT_CERT, CKE)
    ensures Moves(st, false, Say([ClientKeyExchange]), CKE, CKE, CERT_VERIFY)
  {
    hide Moves, Setting.CertRequested;
    TakesOne(st, false, HELLO_DONE);
    if st.CertRequested() {
      SaysOne(st, false, CLIENT_CERT, CLIENT_CERT);
    } else {
      Passes(st, false, CLIENT_CERT, CLIENT_CERT);
    }
    SaysOne(st, false, CKE, CKE);
  }

  lemma VerifyMoves(st: Setting)
    ensures Moves(st, false, if st.CertRequested() && st.client.hasCert then Say([CertificateVerify]) else Nothing,
                  CERT_VERIFY, CERT_VERIFY, CLIENT_CCS)
  {
    hide Moves, Setting.CertRequested;
    if st.CertRequested() && st.client.hasCert {
      SaysOne(st, false, CERT_VERIFY, CERT_VERIFY);
    } else {
      Passes(st, false, CERT_VERIFY, CERT_VERIFY);
    }
  }

  lemma TicketMoves(st: Setting, p: nat)
    requires p == if st.Resumed() then EARLY_TICKET else TICKET
    ensures Moves(st, false, if st.Ticket() then Take else Nothing, p, p, p + 1)
  {
    hide Moves, Setting.Ticket;
    if st.Ticket() { TakesOne(st, false, p); } else { Passes(st, false, p, p); }
  }

  lemma FinishedMoves(st: Setting, p: nat)
    requires p == if st.Resumed() then EARLY_FINISHED else SERVER_FINISHED
    ensures Moves(st, false, TakeFinished, p, p, if st.Resumed() then CLIENT_CCS else END)
    ensures st.Resumed() ==> Moves(st, false, Nothing, TICKET, TICKET, END)
  {
    hide Moves;
    Gaps(st);
    Takes(st, false, p, p, if st.Resumed() then CLIENT_CCS else END);
    if st.Resumed() { Jumps(st, false, TICKET, TICKET, END); }
  }

  lemma EffectFollows(st: Setting, h: Hs, e: Effect)
    requires OnScript(st, Hs(h.cfg, e.state, e.terms), e.wait)
    requires Moves(st, false, e.act, Slot(st, h.state, false), At(st, h.state), Slot(st, e.state, e.wait.AwaitCcs?))
    requires Holds(h.state, Ok) ==> Holds(e.state, e.wait)
    requires !Holds(e.state, e.wait) ==> !e.act.Say? && !e.act.Finish?
    ensures Follows(st, h, e)
  {
  }

  lemma StartFollows(st: Setting, h: Hs, peek: Option<Kind>, checks: bool, o: Oracle)
    requires Ready(st, h, peek, checks, o) && h.state.StartConnect?
    ensures Follows(st, h, h.DoStartConnect(o))
  {
    hide Follows, Moves, Setting.Present, Setting.KindAt, ByServer, IsCcs, Setting.Agreed, Setting.Resumed,
         Setting.Ticket, Setting.ChannelId, Setting.Status, Setting.CertRequested, Setting.HasParams,
         Setting.ServerHello;
    HelloMoves(st);
    EffectFollows(st, h, h.DoStartConnect(o));
  }

  lemma EnterFollows(st: Setting, h: Hs, peek: Option<Kind>, checks: bool, o: Oracle)
    requires Ready(st, h, peek, checks, o) && h.state.EnterEarlyData?
    ensures Follows(st, h, h.DoEnterEarlyData())
  {
    hide Follows, Moves, Setting.Present, Setting.KindAt, ByServer, IsCcs, Setting.Agreed, Setting.Resumed,
         Setting.Ticket, Setting.ChannelId, Setting.Status, Setting.CertRequested, Setting.HasParams,
         Setting.ServerHello;
    Stays(st, false, SH, SH);
    if h.cfg.dtls {
      EffectFollows(st, h, h.Go(ReadHelloVerifyRequest));
    } else {
      EffectFollows(st, h, h.Go(ReadServerHello));
    }
  }

  lemma VerifyRequestFollows(st: Setting, h: Hs, peek: Option<Kind>, checks: bool, o: Oracle)
    requires Ready(st, h, peek, checks, o) && h.state.ReadHelloVerifyRequest?
    ensures Follows(st, h, h.DoReadHelloVerifyRequest(peek, o))
  {
    hide Follows, Moves, Setting.Present, Setting.KindAt, ByServer, IsCcs, Setting.Agreed, Setting.Resumed,
         Setting.Ticket, Setting.ChannelId, Setting.Status, Setting.CertRequested, Setting.HasParams;
    Stays(st, false, SH, SH);
    if peek.None? {
      EffectFollows(st, h, h.Stay(AwaitMessage));
    } else {
      EffectFollows(st, h, h.Go(ReadServerHello));
    }
  }

  lemma HelloFollows(st: Setting, h: Hs, peek: Option<Kind>, checks: bool, o: Oracle)
    requires Ready(st, h, peek, checks, o) && h.state.ReadServerHello?
    ensures Follows(st, h, h.DoReadServerHello(peek, o))
  {
    hide Follows, Moves, Setting.Present, Setting.KindAt, ByServer, IsCcs, Setting.Agreed, Setting.Ticket,
         Setting.ChannelId, Setting.CertRequested, Setting.HasParams;
    HelloMoves(st);
    if peek.None? {
      Stays(st, false, SH, SH);
      EffectFollows(st, h, h.Stay(AwaitServerHello));
    } else {
      EffectFollows(st, h, h.DoReadServerHello(peek, o));
    }
  }

  lemma CertificateFollows(st: Setting, h: Hs, peek: Option<Kind>, checks: bool, o: Oracle)
    requires Ready(st, h, peek, checks, o) && h.state.ReadServerCertificate?
    ensures Follows(st, h, h.DoReadServerCertificate(peek, o))
  {
    hide Follows, Moves, Setting.Present, Setting.KindAt, ByServer, IsCcs, Setting.Agreed, Setting.Resumed,
         Setting.Ticket, Setting.ChannelId, Setting.Status, Setting.CertRequested, Setting.HasParams,
         Setting.ServerHello;
    CertificateMoves(st);
    if !h.terms.cipher.certAuth {
      EffectFollows(st, h, h.Go(ReadCertificateStatus));
    } else if peek.None? {
      Stays(st, false, CERT, CERT);
      EffectFollows(st, h, h.Stay(AwaitMessage));
    } else {
      EffectFollows(st, h, h.GoWith(ReadCertificateStatus, Take));
    }
  }

  lemma StatusFollows(st: Setting, h: Hs, peek: Option<Kind>, checks: bool, o: Oracle)
    requires Ready(st, h, peek, checks, o) && h.state.ReadCertificateStatus?
    ensures Follows(st, h, h.DoReadCertificateStatus(peek, o))
  {
    hide Follows, Moves, Setting.Present, Setting.KindAt, ByServer, IsCcs, Setting.Agreed, Setting.Resumed,
         Setting.Ticket, Setting.ChannelId, Setting.Status, Setting.CertRequested, Setting.HasParams,
         Setting.ServerHello;
    CertificateMoves(st);
    if !h.terms.statusExpected {
      EffectFollows(st, h, h.Go(VerifyServerCertificate));
    } else if peek.None? {
      Stays(st, false, STATUS, STATUS);
      EffectFollows(st, h, h.Stay(AwaitMessage));
    } else {
      EffectFollows(st, h, h.GoWith(VerifyServerCertificate, Take));
    }
  }

  lemma VerifyFollows(st: Setting, h: Hs, peek: Option<Kind>, checks: bool, o: Oracle)
    requires Ready(st, h, peek, checks, o) && h.state.VerifyServerCertificate?
    ensures Follows(st, h, h.DoVerifyServerCertificate(o))
  {
    hide Follows, Moves, Setting.Present, Setting.KindAt, ByServer, IsCcs, Setting.Agreed, Setting.Resumed,
         Setting.Ticket, Setting.ChannelId, Setting.Status, Setting.CertRequested, Setting.HasParams,
         Setting.ServerHello;
    Stays(st, false, SKE, SKE);
    if h.terms.cipher.certAuth && o.pending {
      EffectFollows(st, h, h.Stay(Pending));
    } else {
      EffectFollows(st, h, h.Go(ReadServerKeyExchange));
    }
  }

  lemma KeyExchangeFollows(st: Setting, h: Hs, peek: Option<Kind>, checks: bool, o: Oracle)
    requires Ready(st, h, peek, checks, o) && h.state.ReadServerKeyExchange?
    ensures Follows(st, h, h.DoReadServerKeyExchange(peek, o))
  {
    hide Follows, Moves, Setting.Present, Setting.KindAt, ByServer, IsCcs, Setting.Agreed, Setting.Resumed,
         Setting.Ticket, Setting.ChannelId, Setting.Status, Setting.CertRequested, Setting.ServerHello;
    KeyExchangeMoves(st, At(st, h.state));
    if peek.None? {
      Stays(st, false, SKE, At(st, h.state));
      EffectFollows(st, h, h.Stay(AwaitMessage));
    } else if st.HasParams() {
      EffectFollows(st, h, h.GoWith(ReadCertificateRequest, Take));
    } else {
      EffectFollows(st, h, h.Go(ReadCertificateRequest));
    }
  }

  lemma RequestFollows(st: Setting, h: Hs, peek: Option<Kind>, checks: bool, o: Oracle)
    requires Ready(st, h, peek, checks, o) && h.state.ReadCertificateRequest?
    ensures Follows(st, h, h.DoReadCertificateRequest(peek, o))
  {
    hide Follows, Moves, Setting.Present, Setting.KindAt, ByServer, IsCcs, Setting.Agreed, Setting.Resumed,
         Setting.Ticket, Setting.ChannelId, Setting.Status, Setting.HasParams, Setting.ServerHello;
    RequestMoves(st, At(st, h.state));
    if h.terms.cipher.certAuth && peek.None? {
      Stays(st, false, CERT_REQUEST, At(st, h.state));
      EffectFollows(st, h, h.Stay(AwaitMessage));
    } else if st.CertRequested() {
      EffectFollows(st, h, Effect(ReadServerHelloDone, h.terms.(certRequest := true), Ok, Take));
    } else {
      EffectFollows(st, h, h.Go(ReadServerHelloDone));
    }
  }

  lemma HelloDoneFollows(st: Setting, h: Hs, peek: Option<Kind>, checks: bool, o: Oracle)
    requires Ready(st, h, peek, checks, o) && h.state.ReadServerHelloDone?
    ensures Follows(st, h, h.DoReadServerHelloDone(peek, o))
  {
    hide Follows, Moves, Setting.Present, Setting.KindAt, ByServer, IsCcs, Setting.Agreed, Setting.Resumed,
         Setting.Ticket, Setting.ChannelId, Setting.Status, Setting.CertRequested, Setting.HasParams,
         Setting.ServerHello;
    ClientFlightMoves(st);
    if peek.None? {
      Stays(st, false, HELLO_DONE, HELLO_DONE);
      EffectFollows(st, h, h.Stay(AwaitMessage));
    } else {
      EffectFollows(st, h, h.GoWith(SendClientCertificate, Take));
    }
  }

  lemma ClientCertificateFollows(st: Setting, h: Hs, peek: Option<Kind>, checks: bool, o: Oracle)
    requires Ready(st, h, peek, checks, o) && h.state.SendClientCertificate?
    ensures Follows(st, h, h.DoSendClientCertificate(o))
  {
    hide Follows, Moves, Setting.Present, Setting.KindAt, ByServer, IsCcs, Setting.Agreed, Setting.Resumed,
         Setting.Ticket, Setting.ChannelId, Setting.Status, Setting.CertRequested, Setting.HasParams,
         Setting.ServerHello;
    ClientFlightMoves(st);
    if !h.terms.certRequest {
      EffectFollows(st, h, h.Go(SendClientKeyExchange));
    } else if o.pending {
      Stays(st, false, CLIENT_CERT, CLIENT_CERT);
      EffectFollows(st, h, h.Stay(Pending));
    } else {
      EffectFollows(st, h, h.GoWith(SendClientKeyExchange, Say([Certificate(!h.cfg.hasCert)])));
    }
  }

  lemma ClientKeyFollows(st: Setting, h: Hs, peek: Option<Kind>, checks: bool, o: Oracle)
    requires Ready(st, h, peek, checks, o) && h.state.SendClientKeyExchange?
    ensures Follows(st, h, h.DoSendClientKeyExchange(o))
  {
    hide Follows, Moves, Setting.Present, Setting.KindAt, ByServer, IsCcs, Setting.Agreed, Setting.Resumed,
         Setting.Ticket, Setting.ChannelId, Setting.Status, Setting.CertRequested, Setting.HasParams,
         Setting.ServerHello;
    ClientFlightMoves(st);
    EffectFollows(st, h, h.GoWith(SendClientCertificateVerify, Say([ClientKeyExchange])));
  }

  lemma CertificateVerifyFollows(st: Setting, h: Hs, peek: Option<Kind>, checks: bool, o: Oracle)
    requires Ready(st, h, peek, checks, o) && h.state.SendClientCertificateVerify?
    ensures Follows(st, h, h.DoSendClientCertificateVerify(o))
  {
    hide Follows, Moves, Setting.Present, Setting.KindAt, ByServer, IsCcs, Setting.Agreed, Setting.Resumed,
         Setting.Ticket, Setting.ChannelId, Setting.Status, Setting.CertRequested, Setting.HasParams,
         Setting.ServerHello;
    VerifyMoves(st);
    if !h.terms.certRequest || !h.cfg.hasCert {
      EffectFollows(st, h, h.Go(SendClientFinished));
    } else if o.pending {
      Stays(st, false, CERT_VERIFY, CERT_VERIFY);
      EffectFollows(st, h, h.Stay(Pending));
    } else {
      EffectFollows(st, h, h.GoWith(SendClientFinished, Say([CertificateVerify])));
    }
  }

  function LastMessages(st: Setting): seq<Kind> {
    (if st.server.npn then [NextProto] else []) + (if st.ChannelId() then [TlsMessages.ChannelId] else [])
  }

  lemma LastMessagesAreSent(st: Setting)
    ensures st.Sends(false, 13) == [Ccs] && st.Said(13) == []
    ensures st.Sends(false, 14) + st.Sends(false, 15) == Messages(LastMessages(st))
    ensures st.Said(14) + st.Said(15) == LastMessages(st)
    ensures st.Said(16) == [Finished]
    ensures st.Sends(false, 16) == [Handshake(Finished, FinishedMac(false, st.Hashed(16)))]
  {
    hide Setting.Hashed;
    var np, id := Handshake(NextProto, NoMac), Handshake(TlsMessages.ChannelId, NoMac);
    assert Messages([NextProto]) == [np] && Messages([TlsMessages.ChannelId]) == [id];
    assert [NextProto, TlsMessages.ChannelId][1..] == [TlsMessages.ChannelId];
    assert Messages([NextProto, TlsMessages.ChannelId]) == [np] + Messages([TlsMessages.ChannelId]);
  }

  /** The wire and the transcript of the client's last flight. */
  lemma LastFlight(st: Setting, q: nat)
    ensures Moves(st, false, Finish([], LastMessages(st)), CLIENT_CCS, q, TICKET)
  {
    hide Setting.Said, Setting.Sends, LastMessages, Messages, Setting.Present;
    LastMessagesAreSent(st);
    assert st.Hashed(14) == st.Hashed(13) + [];
    assert st.Hashed(15) == st.Hashed(14) + st.Said(14);
    assert st.Hashed(16) == st.Hashed(15) + st.Said(15);
    assert st.Hashed(16) == st.Hashed(13) + [] + LastMessages(st);
    assert st.Hashed(17) == st.Hashed(16) + [Finished];
    assert st.Wire(false, 13, 14) == st.Wire(false, 13, 13) + [Ccs];
    assert st.Wire(false, 13, 15) == st.Wire(false, 13, 14) + st.Sends(false, 14);
    assert st.Wire(false, 13, 16) == st.Wire(false, 13, 15) + st.Sends(false, 15);
    assert st.Wire(false, 13, 17) == st.Wire(false, 13, 16) + st.Sends(false, 16);
    assert st.Wire(false, 13, 16) == [Ccs] + (st.Sends(false, 14) + st.Sends(false, 15));
    assert Messages([]) == [] by { NoMessages(); }
    assert st.Wire(false, 13, 17) == [] + [Ccs] + Messages(LastMessages(st)) + st.Sends(false, 16);
  }

  lemma FinishFollows(st: Setting, h: Hs, peek: Option<Kind>, checks: bool, o: Oracle)
    requires Ready(st, h, peek, checks, o) && h.state.SendClientFinished?
    ensures Follows(st, h, h.DoSendClientFinished(o))
  {
    hide Follows, Moves, Setting.Present, Setting.KindAt, ByServer, IsCcs, Setting.Agreed, Setting.ChannelId,
         Setting.Resumed,
         Setting.Ticket, Setting.Status, Setting.CertRequested, Setting.HasParams, Setting.ServerHello;
    if h.terms.channelId && o.pending {
      Stays(st, false, CLIENT_CCS, CLIENT_CCS);
      EffectFollows(st, h, h.Stay(Pending));
    } else {
      LastFlight(st, CLIENT_CCS);
      EffectFollows(st, h, Effect(FinishFlight, h.terms, Flush, Finish([], LastMessages(st))));
    }
  }

  lemma FlightFollows(st: Setting, h: Hs, peek: Option<Kind>, checks: bool, o: Oracle)
    requires Ready(st, h, peek, checks, o) && h.state.FinishFlight?
    ensures Follows(st, h, h.DoFinishFlight(o))
  {
    hide Follows, Moves, Setting.Present, Setting.KindAt, ByServer, IsCcs, Setting.Agreed, Setting.Ticket,
         Setting.ChannelId, Setting.Status, Setting.CertRequested, Setting.HasParams, Setting.ServerHello;
    if h.terms.session {
      FinishedMoves(st, EARLY_FINISHED);
      EffectFollows(st, h, h.Go(FinishClientHandshake));
    } else {
      Stays(st, false, TICKET, TICKET);
      EffectFollows(st, h, h.DoFinishFlight(o));
    }
  }

  lemma TicketFollows(st: Setting, h: Hs, peek: Option<Kind>, checks: bool, o: Oracle)
    requires Ready(st, h, peek, checks, o) && h.state.ReadSessionTicket?
    ensures Follows(st, h, h.DoReadSessionTicket(peek, o))
  {
    hide Follows, Moves, Setting.Present, Setting.KindAt, ByServer, IsCcs, Setting.Agreed, Setting.Ticket,
         Setting.ChannelId, Setting.Status, Setting.CertRequested, Setting.HasParams, Setting.ServerHello;
    var p := Slot(st, h.state, false);
    TicketMoves(st, p);
    if !h.terms.ticketExpected {
      EffectFollows(st, h, Effect(ProcessChangeCipherSpec, h.terms, AwaitCcs, Nothing));
    } else if peek.None? {
      Stays(st, false, p, p);
      EffectFollows(st, h, h.Stay(AwaitMessage));
    } else {
      var t := h.terms.(ticketExpected := !peek.value.empty);
      EffectFollows(st, h, Effect(ProcessChangeCipherSpec, t, AwaitCcs, Take));
    }
  }

  lemma CipherFollows(st: Setting, h: Hs, peek: Option<Kind>, checks: bool, o: Oracle)
    requires Ready(st, h, peek, checks, o) && h.state.ProcessChangeCipherSpec?
    ensures Follows(st, h, h.DoProcessChangeCipherSpec(o))
  {
    hide Follows, Moves, Setting.Present, Setting.KindAt, ByServer, IsCcs, Setting.Agreed, Setting.Ticket,
         Setting.ChannelId, Setting.Status, Setting.CertRequested, Setting.HasParams, Setting.ServerHello;
    var p := Slot(st, h.state, false);
    Stays(st, false, p, p);
    EffectFollows(st, h, h.GoWith(ReadServerFinished, OpenCipher));
  }

  lemma FinishedFollows(st: Setting, h: Hs, peek: Option<Kind>, checks: bool, o: Oracle)
    requires Ready(st, h, peek, checks, o) && h.state.ReadServerFinished?
    ensures Follows(st, h, h.DoReadServerFinished(peek, checks))
  {
    hide Follows, Moves, Setting.Present, Setting.KindAt, ByServer, IsCcs, Setting.Agreed, Setting.Ticket,
         Setting.ChannelId, Setting.Status, Setting.CertRequested, Setting.HasParams, Setting.ServerHello;
    var p := Slot(st, h.state, false);
    FinishedMoves(st, p);
    if peek.None? {
      Stays(st, false, p, p);
      EffectFollows(st, h, h.Stay(AwaitMessage));
    } else if h.terms.session {
      EffectFollows(st, h, h.GoWith(SendClientFinished, TakeFinished));
    } else {
      EffectFollows(st, h, h.GoWith(FinishClientHandshake, TakeFinished));
    }
  }

  lemma EndFollows(st: Setting, h: Hs)
    requires OnScript(st, h, Ok)
    ensures h.state.FinishClientHandshake? ==> Follows(st, h, h.Go(Done))
    ensures h.state.Done? ==> Follows(st, h, h.Stay(Ok))
  {
    hide Moves, Setting.Present;
    Stays(st, false, END, END);
  }

  /** Every state of the client machine follows the script. */
  lemma RunFollows(st: Setting, h: Hs, peek: Option<Kind>, checks: bool, o: Oracle)
    requires Ready(st, h, peek, checks, o)
    ensures Follows(st, h, h.Run(peek, checks, o))
  {
    hide Follows, Looks, Finds, WaitOk, Hs.DoStartConnect, Hs.DoEnterEarlyData, Hs.DoReadHelloVerifyRequest,
         Hs.DoReadServerHello, Hs.DoReadServerCertificate, Hs.DoReadCertificateStatus, Hs.DoVerifyServerCertificate,
         Hs.DoReadServerKeyExchange, Hs.DoReadCertificateRequest, Hs.DoReadServerHelloDone, Hs.DoSendClientCertificate,
         Hs.DoSendClientKeyExchange, Hs.DoSendClientCertificateVerify, Hs.DoSendClientFinished, Hs.DoFinishFlight,
         Hs.DoReadSessionTicket, Hs.DoProcessChangeCipherSpec, Hs.DoReadServerFinished, Hs.Go, Hs.Stay;
    match h.state
    case StartConnect => StartFollows(st, h, peek, checks, o);
    case EnterEarlyData => EnterFollows(st, h, peek, checks, o);
    case ReadHelloVerifyRequest => VerifyRequestFollows(st, h, peek, checks, o);
    case ReadServerHello => HelloFollows(st, h, peek, checks, o);
    case Tls13 =>
    case ReadServerCertificate => CertificateFollows(st, h, peek, checks, o);
    case ReadCertificateStatus => StatusFollows(st, h, peek, checks, o);
    case VerifyServerCertificate => VerifyFollows(st, h, peek, checks, o);
    case ReadServerKeyExchange => KeyExchangeFollows(st, h, peek, checks, o);
    case ReadCertificateRequest => RequestFollows(st, h, peek, checks, o);
    case ReadServerHelloDone => HelloDoneFollows(st, h, peek, checks, o);
    case SendClientCertificate => ClientCertificateFollows(st, h, peek, checks, o);
    case SendClientKeyExchange => ClientKeyFollows(st, h, peek, checks, o);
    case SendClientCertificateVerify => CertificateVerifyFollows(st, h, peek, checks, o);
    case SendClientFinished => FinishFollows(st, h, peek, checks, o);
    case FinishFlight => FlightFollows(st, h, peek, checks, o);
    case ReadSessionTicket => TicketFollows(st, h, peek, checks, o);
    case ProcessChangeCipherSpec => CipherFollows(st, h, peek, checks, o);
    case ReadServerFinished => FinishedFollows(st, h, peek, checks, o);
    case FinishClientHandshake => EndFollows(st, h);
    case Done => EndFollows(st, h);
  }

  /** The message that a looking state waits for is the next one due, and the server sends it. */
  lemma LooksAtNext(st: Setting, h: Hs)
    requires OnScript(st, h, Ok) && Looks(st, h.state)
    ensures st.NextIs(Slot(st, h.state, false), At(st, h.state))
    ensures ByServer(At(st, h.state)) && !IsCcs(At(st, h.state))
    ensures Finds(st, h.state, st.KindAt(At(st, h.state)))
  {
  }

  lemma CcsIsNext(st: Setting, h: Hs)
    requires OnScript(st, h, Ok) && h.state.ProcessChangeCipherSpec?
    ensures var p := Slot(st, h.state, true);
            st.NextIs(p, p) && ByServer(p) && IsCcs(p) && Slot(st, h.state, false) == p + 1
  {
  }
}
