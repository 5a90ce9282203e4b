/** ssl_server_handshake for TLS 1.2 and below (handshake_server.cc). */
module TlsServer {
  import opened Wrappers
  import opened TlsMessages
  import opened TlsRuns

  datatype State =
    | StartAccept | ReadClientHello | SelectCertificate | Tls13 | SelectParameters | SendServerHello
    | SendServerCertificate | SendServerKeyExchange | SendServerHelloDone | ReadClientCertificate
    | VerifyClientCertificate | ReadClientKeyExchange | ReadClientCertificateVerify | ReadChangeCipherSpec
    | ProcessChangeCipherSpec | ReadNextProto | ReadChannelId | ReadClientFinished | SendServerFinished
    | FinishServerHandshake | Done

  datatype Config = Config(
    tls13: bool,              // TLS 1.3 is negotiated
    cipher: Cipher,           // what ssl3_choose_cipher answers
    knows: bool,              // a session that the client offers is found and resumable
    renew: bool,              // renew_ticket
    tickets: bool,            // tickets_supported
    emptyTicket: bool,        // the ticket sent is empty
    ocsp: bool,               // stapling was requested and a response is configured
    pskHint: bool,            // psk_identity_hint is set
    verifyPeer: bool,         // SSL_VERIFY_PEER
    ifNoObc: bool,            // SSL_VERIFY_PEER_IF_NO_OBC
    failIfNoPeerCert: bool,   // SSL_VERIFY_FAIL_IF_NO_PEER_CERT
    npn: bool,                // next_proto_neg_seen
    channelIdAsked: bool,     // tlsext_channel_id_valid as parsed from the ClientHello
    originalHash: bool)       // the resumed session recorded its handshake hash

  datatype Terms = Terms(
    session: bool,            // ssl->session != NULL
    ticketExpected: bool,
    statusExpected: bool,
    channelId: bool,          // tlsext_channel_id_valid
    certRequest: bool,
    hasParams: bool,          // server_params is not empty
    peerCert: bool,           // peer_pubkey is set
    tls13: bool)

  datatype Effect = Effect(state: State, terms: Terms, wait: Wait, act: Act)

  function When<T>(b: bool, x: T): (r: seq<T>)
    ensures |r| == if b then 1 else 0
  {
    if b then [x] else []
  }

  datatype Hs = Hs(cfg: Config, state: State, terms: Terms) {
    function Go(next: State): Effect {
      Effect(next, terms, Ok, Nothing)
    }

    function Stay(wait: Wait): Effect {
      Effect(state, terms, wait, Nothing)
    }

    function GoWith(next: State, act: Act): Effect {
      Effect(next, terms, Ok, act)
    }

    function DoReadClientHello(peek: Option<Kind>, o: Oracle): Effect {
      if peek.None? then Stay(AwaitMessage)
      else if !peek.value.ClientHello? then Stay(Error)
      else if o.pending then Stay(Pending)
      else if o.fails then Stay(Error)
      else Effect(SelectCertificate, terms.(channelId := cfg.channelIdAsked), Ok, Nothing)
    }

    function DoSelectCertificate(peek: Option<Kind>, o: Oracle): Effect {
      if peek.None? then Stay(AwaitMessage)
      else if o.fails then Stay(Error)
      else if o.pending then Stay(Pending)
      else if cfg.tls13 then Effect(Tls13, terms.(tls13 := true), Ok, Nothing)
      else Go(SelectParameters)
    }

    /** The TLS 1.3 machine is an oracle. */
    function DoTls13(o: Oracle): Effect {
      if o.fails then Stay(Error) else if o.pending then Stay(Pending) else Go(FinishServerHandshake)
    }

    function DoSelectParameters(peek: Option<Kind>, o: Oracle): Effect {
      if peek.None? then Stay(AwaitMessage)
      else if !peek.value.ClientHello? || o.fails then Stay(Error)
      else if o.pending then Stay(Pending)
      else
        var resumed := peek.value.session && cfg.knows;
        var certRequest :=
          !resumed && cfg.verifyPeer && !(cfg.ifNoObc && terms.channelId) && cfg.cipher.certAuth;
        Effect(SendServerHello,
               terms.(session := resumed, ticketExpected := if resumed then cfg.renew else cfg.tickets,
                      certRequest := certRequest),
               Ok, Take)
    }

    function DoSendServerHello(o: Oracle): Effect {
      if o.fails then Stay(Error)
      else
        var channelId := terms.channelId && cfg.cipher.ecdhe && (terms.session ==> cfg.originalHash);
        var status := cfg.ocsp && !terms.session && cfg.cipher.certAuth;
        var hello := Hello(false, terms.session, cfg.cipher, status, terms.ticketExpected, cfg.npn, channelId);
        Effect(if terms.session then SendServerFinished else SendServerCertificate,
               terms.(channelId := channelId, statusExpected := status), Ok, Say([ServerHello(hello)]))
    }

    function DoSendServerCertificate(o: Oracle): Effect {
      if o.fails then Stay(Error)
      else
        Effect(SendServerKeyExchange,
               terms.(hasParams := cfg.cipher.ecdhe || (!cfg.cipher.certAuth && cfg.pskHint)), Ok,
               Say(if !cfg.cipher.certAuth then []
                   else [Certificate(false)] + When(terms.statusExpected, CertificateStatus)))
    }

    function DoSendServerKeyExchange(o: Oracle): Effect {
      if !terms.hasParams then Go(SendServerHelloDone)
      else if o.fails then Stay(Error)
      else if cfg.cipher.certAuth && o.pending then Stay(Pending)
      else Effect(SendServerHelloDone, terms.(hasParams := false), Ok, Say([ServerKeyExchange]))
    }

    function DoSendServerHelloDone(o: Oracle): Effect {
      if o.fails then Stay(Error)
      else Effect(ReadClientCertificate, terms, Flush,
                  Say(When(terms.certRequest, CertificateRequest) + [ServerHelloDone]))
    }

    function DoReadClientCertificate(peek: Option<Kind>, o: Oracle): Effect {
      if !terms.certRequest then Go(VerifyClientCertificate)
      else if peek.None? then Stay(AwaitMessage)
      else if !peek.value.Certificate? || o.fails then Stay(Error)
      else if peek.value.empty && cfg.failIfNoPeerCert then Stay(Error)
      else Effect(VerifyClientCertificate, terms.(peerCert := !peek.value.empty), Ok, Take)
    }

    function DoVerifyClientCertificate(o: Oracle): Effect {
      if !terms.peerCert then Go(ReadClientKeyExchange)
      else if o.fails then Stay(Error)
      else if o.pending then Stay(Pending)
      else Go(ReadClientKeyExchange)
    }

    function DoReadClientKeyExchange(peek: Option<Kind>, o: Oracle): Effect {
      if peek.None? then Stay(AwaitMessage)
      else if peek.value != ClientKeyExchange || o.fails then Stay(Error)
      else if cfg.cipher.certAuth && !cfg.cipher.ecdhe && o.pending then Stay(Pending)
      else GoWith(ReadClientCertificateVerify, Take)
    }

    function DoReadClientCertificateVerify(peek: Option<Kind>, o: Oracle): Effect {
      if !terms.peerCert then Go(ReadChangeCipherSpec)
      else if peek.None? then Stay(AwaitMessage)
      else if peek.value != CertificateVerify || o.fails then Stay(Error)
      else GoWith(ReadChangeCipherSpec, Take)
    }

    function DoReadChangeCipherSpec(): Effect {
      Effect(ProcessChangeCipherSpec, terms, AwaitCcs, Nothing)
    }

    function DoProcessChangeCipherSpec(o: Oracle): Effect {
      if o.fails then Stay(Error) else GoWith(ReadNextProto, OpenCipher)
    }

    function DoReadNextProto(peek: Option<Kind>, o: Oracle): Effect {
      if !cfg.npn then Go(ReadChannelId)
      else if peek.None? then Stay(AwaitMessage)
      else if peek.value != NextProto || o.fails then Stay(Error)
      else GoWith(ReadChannelId, Take)
    }

    function DoReadChannelId(peek: Option<Kind>, o: Oracle): Effect {
      if !terms.channelId then Go(ReadClientFinished)
      else if peek.None? then Stay(AwaitMessage)
      else if peek.value != ChannelId || o.fails then Stay(Error)
      else GoWith(ReadClientFinished, Take)
    }

    /** With ssl_get_finished; `checks` is its comparison. Recording the hashes for Channel ID may fail, after the
        state has changed. */
    function DoReadClientFinished(peek: Option<Kind>, checks: bool, o: Oracle): Effect {
      if peek.None? then Stay(AwaitMessage)
      else if !checks then Stay(Error)
      else Effect(if terms.session then FinishServerHandshake else SendServerFinished, terms,
                  if !terms.session && terms.channelId && o.fails then Error else Ok, TakeFinished)
    }

    function DoSendServerFinished(o: Oracle): Effect {
      if o.fails then Stay(Error)
      else Effect(if terms.session then ReadChangeCipherSpec else FinishServerHandshake, terms, Flush,
                  Finish(When(terms.ticketExpected, NewSessionTicket(cfg.emptyTicket)), []))
    }

    /** The switch in ssl_server_handshake. */
    function Run(peek: Option<Kind>, checks: bool, o: Oracle): (e: Effect)
      requires checks ==> peek.Some?
      ensures e.act.Take? || e.act.TakeFinished? || e.act.Restart? ==> peek.Some?
    {
      match state
      case StartAccept => Go(ReadClientHello)
      case ReadClientHello => DoReadClientHello(peek, o)
      case SelectCertificate => DoSelectCertificate(peek, o)
      case Tls13 => DoTls13(o)
      case SelectParameters => DoSelectParameters(peek, o)
      case SendServerHello => DoSendServerHello(o)
      case SendServerCertificate => DoSendServerCertificate(o)
      case SendServerKeyExchange => DoSendServerKeyExchange(o)
      case SendServerHelloDone => DoSendServerHelloDone(o)
      case ReadClientCertificate => DoReadClientCertificate(peek, o)
      case VerifyClientCertificate => DoVerifyClientCertificate(o)
      case ReadClientKeyExchange => DoReadClientKeyExchange(peek, o)
      case ReadClientCertificateVerify => DoReadClientCertificateVerify(peek, o)
      case ReadChangeCipherSpec => DoReadChangeCipherSpec()
      case ProcessChangeCipherSpec => DoProcessChangeCipherSpec(o)
      case ReadNextProto => DoReadNextProto(peek, o)
      case ReadChannelId => DoReadChannelId(peek, o)
      case ReadClientFinished => DoReadClientFinished(peek, checks, o)
      case SendServerFinished => DoSendServerFinished(o)
      case FinishServerHandshake => Go(Done)
      case Done => Stay(Ok)
    }
  }

  datatype Server = Server(hs: Hs, wait: Wait, link: Link) {
    /** One turn of ssl_run_handshake: resolve what the machine waits for, or run its state. */
    function Turn(o: Oracle): Server {
      if wait != Ok then
        var (l, w) := link.Resolve(wait, o.flushes);
        Server(hs, w, l)
      else
        var e := hs.Run(link.Peek(), link.FinishedChecks(), o);
        Server(Hs(hs.cfg, e.state, e.terms), e.wait, link.Do(e.act))
    }
  }

  function Start(cfg: Config): Server {
    Server(Hs(cfg, StartAccept, Terms(false, false, false, false, false, false, false, false)), Ok, NewLink(true))
  }

  /** How many states lie ahead. The server's Finished phase comes early when the session was resumed. */
  function Rank(s: State, resumed: bool): nat {
    match s
    case StartAccept => 20
    case ReadClientHello => 19
    case SelectCertificate => 18
    case SelectParameters => 17
    case SendServerHello => 16
    case SendServerCertificate => 15
    case SendServerKeyExchange => 14
    case SendServerHelloDone => 13
    case ReadClientCertificate => 12
    case VerifyClientCertificate => 11
    case ReadClientKeyExchange => 10
    case ReadClientCertificateVerify => 9
    case SendServerFinished => if resumed then 9 else 2
    case ReadChangeCipherSpec => 8
    case ProcessChangeCipherSpec => 7
    case ReadNextProto => 6
    case ReadChannelId => 5
    case ReadClientFinished => 4
    case Tls13 => 2
    case FinishServerHandshake => 1
    case Done => 0
  }

  /** What has happened with the ciphers and the two Finished messages by the time a state is reached. */
  predicate Phase(s: State, t: Terms, p: Progress) {
    var received := p.readCipher && p.accepted == 1;
    var nothingRead := !p.readCipher && p.accepted == 0;
    var sentOurs := p.writeCipher && p.sent == 1;
    var nothingSent := !p.writeCipher && p.sent == 0;
    match s
    case StartAccept => nothingRead && nothingSent
    case ReadClientHello => nothingRead && nothingSent
    case SelectCertificate => nothingRead && nothingSent
    case SelectParameters => nothingRead && nothingSent
    case SendServerHello => nothingRead && nothingSent
    case Tls13 => t.tls13
    case ReadChangeCipherSpec => nothingRead && (if t.session then sentOurs else nothingSent)
    case ProcessChangeCipherSpec => nothingRead && (if t.session then sentOurs else nothingSent)
    case ReadNextProto => p.readCipher && p.accepted == 0 && (if t.session then sentOurs else nothingSent)
    case ReadChannelId => p.readCipher && p.accepted == 0 && (if t.session then sentOurs else nothingSent)
    case ReadClientFinished => p.readCipher && p.accepted == 0 && (if t.session then sentOurs else nothingSent)
    case SendServerFinished => nothingSent && (if t.session then nothingRead else received)
    case FinishServerHandshake => t.tls13 || (received && sentOurs)
    case Done => t.tls13 || (received && sentOurs)
    case _ => !t.session && nothingRead && nothingSent
  }

  predicate PhaseOk(s: Server) {
    Phase(s.hs.state, s.hs.terms, s.link.progress)
  }

  /** The state stays, or it changes to one of lower rank; and the phases stay in order. */
  predicate Advances(h: Hs, p: Progress, e: Effect, p': Progress) {
    && (e.state != h.state ==> Rank(e.state, e.terms.session) < Rank(h.state, h.terms.session))
    && (e.state == h.state ==> e.terms == h.terms)
    && (Phase(h.state, h.terms, p) ==> Phase(e.state, e.terms, p'))
  }

  lemma OpeningAdvances(h: Hs, l: Link, o: Oracle)
    requires h.state.StartAccept? || h.state.ReadClientHello? || h.state.SelectCertificate? || h.state.Tls13?
             || h.state.SelectParameters? || h.state.SendServerHello?
    ensures var e := h.Run(l.Peek(), l.FinishedChecks(), o); Advances(h, l.progress, e, l.ProgressAfter(e.act))
  {
  }

  lemma ServerFlightAdvances(h: Hs, l: Link, o: Oracle)
    requires h.state.SendServerCertificate? || h.state.SendServerKeyExchange? || h.state.SendServerHelloDone?
    ensures var e := h.Run(l.Peek(), l.FinishedChecks(), o); Advances(h, l.progress, e, l.ProgressAfter(e.act))
  {
  }

  lemma ClientFlightAdvances(h: Hs, l: Link, o: Oracle)
    requires h.state.ReadClientCertificate? || h.state.VerifyClientCertificate? || h.state.ReadClientKeyExchange?
             || h.state.ReadClientCertificateVerify?
    ensures var e := h.Run(l.Peek(), l.FinishedChecks(), o); Advances(h, l.progress, e, l.ProgressAfter(e.act))
  {
  }

  lemma CipherAdvances(h: Hs, l: Link, o: Oracle)
    requires h.state.ReadChangeCipherSpec? || h.state.ProcessChangeCipherSpec? || h.state.ReadNextProto?
             || h.state.ReadChannelId?
    ensures var e := h.Run(l.Peek(), l.FinishedChecks(), o); Advances(h, l.progress, e, l.ProgressAfter(e.act))
  {
  }

  lemma ClosingAdvances(h: Hs, l: Link, o: Oracle)
    requires h.state.ReadClientFinished? || h.state.SendServerFinished? || h.state.FinishServerHandshake?
             || h.state.Done?
    ensures var e := h.Run(l.Peek(), l.FinishedChecks(), o); Advances(h, l.progress, e, l.ProgressAfter(e.act))
  {
  }

  lemma RunAdvances(h: Hs, l: Link, o: Oracle)
    ensures var e := h.Run(l.Peek(), l.FinishedChecks(), o); Advances(h, l.progress, e, l.ProgressAfter(e.act))
  {
    hide Hs.Run, Advances, Link.ProgressAfter;
    match h.state
    case StartAccept | ReadClientHello | SelectCertificate | Tls13 | SelectParameters
      | SendServerHello => OpeningAdvances(h, l, o);
    case SendServerCertificate | SendServerKeyExchange | SendServerHelloDone => ServerFlightAdvances(h, l, o);
    case ReadClientCertificate | VerifyClientCertificate | ReadClientKeyExchange
      | ReadClientCertificateVerify => ClientFlightAdvances(h, l, o);
    case ReadChangeCipherSpec | ProcessChangeCipherSpec | ReadNextProto | ReadChannelId => CipherAdvances(h, l, o);
    case _ => ClosingAdvances(h, l, o);
  }

  /** With any peer and any oracle, every change of state lowers the rank and keeps the phases in order. */
  lemma TurnAdvances(s: Server, o: Oracle)
    ensures var s' := s.Turn(o);
            && (s'.hs.state != s.hs.state ==>
                  Rank(s'.hs.state, s'.hs.terms.session) < Rank(s.hs.state, s.hs.terms.session))
            && (s'.hs.state == s.hs.state ==> s'.hs.terms == s.hs.terms)
            && (PhaseOk(s) ==> PhaseOk(s'))
  {
    hide Hs.Run, Phase, Rank;
    RunAdvances(s.hs, s.link, o);
  }

  /** One event in the life of a server. */
  function Step(x: Server, e: Event): Server {
    match e
    case Arrive(items) => x.(link := x.link.(inbox := x.link.inbox + items))
    case Run(o) => x.Turn(o)
  }

  /** Against any peer, a server that reaches its end without TLS 1.3 has installed the read cipher, accepted the
      client's Finished, and sent its own, each exactly once. */
  lemma {:induction false} DoneMeansFinished(cfg: Config, events: seq<Event>)
    ensures var s := After(Step, Start(cfg), events);
            && PhaseOk(s)
            && (s.hs.state == Done && !s.hs.terms.tls13 ==> s.link.progress == Progress(true, true, 1, 1))
  {
    hide Server.Turn, Rank;
    if events == [] {
    } else {
      var front := events[..|events| - 1];
      DoneMeansFinished(cfg, front);
      if events[|events| - 1].Run? {
        TurnAdvances(After(Step, Start(cfg), front), events[|events| - 1].o);
      }
    }
  }
}
