/** ssl_client_handshake for TLS 1.2 and below (handshake_client.cc). */
module TlsClient {
  import opened Wrappers
  import opened TlsMessages
  import opened TlsRuns

  datatype State =
    | StartConnect | EnterEarlyData | ReadHelloVerifyRequest | ReadServerHello | Tls13
    | ReadServerCertificate | ReadCertificateStatus | VerifyServerCertificate | ReadServerKeyExchange
    | ReadCertificateRequest | ReadServerHelloDone | SendClientCertificate | SendClientKeyExchange
    | SendClientCertificateVerify | SendClientFinished | FinishFlight | ReadSessionTicket
    | ProcessChangeCipherSpec | ReadServerFinished | FinishClientHandshake | Done

  /** `session`: a session is offered, expired ones having been dropped. */
  datatype Config = Config(dtls: bool, session: bool, hasCert: bool, falseStart: bool)

  /** What the handshake has settled so far. */
  datatype Terms = Terms(
    session: bool,            // ssl->session != NULL
    cipher: Cipher,           // new_cipher
    statusExpected: bool,     // certificate_status_expected
    ticketExpected: bool,     // ticket_expected
    npn: bool,                // next_proto_neg_seen
    channelId: bool,          // tlsext_channel_id_valid
    certRequest: bool,        // cert_request
    tls13: bool)              // the TLS 1.3 machine took over

  /** What one state function does: the state it moves to, the new terms, what to wait for, and its act. */
  datatype Effect = Effect(state: State, terms: Terms, wait: Wait, act: Act)

  datatype Hs = Hs(cfg: Config, state: State, terms: Terms) {
    function Go(next: State): Effect {
      Effect(next, terms, Ok, Nothing)
    }

    function Stay(wait: Wait): Effect {
      Effect(state, terms, wait, Nothing)
    }

    function GoWith(next: State, act: Act): Effect {
      Effect(next, terms, Ok, act)
    }

    function DoStartConnect(o: Oracle): Effect {
      if o.fails then Stay(Error)
      else Effect(EnterEarlyData, terms.(session := cfg.session), Flush, Say([ClientHello(cfg.session)]))
    }

    function DoEnterEarlyData(): Effect {
      Go(if cfg.dtls then ReadHelloVerifyRequest else ReadServerHello)
    }

    function DoReadHelloVerifyRequest(peek: Option<Kind>, o: Oracle): Effect {
      if peek.None? then Stay(AwaitMessage)
      else if peek.value != HelloVerifyRequest then Go(ReadServerHello)
      else if o.fails then Stay(Error)
      else Effect(ReadServerHello, terms, Flush, Restart(ClientHello(cfg.session)))
    }

    function DoReadServerHello(peek: Option<Kind>, o: Oracle): Effect {
      if peek.None? then Stay(AwaitServerHello)
      else if !peek.value.ServerHello? || o.fails then Stay(Error)
      else
        var h := peek.value.hello;
        var reused := terms.session && h.echo;
        if h.tls13 then Effect(Tls13, terms.(tls13 := true), Ok, Nothing)
        else if h.status && !h.cipher.certAuth then Stay(Error)
        else Effect(if reused then ReadSessionTicket else ReadServerCertificate,
                    Terms(reused, h.cipher, h.status, h.ticket, h.npn, h.channelId, false, false), Ok, Take)
    }

    /** The TLS 1.3 machine is an oracle. */
    function DoTls13(o: Oracle): Effect {
      if o.fails then Stay(Error) else if o.pending then Stay(Pending) else Go(FinishClientHandshake)
    }

    function DoReadServerCertificate(peek: Option<Kind>, o: Oracle): Effect {
      if !terms.cipher.certAuth then Go(ReadCertificateStatus)
      else if peek.None? then Stay(AwaitMessage)
      else if peek.value != Certificate(false) || o.fails then Stay(Error)
      else GoWith(ReadCertificateStatus, Take)
    }

    function DoReadCertificateStatus(peek: Option<Kind>, o: Oracle): Effect {
      if !terms.statusExpected then Go(VerifyServerCertificate)
      else if peek.None? then Stay(AwaitMessage)
      else if peek.value != CertificateStatus then Go(VerifyServerCertificate)
      else if o.fails then Stay(Error)
      else GoWith(VerifyServerCertificate, Take)
    }

    function DoVerifyServerCertificate(o: Oracle): Effect {
      if !terms.cipher.certAuth then Go(ReadServerKeyExchange)
      else if o.fails then Stay(Error)
      else if o.pending then Stay(Pending)
      else Go(ReadServerKeyExchange)
    }

    function DoReadServerKeyExchange(peek: Option<Kind>, o: Oracle): Effect {
      if peek.None? then Stay(AwaitMessage)
      else if peek.value != ServerKeyExchange then
        if terms.cipher.ecdhe then Stay(Error) else Go(ReadCertificateRequest)
      else if o.fails || (!terms.cipher.ecdhe && terms.cipher.certAuth) then Stay(Error)
      else GoWith(ReadCertificateRequest, Take)
    }

    function DoReadCertificateRequest(peek: Option<Kind>, o: Oracle): Effect {
      if !terms.cipher.certAuth then Go(ReadServerHelloDone)
      else if peek.None? then Stay(AwaitMessage)
      else if peek.value == ServerHelloDone then Go(ReadServerHelloDone)
      else if peek.value != CertificateRequest || o.fails then Stay(Error)
      else Effect(ReadServerHelloDone, terms.(certRequest := true), Ok, Take)
    }

    function DoReadServerHelloDone(peek: Option<Kind>, o: Oracle): Effect {
      if peek.None? then Stay(AwaitMessage)
      else if peek.value != ServerHelloDone || o.fails then Stay(Error)
      else GoWith(SendClientCertificate, Take)
    }

    function DoSendClientCertificate(o: Oracle): Effect {
      if !terms.certRequest then Go(SendClientKeyExchange)
      else if o.fails then Stay(Error)
      else if o.pending then Stay(Pending)
      else GoWith(SendClientKeyExchange, Say([Certificate(!cfg.hasCert)]))
    }

    function DoSendClientKeyExchange(o: Oracle): Effect {
      if o.fails then Stay(Error) else GoWith(SendClientCertificateVerify, Say([ClientKeyExchange]))
    }

    function DoSendClientCertificateVerify(o: Oracle): Effect {
      if !terms.certRequest || !cfg.hasCert then Go(SendClientFinished)
      else if o.fails then Stay(Error)
      else if o.pending then Stay(Pending)
      else GoWith(SendClientFinished, Say([CertificateVerify]))
    }

    function DoSendClientFinished(o: Oracle): Effect {
      if terms.channelId && o.pending then Stay(Pending)
      else if o.fails then Stay(Error)
      else Effect(FinishFlight, terms, Flush,
                  Finish([], (if terms.npn then [NextProto] else []) + (if terms.channelId then [ChannelId] else [])))
    }

    function DoFinishFlight(o: Oracle): Effect {
      if terms.session then Go(FinishClientHandshake)
      else if o.fails then Stay(Error)
      else Effect(ReadSessionTicket, terms, if cfg.falseStart then EarlyReturn else Ok, Nothing)
    }

    function DoReadSessionTicket(peek: Option<Kind>, o: Oracle): Effect {
      if !terms.ticketExpected then Effect(ProcessChangeCipherSpec, terms, AwaitCcs, Nothing)
      else if peek.None? then Stay(AwaitMessage)
      else if !peek.value.NewSessionTicket? || o.fails then Stay(Error)
      else Effect(ProcessChangeCipherSpec, terms.(ticketExpected := !peek.value.empty), AwaitCcs, Take)
    }

    function DoProcessChangeCipherSpec(o: Oracle): Effect {
      if o.fails then Stay(Error) else GoWith(ReadServerFinished, OpenCipher)
    }

    /** With ssl_get_finished; `checks` is its comparison. */
    function DoReadServerFinished(peek: Option<Kind>, checks: bool): Effect {
      if peek.None? then Stay(AwaitMessage)
      else if !checks then Stay(Error)
      else GoWith(if terms.session then SendClientFinished else FinishClientHandshake, TakeFinished)
    }

    /** The switch in ssl_client_handshake. */
    function Run(peek: Option<Kind>, checks: bool, o: Oracle): (e: Effect)
      requires checks ==> peek.Some?
      ensures e.act.Take? || e.act.TakeFinished? || e.act.Restart? ==> peek.Some?
    {
      match state
      case StartConnect => DoStartConnect(o)
      case EnterEarlyData => DoEnterEarlyData()
      case ReadHelloVerifyRequest => DoReadHelloVerifyRequest(peek, o)
      case ReadServerHello => DoReadServerHello(peek, o)
      case Tls13 => DoTls13(o)
      case ReadServerCertificate => DoReadServerCertificate(peek, o)
      case ReadCertificateStatus => DoReadCertificateStatus(peek, o)
      case VerifyServerCertificate => DoVerifyServerCertificate(o)
      case ReadServerKeyExchange => DoReadServerKeyExchange(peek, o)
      case ReadCertificateRequest => DoReadCertificateRequest(peek, o)
      case ReadServerHelloDone => DoReadServerHelloDone(peek, o)
      case SendClientCertificate => DoSendClientCertificate(o)
      case SendClientKeyExchange => DoSendClientKeyExchange(o)
      case SendClientCertificateVerify => DoSendClientCertificateVerify(o)
      case SendClientFinished => DoSendClientFinished(o)
      case FinishFlight => DoFinishFlight(o)
      case ReadSessionTicket => DoReadSessionTicket(peek, o)
      case ProcessChangeCipherSpec => DoProcessChangeCipherSpec(o)
      case ReadServerFinished => DoReadServerFinished(peek, checks)
      case FinishClientHandshake => Go(Done)
      case Done => Stay(Ok)
    }
  }

  datatype Client = Client(hs: Hs, wait: Wait, link: Link) {
    /** One turn of ssl_run_handshake: resolve what the machine waits for, or run its state. */
    function Turn(o: Oracle): Client {
      if wait != Ok then
        var (l, w) := link.Resolve(wait, o.flushes);
        Client(hs, w, l)
      else
        var e := hs.Run(link.Peek(), link.FinishedChecks(), o);
        Client(Hs(hs.cfg, e.state, e.terms), e.wait, link.Do(e.act))
    }
  }

  function Start(cfg: Config): Client {
    Client(Hs(cfg, StartConnect, Terms(false, Cipher(false, false), false, false, false, false, false, false)), Ok,
           NewLink(false))
  }

  /** How many states lie ahead. The two Finished phases swap places when the session was resumed. */
  function Rank(s: State, resumed: bool): nat {
    match s
    case StartConnect => 20
    case EnterEarlyData => 19
    case ReadHelloVerifyRequest => 18
    case ReadServerHello => 17
    case ReadServerCertificate => 16
    case ReadCertificateStatus => 15
    case VerifyServerCertificate => 14
    case ReadServerKeyExchange => 13
    case ReadCertificateRequest => 12
    case ReadServerHelloDone => 11
    case SendClientCertificate => 10
    case SendClientKeyExchange => 9
    case SendClientCertificateVerify => 8
    case SendClientFinished => if resumed then 3 else 7
    case FinishFlight => if resumed then 2 else 6
    case ReadSessionTicket => if resumed then 6 else 5
    case ProcessChangeCipherSpec => if resumed then 5 else 4
    case ReadServerFinished => if resumed then 4 else 3
    case Tls13 => 2
    case FinishClientHandshake => 1
    case Done => 0
  }

  /** What has happened with the ciphers and the two Finished messages by the time a state is reached. */
  predicate Phase(s: State, t: Terms, p: Progress) {
    var received := p.readCipher && p.accepted == 1;
    var nothingRead := !p.readCipher && p.accepted == 0;
    var sentOurs := p.writeCipher && p.sent == 1;
    var nothingSent := !p.writeCipher && p.sent == 0;
    match s
    case StartConnect => nothingRead && nothingSent
    case EnterEarlyData => nothingRead && nothingSent
    case ReadHelloVerifyRequest => nothingRead && nothingSent
    case ReadServerHello => nothingRead && nothingSent
    case Tls13 => t.tls13
    case SendClientFinished => nothingSent && (if t.session then received else nothingRead)
    case FinishFlight => sentOurs && (if t.session then received else nothingRead)
    case ReadSessionTicket => nothingRead && (if t.session then nothingSent else sentOurs)
    case ProcessChangeCipherSpec => nothingRead && (if t.session then nothingSent else sentOurs)
    case ReadServerFinished => p.readCipher && p.accepted == 0 && (if t.session then nothingSent else sentOurs)
    case FinishClientHandshake => t.tls13 || (received && sentOurs)
    case Done => t.tls13 || (received && sentOurs)
    case _ => !t.session && nothingRead && nothingSent
  }

  predicate PhaseOk(c: Client) {
    Phase(c.hs.state, c.hs.terms, c.link.progress)
  }

  /** The state stays, or it changes to one of lower rank; and the phases stay in order. */
  predicate Advances(h: Hs, p: Progress, e: Effect, p': Progress) {
    && (e.state != h.state ==> Rank(e.state, e.terms.session) < Rank(h.state, h.terms.session))
    && (e.state == h.state ==> e.terms == h.terms)
    && (Phase(h.state, h.terms, p) ==> Phase(e.state, e.terms, p'))
  }

  lemma OpeningAdvances(h: Hs, l: Link, o: Oracle)
    requires h.state.StartConnect? || h.state.EnterEarlyData? || h.state.ReadHelloVerifyRequest?
             || h.state.ReadServerHello? || h.state.Tls13?
    ensures var e := h.Run(l.Peek(), l.FinishedChecks(), o); Advances(h, l.progress, e, l.ProgressAfter(e.act))
  {
  }

  lemma ServerFlightAdvances(h: Hs, l: Link, o: Oracle)
    requires h.state.ReadServerCertificate? || h.state.ReadCertificateStatus? || h.state.VerifyServerCertificate?
             || h.state.ReadServerKeyExchange?
    ensures var e := h.Run(l.Peek(), l.FinishedChecks(), o); Advances(h, l.progress, e, l.ProgressAfter(e.act))
  {
  }

  lemma ServerFlightEndAdvances(h: Hs, l: Link, o: Oracle)
    requires h.state.ReadCertificateRequest? || h.state.ReadServerHelloDone?
    ensures var e := h.Run(l.Peek(), l.FinishedChecks(), o); Advances(h, l.progress, e, l.ProgressAfter(e.act))
  {
  }

  lemma ClientFlightAdvances(h: Hs, l: Link, o: Oracle)
    requires h.state.SendClientCertificate? || h.state.SendClientKeyExchange? || h.state.SendClientCertificateVerify?
             || h.state.SendClientFinished? || h.state.FinishFlight?
    ensures var e := h.Run(l.Peek(), l.FinishedChecks(), o); Advances(h, l.progress, e, l.ProgressAfter(e.act))
  {
  }

  lemma ClosingAdvances(h: Hs, l: Link, o: Oracle)
    requires h.state.ReadSessionTicket? || h.state.ProcessChangeCipherSpec? || h.state.ReadServerFinished?
             || h.state.FinishClientHandshake? || h.state.Done?
    ensures var e := h.Run(l.Peek(), l.FinishedChecks(), o); Advances(h, l.progress, e, l.ProgressAfter(e.act))
  {
  }

  lemma RunAdvances(h: Hs, l: Link, o: Oracle)
    ensures var e := h.Run(l.Peek(), l.FinishedChecks(), o); Advances(h, l.progress, e, l.ProgressAfter(e.act))
  {
    hide Hs.Run, Advances, Link.ProgressAfter;
    match h.state
    case StartConnect | EnterEarlyData | ReadHelloVerifyRequest | ReadServerHello | Tls13 => OpeningAdvances(h, l, o);
    case ReadServerCertificate | ReadCertificateStatus | VerifyServerCertificate
      | ReadServerKeyExchange => ServerFlightAdvances(h, l, o);
    case ReadCertificateRequest | ReadServerHelloDone => ServerFlightEndAdvances(h, l, o);
    case SendClientCertificate | SendClientKeyExchange | SendClientCertificateVerify | SendClientFinished
      | FinishFlight => ClientFlightAdvances(h, l, o);
    case _ => ClosingAdvances(h, l, o);
  }

  /** With any peer and any oracle, every change of state lowers the rank and keeps the phases in order. */
  lemma TurnAdvances(c: Client, o: Oracle)
    ensures var c' := c.Turn(o);
            && (c'.hs.state != c.hs.state ==>
                  Rank(c'.hs.state, c'.hs.terms.session) < Rank(c.hs.state, c.hs.terms.session))
            && (c'.hs.state == c.hs.state ==> c'.hs.terms == c.hs.terms)
            && (PhaseOk(c) ==> PhaseOk(c'))
  {
    hide Hs.Run, Phase, Rank;
    RunAdvances(c.hs, c.link, o);
  }

  /** One event in the life of a client. */
  function Step(x: Client, e: Event): Client {
    match e
    case Arrive(items) => x.(link := x.link.(inbox := x.link.inbox + items))
    case Run(o) => x.Turn(o)
  }

  /** Against any peer, a client that reaches its end without TLS 1.3 has installed the read cipher, accepted the
      server's Finished, and sent its own, each exactly once. */
  lemma {:induction false} DoneMeansFinished(cfg: Config, events: seq<Event>)
    ensures var c := After(Step, Start(cfg), events);
            && PhaseOk(c)
            && (c.hs.state == Done && !c.hs.terms.tls13 ==> c.link.progress == Progress(true, true, 1, 1))
  {
    hide Client.Turn, Rank;
    if events == [] {
    } else {
      var front := events[..|events| - 1];
      DoneMeansFinished(cfg, front);
      if events[|events| - 1].Run? {
        TurnAdvances(After(Step, Start(cfg), front), events[|events| - 1].o);
      }
    }
  }
}
