/** The client machine against any peer, whatever it sends and in whatever order. */
module TlsClientPeer {
  import opened Wrappers
  import opened TlsMessages
  import opened TlsRuns
  import opened TlsClient
  import opened TlsScript
  import CS = TlsClientScript

  // Failures.

  /** In this state, with this message before it, the code makes a check that may fail. */
  predicate Checks(h: Hs, peek: Option<Kind>) {
    match h.state
    case EnterEarlyData => false
    case ReadHelloVerifyRequest => peek == Some(HelloVerifyRequest)
    case ReadServerCertificate => h.terms.cipher.certAuth
    case ReadCertificateStatus => h.terms.statusExpected && peek == Some(CertificateStatus)
    case VerifyServerCertificate => h.terms.cipher.certAuth
    case ReadServerKeyExchange => peek == Some(ServerKeyExchange)
    case ReadCertificateRequest => h.terms.cipher.certAuth && peek != Some(ServerHelloDone)
    case SendClientCertificate => h.terms.certRequest
    case SendClientCertificateVerify => h.terms.certRequest && h.cfg.hasCert
    case FinishFlight => !h.terms.session
    case ReadSessionTicket => h.terms.ticketExpected
    case ReadServerFinished => false
    case FinishClientHandshake => false
    case Done => false
    case _ => true
  }

  /** A turn in which the check of the state fails changes nothing, and leaves the machine waiting or in error. */
  lemma FailureStops(h: Hs, peek: Option<Kind>, checks: bool, o: Oracle)
    requires (checks ==> peek.Some?) && o.fails && Checks(h, peek)
    ensures var e := h.Run(peek, checks, o);
            e.state == h.state && e.terms == h.terms && e.act == Nothing && e.wait != Ok && !e.wait.Flush?
  {
  }

  /** A certificate that does not verify is an error, whatever else is the case. */
  lemma BadCertificateStops(h: Hs, peek: Option<Kind>, checks: bool, o: Oracle)
    requires (checks ==> peek.Some?) && h.state.VerifyServerCertificate? && h.terms.cipher.certAuth && o.fails
    ensures h.Run(peek, checks, o) == h.Stay(Error)
  {
  }

  /** So is a Finished that was not computed by the server over this very transcript. */
  lemma WrongFinishedStops(h: Hs, peek: Option<Kind>, o: Oracle)
    requires h.state.ReadServerFinished? && peek.Some?
    ensures h.Run(peek, false, o) == h.Stay(Error)
  {
  }

  /** Otherwise a failure does not matter: but for the error, the turn is that of a machine whose checks pass. */
  lemma FailureIsAnError(h: Hs, peek: Option<Kind>, checks: bool, o: Oracle)
    requires checks ==> peek.Some?
    ensures var e, e' := h.Run(peek, checks, o), h.Run(peek, checks, o.(fails := false));
            e == e' || e == h.Stay(Error)
  {
  }

  /** In this state the code asks an application callback. */
  predicate Asks(h: Hs) {
    match h.state
    case Tls13 => true
    case VerifyServerCertificate => h.terms.cipher.certAuth
    case SendClientCertificate => h.terms.certRequest
    case SendClientCertificateVerify => h.terms.certRequest && h.cfg.hasCert
    case SendClientFinished => h.terms.channelId
    case _ => false
  }

  /** A callback that is not ready is waited for, with nothing changed; otherwise it makes no difference. */
  lemma PendingIsWaitedFor(h: Hs, peek: Option<Kind>, checks: bool, o: Oracle)
    requires checks ==> peek.Some?
    ensures var e := h.Run(peek, checks, o);
            && (Asks(h) && o.pending && !o.fails ==> e == h.Stay(Pending))
            && if e.wait.Pending? then e == h.Stay(Pending) && Asks(h) && o.pending
               else e == h.Run(peek, checks, o.(pending := false))
  {
  }

  /** Once in error, a machine does nothing more, whatever arrives. */
  lemma {:induction false} ErrorIsForEver(c: Client, events: seq<Event>)
    requires c.wait == Error
    ensures var c' := After(Step, c, events);
            c'.wait == Error && c'.hs == c.hs && c'.link == c.link.(inbox := c'.link.inbox)
  {
    hide Hs.Run, Link.Do;
    if events == [] {
    } else {
      ErrorIsForEver(c, events[..|events| - 1]);
    }
  }

  // What a server may do.

  /** The ServerHello, and which of the messages that are up to the server came. */
  datatype Talk = Talk(hello: Hello, status: bool, params: bool, request: bool, emptyTicket: bool) {
    /** Only a certificate can have a status, which may be left out when it was promised; a ServerKeyExchange must
        come with ECDHE, may come with PSK, and must not with RSA; and only where the server has a certificate may it
        ask for one. */
    predicate Sensible() {
      && !hello.tls13 && (hello.status ==> hello.cipher.certAuth) && (status ==> hello.status)
      && (hello.cipher.ecdhe ==> params) && (params ==> hello.cipher.ecdhe || !hello.cipher.certAuth)
      && (request ==> hello.cipher.certAuth)
    }

    predicate Resumed(cfg: Config) {
      cfg.session && hello.echo
    }

    predicate Present(cfg: Config, i: nat) {
      var full := !Resumed(cfg);
      if i <= SH then true
      else if i == EARLY_TICKET then !full && hello.ticket
      else if i == EARLY_FINISHED then !full
      else if i == CERT then full && hello.cipher.certAuth
      else if i == STATUS then full && status
      else if i == SKE then full && params
      else if i == CERT_REQUEST || i == CLIENT_CERT then full && request
      else if i == HELLO_DONE || i == CKE || i == SERVER_FINISHED then full
      else if i == CERT_VERIFY then full && request && cfg.hasCert
      else if i == NEXT_PROTO then hello.npn
      else if i == CHANNEL_ID then hello.channelId
      else if i == CLIENT_FINISHED then true
      else if i == TICKET then full && hello.ticket
      else false
    }

    function KindAt(cfg: Config, i: nat): Kind {
      if i == CH then ClientHello(cfg.session)
      else if i == SH then ServerHello(hello)
      else if i == EARLY_TICKET || i == TICKET then NewSessionTicket(emptyTicket)
      else if i == CERT then Certificate(false)
      else if i == STATUS then CertificateStatus
      else if i == SKE then ServerKeyExchange
      else if i == CERT_REQUEST then CertificateRequest
      else if i == HELLO_DONE then ServerHelloDone
      else if i == CLIENT_CERT then Certificate(!cfg.hasCert)
      else if i == CKE then ClientKeyExchange
      else if i == CERT_VERIFY then CertificateVerify
      else if i == NEXT_PROTO then NextProto
      else if i == CHANNEL_ID then TlsMessages.ChannelId
      else Finished
    }

    function Said(cfg: Config, i: nat): seq<Kind> {
      if Present(cfg, i) then [KindAt(cfg, i)] else []
    }

    /** The messages in slots a up to but not including b. */
    function Between(cfg: Config, a: nat, b: nat): seq<Kind>
      decreases b
    {
      if a >= b then [] else Between(cfg, a, b - 1) + Said(cfg, b - 1)
    }

    function Hashed(cfg: Config, n: nat): seq<Kind> {
      Between(cfg, 0, n)
    }
  }

  lemma {:induction false} Joins(k: Talk, cfg: Config, a: nat, b: nat, c: nat)
    requires a <= b <= c
    ensures k.Between(cfg, a, c) == k.Between(cfg, a, b) + k.Between(cfg, b, c)
    decreases c
  {
    hide Talk.Said;
    if b == c {
    } else {
      Joins(k, cfg, a, b, c - 1);
    }
  }

  lemma {:induction false} SameTalk(k: Talk, k': Talk, cfg: Config, n: nat)
    requires forall i: nat :: i < n ==> k.Said(cfg, i) == k'.Said(cfg, i)
    ensures k.Hashed(cfg, n) == k'.Hashed(cfg, n)
  {
    hide Talk.Said;
    if n == 0 {
    } else {
      SameTalk(k, k', cfg, n - 1);
    }
  }

  /** The slot that the client stands before: in a resumed handshake the server finishes first. */
  function Place(s: State, resumed: bool): int {
    CS.FullSlot(s)
    - if resumed && (s.ReadSessionTicket? || s.ProcessChangeCipherSpec? || s.ReadServerFinished?)
      then TICKET - EARLY_TICKET else 0
  }

  /** The client has learnt from the server what this talk says. */
  predicate Known(k: Talk, cfg: Config, s: State, t: Terms) {
    var p := CS.FullSlot(s);
    && p <= END && !t.tls13
    && (p == SH ==> t.session == cfg.session)
    && (p > SH ==>
          && k.Sensible() && t.session == k.Resumed(cfg) && t.cipher == k.hello.cipher
          && t.statusExpected == k.hello.status && t.npn == k.hello.npn && t.channelId == k.hello.channelId)
    && (SH < p <= STATUS ==> !k.status) && (SH < p <= SKE ==> k.params == k.hello.cipher.ecdhe)
    && (SH < p <= CERT_REQUEST ==> !k.request)
    && (CERT <= p <= CERT_VERIFY ==> !t.session)
    && (CERT <= p <= CERT_REQUEST ==> !t.certRequest)
    && (HELLO_DONE <= p <= CERT_VERIFY ==> t.certRequest == k.request)
    && (s.ReadSessionTicket? || (CERT <= p <= TICKET && !t.session) ==> t.ticketExpected == k.hello.ticket)
    && (TicketTaken(s, t.session) ==> t.ticketExpected == (k.hello.ticket && !k.emptyTicket))
  }

  predicate TicketTaken(s: State, resumed: bool) {
    s.ProcessChangeCipherSpec? || s.ReadServerFinished? || s.FinishClientHandshake? || s.Done?
    || (resumed && (s.SendClientFinished? || s.FinishFlight?))
  }

  function PlaceOf(k: Talk, cfg: Config, s: State): int {
    Place(s, k.Resumed(cfg))
  }

  /** What an act adds to the transcript, with this message before the machine. */
  function Adds(act: Act, peek: Option<Kind>): seq<Kind> {
    match act
    case Take => if peek.Some? then [peek.value] else []
    case TakeFinished => if peek.Some? then [peek.value] else []
    case Say(kinds) => kinds
    case Finish(before, after) => before + after + [Finished]
    case _ => []
  }

  /** The turn goes on in talk k': it adds to the transcript what the talk has between the two places. */
  predicate Goes(k: Talk, k': Talk, h: Hs, peek: Option<Kind>, e: Effect) {
    var p, r := PlaceOf(k, h.cfg, h.state), PlaceOf(k', h.cfg, e.state);
    && Known(k', h.cfg, e.state, e.terms) && 0 <= p && 0 <= r
    && if e.act.Restart? then r == SH && e.act.kind == ClientHello(h.cfg.session)
       else p <= r && Adds(e.act, peek) == k'.Between(h.cfg, p, r)
            && forall i: nat :: i < p ==> k.Said(h.cfg, i) == k'.Said(h.cfg, i)
  }

  /** What the server turns out to do, when the machine acts on its message. */
  function Met(k: Talk, h: Hs, peek: Option<Kind>, act: Act): Talk {
    match h.state
    case ReadServerHello =>
      if act.Take? && peek.Some? && peek.value.ServerHello?
      then Talk(peek.value.hello, false, peek.value.hello.cipher.ecdhe, false, false) else k
    case ReadCertificateStatus => k.(status := if act.Take? then true else k.status)
    case ReadServerKeyExchange => if act.Take? then k.(params := true) else k
    case ReadCertificateRequest => if act.Take? then k.(request := true) else k
    case ReadSessionTicket =>
      if act.Take? && peek.Some? && peek.value.NewSessionTicket? then k.(emptyTicket := peek.value.empty) else k
    case _ => k
  }

  /** The hypotheses of the lemmas below: a client within the talk, and no failing check. */
  predicate OnTalk(k: Talk, h: Hs, peek: Option<Kind>, checks: bool, o: Oracle) {
    Known(k, h.cfg, h.state, h.terms) && !o.fails && (checks ==> peek == Some(Finished))
  }

  lemma OneSlot(k: Talk, cfg: Config, a: nat)
    ensures k.Between(cfg, a, a) == [] && k.Between(cfg, a, a + 1) == k.Said(cfg, a)
  {
    hide Talk.Said;
    assert k.Between(cfg, a, a + 1) == k.Between(cfg, a, a) + k.Said(cfg, a);
  }

  lemma TwoSlots(k: Talk, cfg: Config, a: nat)
    ensures k.Between(cfg, a, a + 2) == k.Said(cfg, a) + k.Said(cfg, a + 1)
  {
    hide Talk.Said;
    OneSlot(k, cfg, a);
    assert k.Between(cfg, a, a + 2) == k.Between(cfg, a, a + 1) + k.Said(cfg, a + 1);
  }

  lemma {:induction false} Quiet(k: Talk, cfg: Config, a: nat, b: nat)
    requires a <= b && forall i: nat :: a <= i < b ==> !k.Present(cfg, i)
    ensures k.Between(cfg, a, b) == []
    decreases b
  {
    hide Talk.Present;
    if a == b {
    } else {
      Quiet(k, cfg, a, b - 1);
      assert !k.Present(cfg, b - 1);
    }
  }

  lemma OpeningGoes(k: Talk, h: Hs, peek: Option<Kind>, checks: bool, o: Oracle)
    requires OnTalk(k, h, peek, checks, o)
    requires h.state.StartConnect? || h.state.EnterEarlyData? || h.state.ReadHelloVerifyRequest?
    ensures var e := h.Run(peek, checks, o); e.wait != Error && !e.terms.tls13 ==>
              Goes(k, Met(k, h, peek, e.act), h, peek, e)
  {
    OneSlot(k, h.cfg, CH);
    OneSlot(k, h.cfg, SH);
  }

  lemma HelloGoes(k: Talk, h: Hs, peek: Option<Kind>, checks: bool, o: Oracle)
    requires OnTalk(k, h, peek, checks, o) && h.state.ReadServerHello?
    ensures var e := h.Run(peek, checks, o); e.wait != Error && !e.terms.tls13 ==>
              Goes(k, Met(k, h, peek, e.act), h, peek, e)
  {
    hide Talk.Said, Talk.Present;
    var e := h.Run(peek, checks, o);
    var k' := Met(k, h, peek, e.act);
    OneSlot(k', h.cfg, SH);
    if e.wait != Error && !e.terms.tls13 && e.act.Take? {
      HelloMoves(k, k', h.cfg);
    }
  }

  lemma HelloMoves(k: Talk, k': Talk, cfg: Config)
    ensures k.Said(cfg, CH) == k'.Said(cfg, CH)
    ensures k'.Between(cfg, SH, SH + 1) == [ServerHello(k'.hello)]
    ensures !k'.Resumed(cfg) ==> k'.Between(cfg, SH, CERT) == [ServerHello(k'.hello)]
  {
    OneSlot(k', cfg, SH);
    if !k'.Resumed(cfg) {
      Joins(k', cfg, SH, SH + 1, CERT);
      Quiet(k', cfg, SH + 1, CERT);
    }
  }

  /** What the talk has in the slots of the server's certificate and of its request. */
  lemma FlightSlots(k: Talk, cfg: Config)
    requires !k.Resumed(cfg)
    ensures k.Between(cfg, CERT, CERT) == []
    ensures k.Between(cfg, CERT, STATUS) == (if k.hello.cipher.certAuth then [Certificate(false)] else [])
    ensures k.Between(cfg, CERT_REQUEST, CERT_REQUEST) == []
    ensures k.Between(cfg, CERT_REQUEST, HELLO_DONE) == (if k.request then [CertificateRequest] else [])
  {
    OneSlot(k, cfg, CERT);
    OneSlot(k, cfg, CERT_REQUEST);
  }

  lemma AnswerSlots(k: Talk, cfg: Config)
    requires !k.Resumed(cfg)
    ensures k.Between(cfg, CLIENT_CERT, CLIENT_CERT) == []
    ensures k.Between(cfg, CLIENT_CERT, CKE) == (if k.request then [Certificate(!cfg.hasCert)] else [])
    ensures k.Between(cfg, CKE, CKE) == [] && k.Between(cfg, CKE, CERT_VERIFY) == [ClientKeyExchange]
    ensures k.Between(cfg, CERT_VERIFY, CERT_VERIFY) == []
    ensures k.Between(cfg, CERT_VERIFY, CLIENT_CCS)
         == (if k.request && cfg.hasCert then [CertificateVerify] else [])
  {
    OneSlot(k, cfg, CLIENT_CERT);
    OneSlot(k, cfg, CKE);
    OneSlot(k, cfg, CERT_VERIFY);
  }

  lemma RequestIsLater(k: Talk, k': Talk, cfg: Config)
    requires k' == k.(request := k'.request)
    ensures forall i: nat :: i < CERT_REQUEST ==> k.Said(cfg, i) == k'.Said(cfg, i)
    ensures k.Sensible() && (k'.request ==> k.hello.cipher.certAuth) ==> k'.Sensible()
  {
  }

  lemma CertificateGoes(k: Talk, h: Hs, peek: Option<Kind>, checks: bool, o: Oracle)
    requires OnTalk(k, h, peek, checks, o) && h.state.ReadServerCertificate?
    ensures var e := h.Run(peek, checks, o); e.wait != Error && !e.terms.tls13 ==>
              Goes(k, Met(k, h, peek, e.act), h, peek, e)
  {
    hide Talk.Said, Talk.Present, Talk.KindAt, Talk.Between, Talk.Sensible;
    FlightSlots(k, h.cfg);
  }

  lemma StatusGoes(k: Talk, h: Hs, peek: Option<Kind>, checks: bool, o: Oracle)
    requires OnTalk(k, h, peek, checks, o) && h.state.ReadCertificateStatus?
    ensures var e := h.Run(peek, checks, o); e.wait != Error && !e.terms.tls13 ==>
              Goes(k, Met(k, h, peek, e.act), h, peek, e)
  {
    var k' := Met(k, h, peek, h.Run(peek, checks, o).act);
    OneSlot(k', h.cfg, STATUS);
  }

  lemma VerifyGoes(k: Talk, h: Hs, peek: Option<Kind>, checks: bool, o: Oracle)
    requires OnTalk(k, h, peek, checks, o) && h.state.VerifyServerCertificate?
    ensures var e := h.Run(peek, checks, o); e.wait != Error && !e.terms.tls13 ==>
              Goes(k, Met(k, h, peek, e.act), h, peek, e)
  {
    OneSlot(k, h.cfg, SKE);
  }

  lemma KeyExchangeGoes(k: Talk, h: Hs, peek: Option<Kind>, checks: bool, o: Oracle)
    requires OnTalk(k, h, peek, checks, o) && h.state.ReadServerKeyExchange?
    ensures var e := h.Run(peek, checks, o); e.wait != Error && !e.terms.tls13 ==>
              Goes(k, Met(k, h, peek, e.act), h, peek, e)
  {
    var k' := Met(k, h, peek, h.Run(peek, checks, o).act);
    OneSlot(k', h.cfg, SKE);
  }

  lemma RequestIs(h: Hs, peek: Option<Kind>, checks: bool, o: Oracle)
    requires (checks ==> peek.Some?) && h.state.ReadCertificateRequest? && !o.fails
    ensures var e, asks := h.Run(peek, checks, o), h.terms.cipher.certAuth && peek == Some(CertificateRequest);
            || e == h.Stay(e.wait)
            || (e.state.ReadServerHelloDone? && e.terms == h.terms.(certRequest := asks || h.terms.certRequest)
                && e.act == (if asks then Take else Nothing))
  {
  }

  lemma RequestGoes(k: Talk, h: Hs, peek: Option<Kind>, checks: bool, o: Oracle)
    requires OnTalk(k, h, peek, checks, o) && h.state.ReadCertificateRequest?
    ensures var e := h.Run(peek, checks, o); e.wait != Error && !e.terms.tls13 ==>
              Goes(k, Met(k, h, peek, e.act), h, peek, e)
  {
    hide Hs.Run, Known, Talk.Said, Talk.Between, Talk.Sensible, Talk.Resumed;
    RequestIs(h, peek, checks, o);
    var e := h.Run(peek, checks, o);
    var k' := Met(k, h, peek, e.act);
    assert k' == k.(request := k.request || e.act.Take?);
    RequestIsKnown(k, k', h.cfg, h.terms);
    RequestIsLater(k, k', h.cfg);
    FlightSlots(k', h.cfg);
  }

  lemma RequestIsKnown(k: Talk, k': Talk, cfg: Config, t: Terms)
    requires Known(k, cfg, ReadCertificateRequest, t)
    requires k' == k.(request := k'.request) && (k'.request ==> k.request || t.cipher.certAuth)
    ensures !k.request && !t.certRequest && !t.session && !k.Resumed(cfg) && !k'.Resumed(cfg)
    ensures k' == k ==> Known(k', cfg, ReadCertificateRequest, t)
    ensures Known(k', cfg, ReadServerHelloDone, t.(certRequest := k'.request))
  {
    hide Talk.Said, Talk.Sensible;
    RequestIsLater(k, k', cfg);
  }

  lemma HelloDoneGoes(k: Talk, h: Hs, peek: Option<Kind>, checks: bool, o: Oracle)
    requires OnTalk(k, h, peek, checks, o) && h.state.ReadServerHelloDone?
    ensures var e := h.Run(peek, checks, o); e.wait != Error && !e.terms.tls13 ==>
              Goes(k, Met(k, h, peek, e.act), h, peek, e)
  {
    OneSlot(k, h.cfg, HELLO_DONE);
  }

  lemma ClientFlightGoes(k: Talk, h: Hs, peek: Option<Kind>, checks: bool, o: Oracle)
    requires OnTalk(k, h, peek, checks, o)
    requires h.state.SendClientCertificate? || h.state.SendClientKeyExchange? || h.state.SendClientCertificateVerify?
    ensures var e := h.Run(peek, checks, o); e.wait != Error && !e.terms.tls13 ==>
              Goes(k, Met(k, h, peek, e.act), h, peek, e)
  {
    hide Talk.Said, Talk.Present, Talk.KindAt, Talk.Between, Talk.Sensible;
    AnswerSlots(k, h.cfg);
  }

  lemma LastFlight(k: Talk, cfg: Config)
    ensures k.Between(cfg, CLIENT_CCS, TICKET)
         == [] + ((if k.hello.npn then [NextProto] else [])
                  + (if k.hello.channelId then [TlsMessages.ChannelId] else [])) + [Finished]
  {
    Joins(k, cfg, CLIENT_CCS, NEXT_PROTO, TICKET);
    Joins(k, cfg, NEXT_PROTO, CLIENT_FINISHED, TICKET);
    OneSlot(k, cfg, CLIENT_CCS);
    TwoSlots(k, cfg, NEXT_PROTO);
    OneSlot(k, cfg, CLIENT_FINISHED);
  }

  lemma FinishGoes(k: Talk, h: Hs, peek: Option<Kind>, checks: bool, o: Oracle)
    requires OnTalk(k, h, peek, checks, o) && h.state.SendClientFinished?
    ensures var e := h.Run(peek, checks, o); e.wait != Error && !e.terms.tls13 ==>
              Goes(k, Met(k, h, peek, e.act), h, peek, e)
  {
    hide Talk.Said, Talk.Present, Talk.Between;
    LastFlight(k, h.cfg);
    var p := PlaceOf(k, h.cfg, h.state);
    assert p == CLIENT_CCS;
    OneSlot(k, h.cfg, p);
  }

  lemma FlightGoes(k: Talk, h: Hs, peek: Option<Kind>, checks: bool, o: Oracle)
    requires OnTalk(k, h, peek, checks, o) && h.state.FinishFlight?
    ensures var e := h.Run(peek, checks, o); e.wait != Error && !e.terms.tls13 ==>
              Goes(k, Met(k, h, peek, e.act), h, peek, e)
  {
    OneSlot(k, h.cfg, TICKET);
    if h.terms.session { Quiet(k, h.cfg, TICKET, END); }
  }

  /** Between the ticket and the server's Finished there is the ticket, and nothing else. */
  lemma TicketMoves(k: Talk, k': Talk, cfg: Config)
    requires k' == k.(emptyTicket := k'.emptyTicket)
    ensures var p := if k.Resumed(cfg) then EARLY_TICKET else TICKET;
            && k'.Between(cfg, p, p) == []
            && k'.Between(cfg, p, p + 2) == (if k.hello.ticket then [NewSessionTicket(k'.emptyTicket)] else [])
            && forall i: nat :: i < p ==> k.Said(cfg, i) == k'.Said(cfg, i)
    ensures k'.Sensible() == k.Sensible()
  {
    var p := if k.Resumed(cfg) then EARLY_TICKET else TICKET;
    TwoSlots(k', cfg, p);
    OneSlot(k', cfg, p);
  }

  lemma TicketGoes(k: Talk, h: Hs, peek: Option<Kind>, checks: bool, o: Oracle)
    requires OnTalk(k, h, peek, checks, o) && h.state.ReadSessionTicket?
    ensures var e := h.Run(peek, checks, o); e.wait != Error && !e.terms.tls13 ==>
              Goes(k, Met(k, h, peek, e.act), h, peek, e)
  {
    hide Talk.Said, Talk.Present, Talk.KindAt, Talk.Between, Talk.Sensible;
    var k' := Met(k, h, peek, h.Run(peek, checks, o).act);
    TicketMoves(k, k', h.cfg);
  }

  lemma CipherGoes(k: Talk, h: Hs, peek: Option<Kind>, checks: bool, o: Oracle)
    requires OnTalk(k, h, peek, checks, o) && h.state.ProcessChangeCipherSpec?
    ensures var e := h.Run(peek, checks, o); e.wait != Error && !e.terms.tls13 ==>
              Goes(k, Met(k, h, peek, e.act), h, peek, e)
  {
    OneSlot(k, h.cfg, EARLY_FINISHED);
    OneSlot(k, h.cfg, SERVER_FINISHED);
  }

  lemma FinishedGoes(k: Talk, h: Hs, peek: Option<Kind>, checks: bool, o: Oracle)
    requires OnTalk(k, h, peek, checks, o) && h.state.ReadServerFinished?
    ensures var e := h.Run(peek, checks, o); e.wait != Error && !e.terms.tls13 ==>
              Goes(k, Met(k, h, peek, e.act), h, peek, e)
  {
    if h.terms.session {
      Joins(k, h.cfg, EARLY_FINISHED, CERT, CLIENT_CCS);
      OneSlot(k, h.cfg, EARLY_FINISHED);
      Quiet(k, h.cfg, CERT, CLIENT_CCS);
    } else {
      OneSlot(k, h.cfg, SERVER_FINISHED);
    }
  }

  lemma EndGoes(k: Talk, h: Hs, peek: Option<Kind>, checks: bool, o: Oracle)
    requires OnTalk(k, h, peek, checks, o) && (h.state.FinishClientHandshake? || h.state.Done?)
    ensures var e := h.Run(peek, checks, o); e.wait != Error && !e.terms.tls13 ==>
              Goes(k, Met(k, h, peek, e.act), h, peek, e)
  {
    OneSlot(k, h.cfg, END);
  }

  /** Every state, whatever message is before it, goes on as some sensible server would have it, or stops. */
  lemma RunGoes(k: Talk, h: Hs, peek: Option<Kind>, checks: bool, o: Oracle)
    requires OnTalk(k, h, peek, checks, o)
    ensures var e := h.Run(peek, checks, o); e.wait != Error && !e.terms.tls13 ==>
              Goes(k, Met(k, h, peek, e.act), h, peek, e)
  {
    hide Hs.Run, Goes, Met;
    match h.state
    case StartConnect | EnterEarlyData | ReadHelloVerifyRequest => OpeningGoes(k, h, peek, checks, o);
    case ReadServerHello => HelloGoes(k, h, peek, checks, o);
    case ReadServerCertificate => CertificateGoes(k, h, peek, checks, o);
    case ReadCertificateStatus => StatusGoes(k, h, peek, checks, o);
    case VerifyServerCertificate => VerifyGoes(k, h, peek, checks, o);
    case ReadServerKeyExchange => KeyExchangeGoes(k, h, peek, checks, o);
    case ReadCertificateRequest => RequestGoes(k, h, peek, checks, o);
    case ReadServerHelloDone => HelloDoneGoes(k, h, peek, checks, o);
    case SendClientCertificate | SendClientKeyExchange
      | SendClientCertificateVerify => ClientFlightGoes(k, h, peek, checks, o);
    case SendClientFinished => FinishGoes(k, h, peek, checks, o);
    case FinishFlight => FlightGoes(k, h, peek, checks, o);
    case ReadSessionTicket => TicketGoes(k, h, peek, checks, o);
    case ProcessChangeCipherSpec => CipherGoes(k, h, peek, checks, o);
    case ReadServerFinished => FinishedGoes(k, h, peek, checks, o);
    case FinishClientHandshake | Done => EndGoes(k, h, peek, checks, o);
    case Tls13 =>
  }

  // Whole runs.

  ghost predicate Within(k: Talk, c: Client) {
    var s, t := c.hs.state, c.hs.terms;
    if t.tls13 then s.Tls13? || s.FinishClientHandshake? || s.Done?
    else
      && Known(k, c.hs.cfg, s, t) && PlaceOf(k, c.hs.cfg, s) >= 0
      && c.link.transcript == k.Hashed(c.hs.cfg, PlaceOf(k, c.hs.cfg, s))
  }

  lemma TurnIs(c: Client, o: Oracle)
    requires c.wait == Ok
    ensures var e := c.hs.Run(c.link.Peek(), c.link.FinishedChecks(), o);
            && c.link.CanDo(e.act)
            && c.Turn(o) == Client(Hs(c.hs.cfg, e.state, e.terms), e.wait, c.link.Do(e.act))
  {
    hide Hs.Run, Link.Do;
  }

  lemma NothingDone(l: Link)
    ensures l.Do(Nothing) == l
  {
  }

  lemma ActAdds(l: Link, act: Act)
    requires l.CanDo(act)
    ensures l.Do(act).transcript == if act.Restart? then [act.kind] else l.transcript + Adds(act, l.Peek())
  {
  }

  lemma GoesWithin(k: Talk, k': Talk, c: Client, e: Effect)
    requires Within(k, c) && !c.hs.terms.tls13 && !e.terms.tls13 && c.link.CanDo(e.act)
    requires Goes(k, k', c.hs, c.link.Peek(), e)
    ensures Within(k', Client(Hs(c.hs.cfg, e.state, e.terms), e.wait, c.link.Do(e.act)))
  {
    hide Known, Talk.Said, Link.Do, Adds, Place, Talk.Resumed;
    ActAdds(c.link, e.act);
    var cfg := c.hs.cfg;
    var p, r := PlaceOf(k, cfg, c.hs.state), PlaceOf(k', cfg, e.state);
    if e.act.Restart? {
      OnlyHello(k', cfg);
    } else {
      SameTalk(k, k', cfg, p);
      Joins(k', cfg, 0, p, r);
    }
  }

  lemma OnlyHello(k: Talk, cfg: Config)
    ensures k.Hashed(cfg, SH) == [ClientHello(cfg.session)]
  {
    OneSlot(k, cfg, CH);
  }

  lemma Tls13Goes(h: Hs, peek: Option<Kind>, checks: bool, o: Oracle)
    requires checks ==> peek.Some?
    requires h.terms.tls13 ==> h.state.Tls13? || h.state.FinishClientHandshake? || h.state.Done?
    ensures var e := h.Run(peek, checks, o);
            && (h.terms.tls13 && (h.state.Tls13? || h.state.FinishClientHandshake? || h.state.Done?) ==>
                  e.terms.tls13 && (e.state.Tls13? || e.state.FinishClientHandshake? || e.state.Done?))
            && (!h.terms.tls13 && h.state.ReadServerHello? && e.terms.tls13 ==> e.state.Tls13?)
  {
  }

  lemma OnlyHelloTakesOver(k: Talk, h: Hs, peek: Option<Kind>, checks: bool, o: Oracle)
    requires OnTalk(k, h, peek, checks, o)
    ensures h.Run(peek, checks, o).terms.tls13 ==> h.state.ReadServerHello?
  {
    hide Talk.Sensible;
  }

  lemma TurnStaysWithin(k: Talk, c: Client, o: Oracle) returns (k': Talk)
    requires Within(k, c)
    ensures Within(k', c.Turn(o))
  {
    hide Hs.Run, Known, Goes, Met, Talk.Hashed, PlaceOf, Link.Do;
    k' := k;
    if c.wait == Ok {
      var h, peek, checks, o' := c.hs, c.link.Peek(), c.link.FinishedChecks(), o.(fails := false);
      TurnIs(c, o);
      NothingDone(c.link);
      Tls13Goes(h, peek, checks, o);
      FailureIsAnError(h, peek, checks, o);
      if !h.terms.tls13 && h.Run(peek, checks, o) != h.Stay(Error) {
        var e := h.Run(peek, checks, o');
        ErrorStays(h, peek, checks, o');
        if e.terms.tls13 {
          OnlyHelloTakesOver(k, h, peek, checks, o');
        } else {
          RunGoes(k, h, peek, checks, o');
          k' := Met(k, h, peek, e.act);
          GoesWithin(k, k', c, e);
        }
      }
    }
  }

  lemma ErrorStays(h: Hs, peek: Option<Kind>, checks: bool, o: Oracle)
    requires checks ==> peek.Some?
    ensures h.Run(peek, checks, o).wait == Error ==> h.Run(peek, checks, o) == h.Stay(Error)
  {
  }

  lemma {:induction false} RunStaysIn(cfg: Config, events: seq<Event>) returns (k: Talk)
    ensures var c := After(Step, Start(cfg), events); c.hs.cfg == cfg && Within(k, c)
  {
    hide Client.Turn, Within;
    if events == [] {
      k := Talk(Hello(false, false, Cipher(false, false), false, false, false, false), false, false, false, false);
      StartsWithin(k, cfg);
    } else {
      var was := RunStaysIn(cfg, events[..|events| - 1]);
      var c := After(Step, Start(cfg), events[..|events| - 1]);
      match events[|events| - 1]
      case Run(o) =>
        k := TurnStaysWithin(was, c, o);
        TurnKeepsConfig(c, o);
      case Arrive(items) =>
        k := was;
        ArrivalStaysWithin(k, c, items);
    }
  }

  lemma StartsWithin(k: Talk, cfg: Config)
    ensures Within(k, Start(cfg))
  {
  }

  lemma TurnKeepsConfig(c: Client, o: Oracle)
    ensures c.Turn(o).hs.cfg == c.hs.cfg
  {
    hide Hs.Run;
  }

  lemma ArrivalStaysWithin(k: Talk, c: Client, items: seq<Item>)
    requires Within(k, c)
    ensures Within(k, c.(link := c.link.(inbox := c.link.inbox + items)))
  {
  }

  /** Against any peer, whatever fails: a client that reaches its end without TLS 1.3 has hashed just the messages of a
      handshake with a server that does what a server may do; and it goes by what that server said. */
  lemma EndsOnScript(cfg: Config, events: seq<Event>) returns (k: Talk)
    ensures var c := After(Step, Start(cfg), events);
            c.hs.state.Done? && !c.hs.terms.tls13 ==>
              && k.Sensible() && c.link.transcript == k.Hashed(cfg, END)
              && c.hs.terms.session == k.Resumed(cfg) && c.hs.terms.cipher == k.hello.cipher
              && c.hs.terms.ticketExpected == (k.hello.ticket && !k.emptyTicket)
  {
    hide Step, Within;
    k := RunStaysIn(cfg, events);
    AtTheEnd(k, After(Step, Start(cfg), events));
  }

  lemma AtTheEnd(k: Talk, c: Client)
    requires Within(k, c)
    ensures c.hs.state.Done? && !c.hs.terms.tls13 ==>
              && k.Sensible() && c.link.transcript == k.Hashed(c.hs.cfg, END)
              && c.hs.terms.session == k.Resumed(c.hs.cfg) && c.hs.terms.cipher == k.hello.cipher
              && c.hs.terms.ticketExpected == (k.hello.ticket && !k.emptyTicket)
  {
    hide Talk.Hashed, Talk.Sensible;
  }

  // The server's certificate and its Finished.

  /** A turn in which the server's certificate is verified, successfully. */
  ghost predicate VerifyTurn(x: Client, events: seq<Event>, i: nat) {
    && i < |events| && events[i].Run? && !events[i].o.fails && !events[i].o.pending
    && var c := After(Step, x, events[..i]);
       c.wait == Ok && c.hs.state.VerifyServerCertificate? && c.hs.terms.cipher.certAuth
  }

  predicate PastVerify(s: State, t: Terms) {
    !t.session && !t.tls13 && t.cipher.certAuth && Rank(s, false) < Rank(VerifyServerCertificate, false)
  }

  lemma NotPassedYet(h: Hs, peek: Option<Kind>, checks: bool, o: Oracle)
    requires checks ==> peek.Some?
    requires h.state.StartConnect? || h.state.EnterEarlyData? || h.state.ReadHelloVerifyRequest?
             || h.state.ReadServerHello? || h.state.ReadServerCertificate? || h.state.ReadCertificateStatus?
    ensures var e := h.Run(peek, checks, o); PastVerify(e.state, e.terms) ==> PastVerify(h.state, h.terms)
  {
  }

  lemma PassedInFlight(h: Hs, peek: Option<Kind>, checks: bool, o: Oracle)
    requires checks ==> peek.Some?
    requires h.state.ReadServerKeyExchange? || h.state.ReadCertificateRequest? || h.state.ReadServerHelloDone?
             || h.state.SendClientCertificate? || h.state.SendClientKeyExchange?
    ensures var e := h.Run(peek, checks, o); PastVerify(e.state, e.terms) ==> PastVerify(h.state, h.terms)
  {
  }

  lemma PassedBefore(h: Hs, peek: Option<Kind>, checks: bool, o: Oracle)
    requires checks ==> peek.Some?
    requires h.state.SendClientCertificateVerify? || h.state.SendClientFinished? || h.state.FinishFlight?
             || h.state.ReadSessionTicket?
    ensures var e := h.Run(peek, checks, o); PastVerify(e.state, e.terms) ==> PastVerify(h.state, h.terms)
  {
  }

  lemma PassedLast(h: Hs, peek: Option<Kind>, checks: bool, o: Oracle)
    requires checks ==> peek.Some?
    requires h.state.ProcessChangeCipherSpec? || h.state.ReadServerFinished? || h.state.FinishClientHandshake?
             || h.state.Done? || (h.state.Tls13? && h.terms.tls13)
    ensures var e := h.Run(peek, checks, o); PastVerify(e.state, e.terms) ==> PastVerify(h.state, h.terms)
  {
  }

  /** There is one turn in which a client that needs the server's certificate gets past its verification. */
  lemma VerificationPasses(h: Hs, peek: Option<Kind>, checks: bool, o: Oracle)
    requires (checks ==> peek.Some?) && (h.state.Tls13? ==> h.terms.tls13)
    requires var e := h.Run(peek, checks, o); PastVerify(e.state, e.terms) && !PastVerify(h.state, h.terms)
    ensures h.state.VerifyServerCertificate? && h.terms.cipher.certAuth && !o.fails && !o.pending
  {
    if h.state.VerifyServerCertificate? {
      AtVerification(h, peek, checks, o);
    } else {
      hide Hs.Run, PastVerify;
      match h.state
      case StartConnect | EnterEarlyData | ReadHelloVerifyRequest | ReadServerHello | ReadServerCertificate
        | ReadCertificateStatus => NotPassedYet(h, peek, checks, o);
      case ReadServerKeyExchange | ReadCertificateRequest | ReadServerHelloDone | SendClientCertificate
        | SendClientKeyExchange => PassedInFlight(h, peek, checks, o);
      case SendClientCertificateVerify | SendClientFinished | FinishFlight
        | ReadSessionTicket => PassedBefore(h, peek, checks, o);
      case _ => PassedLast(h, peek, checks, o);
    }
  }

  lemma AtVerification(h: Hs, peek: Option<Kind>, checks: bool, o: Oracle)
    requires (checks ==> peek.Some?) && h.state.VerifyServerCertificate?
    ensures var e := h.Run(peek, checks, o);
            PastVerify(e.state, e.terms) ==> h.terms.cipher.certAuth && !o.fails && !o.pending
  {
  }

  lemma {:induction false} PhaseStays(x: Client, events: seq<Event>)
    requires PhaseOk(x)
    ensures PhaseOk(After(Step, x, events))
  {
    hide Client.Turn, Rank;
    if events == [] {
    } else {
      PhaseStays(x, events[..|events| - 1]);
      if events[|events| - 1].Run? {
        TurnAdvances(After(Step, x, events[..|events| - 1]), events[|events| - 1].o);
      }
    }
  }

  /** From whatever state in phase: a client gets past the verification only by verifying. */
  lemma {:induction false} VerificationPassed(x: Client, events: seq<Event>) returns (i: nat)
    requires PhaseOk(x) && !PastVerify(x.hs.state, x.hs.terms)
    requires var h := After(Step, x, events).hs; PastVerify(h.state, h.terms)
    ensures VerifyTurn(x, events, i)
    decreases |events|
  {
    hide Hs.Run, Link.Do, PastVerify;
    var front, last := events[..|events| - 1], events[|events| - 1];
    var c := After(Step, x, front);
    if PastVerify(c.hs.state, c.hs.terms) {
      i := VerificationPassed(x, front);
      assert front[..i] == events[..i];
    } else {
      i := |events| - 1;
      PhaseStays(x, front);
      VerificationPasses(c.hs, c.link.Peek(), c.link.FinishedChecks(), last.o);
    }
  }

  lemma NotYetPast(cfg: Config)
    ensures !PastVerify(Start(cfg).hs.state, Start(cfg).hs.terms) && PhaseOk(Start(cfg))
  {
  }

  /** Against any peer: a client that reaches its end in a full handshake without TLS 1.3, under a cipher that
      authenticates the server by its certificate, has taken a certificate and verified it. */
  lemma ServerIsVerified(cfg: Config, events: seq<Event>) returns (i: nat)
    requires var h := After(Step, Start(cfg), events).hs;
             h.state.Done? && !h.terms.tls13 && !h.terms.session && h.terms.cipher.certAuth
    ensures VerifyTurn(Start(cfg), events, i)
    ensures Certificate(false) in After(Step, Start(cfg), events).link.transcript
  {
    hide Step, VerifyTurn, Talk.Hashed;
    NotYetPast(cfg);
    i := VerificationPassed(Start(cfg), events);
    var k := EndsOnScript(cfg, events);
    SaidIsHashed(k, cfg, CERT, END);
  }

  lemma {:induction false} SaidIsHashed(k: Talk, cfg: Config, i: nat, n: nat)
    requires i < n && k.Present(cfg, i)
    ensures k.KindAt(cfg, i) in k.Hashed(cfg, n)
    decreases n
  {
    hide Talk.Present, Talk.KindAt;
    if i < n - 1 {
      SaidIsHashed(k, cfg, i, n - 1);
    }
  }

  /** The server's Finished, over what the client has hashed by now, is next. */
  ghost predicate Accepts(c: Client) {
    && c.wait == Ok && c.hs.state.ReadServerFinished? && c.link.inbox != []
    && c.link.inbox[0] == Handshake(Finished, FinishedMac(true, c.link.transcript))
  }

  lemma TranscriptGrows(c: Client, o: Oracle)
    requires !c.link.server
    ensures !c.hs.state.ReadHelloVerifyRequest? ==> c.link.transcript <= c.Turn(o).link.transcript
    ensures c.Turn(o).link.progress.accepted != c.link.progress.accepted ==>
              Accepts(c) && c.Turn(o).link.transcript == c.link.transcript + [Finished]
  {
  }

  /** Against any peer: when a Finished has been accepted, there was a turn in which the server's Finished over the
      transcript so far was there; and that transcript, and the Finished, are the beginning of the present one. */
  lemma {:induction false} FinishedWasRight(cfg: Config, events: seq<Event>) returns (i: nat)
    requires After(Step, Start(cfg), events).link.progress.accepted > 0
    ensures i < |events|
    ensures var c := After(Step, Start(cfg), events[..i]);
            Accepts(c) && c.link.transcript + [Finished] <= After(Step, Start(cfg), events).link.transcript
    decreases |events|
  {
    hide Client.Turn, Accepts;
    var front, last := events[..|events| - 1], events[|events| - 1];
    var c := After(Step, Start(cfg), front);
    SideStays(cfg, front);
    DoneMeansFinished(cfg, front);
    if last.Run? {
      TranscriptGrows(c, last.o);
    }
    if c.link.progress.accepted > 0 {
      i := FinishedWasRight(cfg, front);
      assert front[..i] == events[..i];
    } else {
      i := |events| - 1;
    }
  }

  lemma {:induction false} SideStays(cfg: Config, events: seq<Event>)
    ensures !After(Step, Start(cfg), events).link.server
  {
    hide Hs.Run, Link.Do;
    if events == [] {
    } else {
      SideStays(cfg, events[..|events| - 1]);
    }
  }

  // What is taken from the peer.

  /** A turn takes at most the item that came first: a message, which is hashed, or, where it waits for one and never
      elsewhere, a ChangeCipherSpec. A HelloVerifyRequest starts the transcript anew. */
  lemma TurnTakes(c: Client, o: Oracle)
    ensures var l, l' := c.link, c.Turn(o).link;
            || l'.inbox == l.inbox
            || (&& l.inbox != [] && l'.inbox == l.inbox[1..]
                && match l.inbox[0]
                   case Ccs => c.wait.AwaitCcs? && c.Turn(o) == Client(c.hs, Ok, l.(inbox := l'.inbox))
                   case Handshake(kind, _) =>
                     c.wait == Ok
                     && l'.transcript == if kind == HelloVerifyRequest then [ClientHello(c.hs.cfg.session)]
                                         else l.transcript + [kind])
  {
  }

  /** The ChangeCipherSpec is next, and the client, which has not switched its read cipher, waits for it. */
  ghost predicate SeesCcs(c: Client) {
    && c.hs.state.ProcessChangeCipherSpec? && c.wait.AwaitCcs? && !c.link.progress.readCipher
    && c.link.inbox != [] && c.link.inbox[0].Ccs?
  }

  predicate PastCcs(c: Client) {
    c.link.progress.readCipher || (c.hs.state.ProcessChangeCipherSpec? && !c.wait.AwaitCcs? && !c.wait.Error?)
  }

  /** The state that switches the read cipher is entered only to wait. */
  lemma CcsIsAwaited(h: Hs, peek: Option<Kind>, checks: bool, o: Oracle)
    requires checks ==> peek.Some?
    ensures var e := h.Run(peek, checks, o);
            e.act.OpenCipher? || (e.state.ProcessChangeCipherSpec? && !e.wait.AwaitCcs? && !e.wait.Error?) ==>
              h.state.ProcessChangeCipherSpec?
  {
  }

  lemma CcsPassed(c: Client, o: Oracle)
    requires !PastCcs(c) && PastCcs(c.Turn(o))
    ensures SeesCcs(c) && c.Turn(o).link == c.link.(inbox := c.link.inbox[1..])
  {
    hide Hs.Run, Link.Do;
    if c.wait == Ok {
      CcsIsAwaited(c.hs, c.link.Peek(), c.link.FinishedChecks(), o);
    }
  }

  /** Against any peer: a client that has switched its read cipher took a ChangeCipherSpec for it, in its place. */
  lemma {:induction false} CipherWasSwitched(cfg: Config, events: seq<Event>) returns (i: nat)
    requires PastCcs(After(Step, Start(cfg), events))
    ensures i < |events| && events[i].Run?
    ensures SeesCcs(After(Step, Start(cfg), events[..i]))
    decreases |events|
  {
    hide Client.Turn, SeesCcs;
    var front, last := events[..|events| - 1], events[|events| - 1];
    var c := After(Step, Start(cfg), front);
    if PastCcs(c) {
      i := CipherWasSwitched(cfg, front);
      assert front[..i] == events[..i];
    } else {
      i := |events| - 1;
      CcsPassed(c, last.o);
    }
  }

  // False start.

  /** ssl_run_handshake returns early just when a full handshake has sent the client's flight and false start is on. */
  lemma EarlyReturnIs(h: Hs, peek: Option<Kind>, checks: bool, o: Oracle)
    requires checks ==> peek.Some?
    ensures h.Run(peek, checks, o).wait.EarlyReturn? <==>
              h.state.FinishFlight? && !h.terms.session && !o.fails && h.cfg.falseStart
  {
  }

  /** Against any peer: when it returns early, the client's own Finished is sent, the write cipher installed, and
      nothing of the server's last flight taken. */
  lemma {:induction false} EarlyReturnIsLate(cfg: Config, events: seq<Event>)
    requires After(Step, Start(cfg), events).wait.EarlyReturn?
    ensures var c := After(Step, Start(cfg), events);
            cfg.falseStart && c.hs.state.ReadSessionTicket? && !c.hs.terms.session
            && c.link.progress == Progress(false, true, 1, 0)
    decreases |events|
  {
    hide Hs.Run, Link.Do, Within, Rank;
    DoneMeansFinished(cfg, events);
    if events == [] {
    } else {
      var front, last := events[..|events| - 1], events[|events| - 1];
      var c := After(Step, Start(cfg), front);
      var k := RunStaysIn(cfg, front);
      if last.Run? && c.wait == Ok {
        EarlyReturnIs(c.hs, c.link.Peek(), c.link.FinishedChecks(), last.o);
        NextIsTicket(c.hs, c.link.Peek(), c.link.FinishedChecks(), last.o);
      } else {
        EarlyReturnIsLate(cfg, front);
      }
    }
  }

  lemma NextIsTicket(h: Hs, peek: Option<Kind>, checks: bool, o: Oracle)
    requires (checks ==> peek.Some?) && h.state.FinishFlight? && h.Run(peek, checks, o).wait.EarlyReturn?
    ensures var e := h.Run(peek, checks, o); e.state.ReadSessionTicket? && !e.terms.session
  {
  }

  // No false alarms.

  /** What a server may send when a client in this state looks for a message. */
  predicate Legal(k: Talk, s: State, kind: Kind) {
    match s
    case ReadHelloVerifyRequest => kind == HelloVerifyRequest || kind == ServerHello(k.hello)
    case ReadServerHello => kind == ServerHello(k.hello)
    case ReadServerCertificate => k.hello.cipher.certAuth ==> kind == Certificate(false)
    case ReadServerKeyExchange => kind == AfterStatus(k)
    case ReadCertificateRequest => kind == if k.request then CertificateRequest else ServerHelloDone
    case ReadServerHelloDone => kind == ServerHelloDone
    case ReadSessionTicket => k.hello.ticket ==> kind.NewSessionTicket?
    case ReadServerFinished => kind == Finished
    case _ => true
  }

  function AfterStatus(k: Talk): Kind {
    if k.params then ServerKeyExchange else if k.request then CertificateRequest else ServerHelloDone
  }

  /** A client whose own checks pass never refuses a message that a sensible server may send, a HelloVerifyRequest or
      a missing status or an unasked-for ServerKeyExchange of a PSK cipher among them; and unless a callback is
      pending, it goes on to another state. */
  lemma LegalIsAccepted(k: Talk, h: Hs, peek: Option<Kind>, checks: bool, o: Oracle)
    requires k.Sensible() && !o.fails && peek.Some? && Legal(k, h.state, peek.value)
    requires h.state.ReadServerFinished? ==> checks
    requires h.state != ReadServerHello && h.state != ReadHelloVerifyRequest && h.state != StartConnect ==>
               h.terms.cipher == k.hello.cipher && (h.terms.ticketExpected ==> k.hello.ticket)
    ensures var e := h.Run(peek, checks, o);
            e.wait != Error && (!o.pending && !h.state.Done? ==> e.state != h.state)
    ensures h.state.ReadHelloVerifyRequest? && peek.value == HelloVerifyRequest ==>
              h.Run(peek, checks, o) == Effect(ReadServerHello, h.terms, Flush, Restart(ClientHello(h.cfg.session)))
  {
  }
}
