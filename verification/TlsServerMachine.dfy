/** ssl_server_handshake in place: the state functions, the loop over them, and ssl_run_handshake. */
module TlsServerMachine {
  import opened Wrappers
  import opened TlsMessages
  import opened TlsRuns
  import opened TlsConnection
  import opened TlsServer
  import P = TlsServerPeer

  /** The last flight, put together message by message. */
  lemma FinishedFlight(l: Link, a: seq<Kind>)
    ensures var l' := l.Do(Finish(a, []));
            && l'.inbox == l.inbox
            && l'.progress == l.progress.(writeCipher := true, sent := l.progress.sent + 1)
            && l'.transcript == l.transcript + a + [Finished]
            && l'.outbox == l.outbox + Messages(a) + [Ccs]
                            + [Handshake(Finished, FinishedMac(l.server, l.transcript + a))]
  {
    hide Messages;
    NoMessages();
    assert l.transcript + a + [] == l.transcript + a;
    assert l.outbox + Messages(a) + [Ccs] + [] == l.outbox + Messages(a) + [Ccs];
  }

  /** Two messages in a row, the one conditional. */
  lemma SaidBoth(l: Link, a: seq<Kind>, b: seq<Kind>)
    ensures l.Do(Say(a + b)) == l.Do(Say(a)).Do(Say(b))
  {
    hide Messages;
    MessagesAppend(a, b);
    assert l.transcript + (a + b) == l.transcript + a + b;
    assert l.outbox + (Messages(a) + Messages(b)) == l.outbox + Messages(a) + Messages(b);
  }

  lemma SaidOne(l: Link, kind: Kind)
    ensures l.Do(Say([kind])) == l.(transcript := l.transcript + [kind], outbox := l.outbox + [Handshake(kind, NoMac)])
  {
    MessagesOne(kind);
  }

  lemma SaidNothing(l: Link)
    ensures l.Do(Say([])) == l
  {
    assert l.transcript + [] == l.transcript && l.outbox + [] == l.outbox;
  }

  /** In a full handshake of TLS 1.2, past this state, and with a client certificate. */
  predicate Proven(h: Hs, state: State) {
    P.Past(h, state) && h.terms.peerCert
  }

  lemma ProvedWithin(x: Server, os: seq<Oracle>, used: nat, state: State)
    requires used <= |os| && PhaseOk(x) && (state.VerifyClientCertificate? || state.ReadClientCertificateVerify?)
    ensures Proven(After(Step, x, Turns(os[0..used])).hs, state) && !Proven(x.hs, state) ==>
              exists i: nat :: P.ProofTurn(x, Turns(os), state, i)
  {
    hide Step, PhaseOk, P.Past;
    if Proven(After(Step, x, Turns(os[0..used])).hs, state) && !Proven(x.hs, state) {
      var i := P.ProofWasMade(x, Turns(os[0..used]), state);
      assert Turns(os[0..used])[..i] == Turns(os)[..i];
      assert P.ProofTurn(x, Turns(os), state, i);
    }
  }

  /** SSL_HANDSHAKE on the server's side. Each state function has the environment's answer for its turn. */
  class ServerHandshake {
    const cfg: Config
    const conn: Connection
    var state: State
    var terms: Terms
    var wait: Wait

    ghost function Here(): Hs
      reads this
    {
      Hs(cfg, state, terms)
    }

    ghost function View(): Server
      reads this, conn
    {
      Server(Here(), wait, conn.View())
    }

    /** The call did `e` and returned what to wait for. */
    twostate predicate Did(ret: Wait, e: Effect)
      requires old(conn.View()).CanDo(e.act)
      reads this, conn
    {
      state == e.state && terms == e.terms && ret == e.wait && conn.View() == old(conn.View()).Do(e.act)
    }

    constructor (cfg: Config)
      ensures View() == Start(cfg) && PhaseOk(View()) && fresh(conn)
    {
      this.cfg := cfg;
      conn := new Connection(true);
      state, wait := StartAccept, Ok;
      terms := Terms(false, false, false, false, false, false, false, false);
    }

    /** do_start_accept. */
    method DoStartAccept() returns (ret: Wait)
      modifies this`state
      ensures Did(ret, old(Here()).Go(ReadClientHello))
    {
      state := ReadClientHello;
      ret := Ok;
    }

    /** do_read_client_hello. */
    method DoReadClientHello(o: Oracle) returns (ret: Wait)
      modifies this`state, this`terms
      ensures Did(ret, old(Here()).DoReadClientHello(old(conn.View()).Peek(), o))
    {
      var msg := conn.GetMessage();
      if msg.None? {
        return AwaitMessage;
      }
      if !msg.value.ClientHello? {
        return Error;
      }
      if o.pending {
        return Pending;
      }
      if o.fails {
        return Error;
      }
      terms := terms.(channelId := cfg.channelIdAsked);
      state := SelectCertificate;
      ret := Ok;
    }

    /** do_select_certificate. */
    method DoSelectCertificate(o: Oracle) returns (ret: Wait)
      modifies this`state, this`terms
      ensures Did(ret, old(Here()).DoSelectCertificate(old(conn.View()).Peek(), o))
    {
      var msg := conn.GetMessage();
      if msg.None? {
        return AwaitMessage;
      }
      if o.fails {
        return Error;
      }
      if o.pending {
        return Pending;
      }
      if cfg.tls13 {
        terms := terms.(tls13 := true);
        state := Tls13;
        return Ok;
      }
      state := SelectParameters;
      ret := Ok;
    }

    /** do_tls13. */
    method DoTls13(o: Oracle) returns (ret: Wait)
      modifies this`state
      ensures Did(ret, old(Here()).DoTls13(o))
    {
      if o.fails {
        return Error;
      }
      if o.pending {
        return Pending;
      }
      state := FinishServerHandshake;
      ret := Ok;
    }

    /** do_select_parameters. */
    method DoSelectParameters(o: Oracle) returns (ret: Wait)
      modifies this`state, this`terms, conn
      ensures Did(ret, old(Here()).DoSelectParameters(old(conn.View()).Peek(), o))
    {
      var msg := conn.GetMessage();
      if msg.None? {
        return AwaitMessage;
      }
      if !msg.value.ClientHello? || o.fails {
        return Error;
      }
      if o.pending {
        return Pending;
      }
      if msg.value.session && cfg.knows {
        terms := terms.(session := true, ticketExpected := cfg.renew, certRequest := false);
      } else {
        var certRequest := cfg.verifyPeer;
        if cfg.ifNoObc && terms.channelId {
          certRequest := false;
        }
        if !cfg.cipher.certAuth {
          certRequest := false;
        }
        terms := terms.(session := false, ticketExpected := cfg.tickets, certRequest := certRequest);
      }
      conn.HashMessage(msg.value);
      conn.NextMessage();
      state := SendServerHello;
      ret := Ok;
    }

    /** What do_send_server_hello and the extensions it writes settle about Channel ID and stapling. */
    method SettleExtensions()
      modifies this`terms
      ensures terms == old(terms).(
                channelId := old(terms).channelId && cfg.cipher.ecdhe && (old(terms).session ==> cfg.originalHash),
                statusExpected := cfg.ocsp && !old(terms).session && cfg.cipher.certAuth)
    {
      var channelId := terms.channelId;
      if channelId && !cfg.cipher.ecdhe {
        channelId := false;
      }
      if terms.session && !cfg.originalHash {
        channelId := false;
      }
      terms := terms.(channelId := channelId, statusExpected := cfg.ocsp && !terms.session && cfg.cipher.certAuth);
    }

    /** do_send_server_hello. */
    method DoSendServerHello(o: Oracle) returns (ret: Wait)
      modifies this`state, this`terms, conn
      ensures Did(ret, old(Here()).DoSendServerHello(o))
    {
      if o.fails {
        return Error;
      }
      SettleExtensions();
      hide Link.Do;
      var hello := ServerHello(Hello(false, terms.session, cfg.cipher, terms.statusExpected, terms.ticketExpected,
                                     cfg.npn,
                                     terms.channelId));
      SaidOne(conn.View(), hello);
      conn.AddMessage(hello, NoMac);
      state := if terms.session then SendServerFinished else SendServerCertificate;
      ret := Ok;
    }

    /** do_send_server_certificate. */
    method DoSendServerCertificate(o: Oracle) returns (ret: Wait)
      modifies this`state, this`terms, conn
      ensures Did(ret, old(Here()).DoSendServerCertificate(o))
    {
      if o.fails {
        return Error;
      }
      hide Messages;
      ghost var start := conn.View();
      NoMessages();
      MessagesOne(Certificate(false));
      MessagesOne(CertificateStatus);
      if cfg.cipher.certAuth {
        conn.AddMessage(Certificate(false), NoMac);
        ghost var middle := conn.View();
        if terms.statusExpected {
          conn.AddMessage(CertificateStatus, NoMac);
        } else {
          SaidNothing(middle);
        }
        SaidBoth(start, [Certificate(false)], When(terms.statusExpected, CertificateStatus));
        assert middle == start.Do(Say([Certificate(false)]));
        assert conn.View() == middle.Do(Say(When(terms.statusExpected, CertificateStatus)));
      } else {
        SaidNothing(start);
      }
      terms := terms.(hasParams := cfg.cipher.ecdhe || (!cfg.cipher.certAuth && cfg.pskHint));
      state := SendServerKeyExchange;
      ret := Ok;
    }

    /** do_send_server_key_exchange. */
    method DoSendServerKeyExchange(o: Oracle) returns (ret: Wait)
      modifies this`state, this`terms, conn
      ensures Did(ret, old(Here()).DoSendServerKeyExchange(o))
    {
      if !terms.hasParams {
        state := SendServerHelloDone;
        return Ok;
      }
      if o.fails {
        return Error;
      }
      if cfg.cipher.certAuth && o.pending {
        return Pending;
      }
      MessagesOne(ServerKeyExchange);
      conn.AddMessage(ServerKeyExchange, NoMac);
      terms := terms.(hasParams := false);
      state := SendServerHelloDone;
      ret := Ok;
    }

    /** do_send_server_hello_done. */
    method DoSendServerHelloDone(o: Oracle) returns (ret: Wait)
      modifies this`state, conn
      ensures Did(ret, old(Here()).DoSendServerHelloDone(o))
    {
      if o.fails {
        return Error;
      }
      hide Messages;
      ghost var start := conn.View();
      MessagesOne(CertificateRequest);
      MessagesOne(ServerHelloDone);
      if terms.certRequest {
        conn.AddMessage(CertificateRequest, NoMac);
      } else {
        NoMessages();
        SaidNothing(start);
      }
      ghost var middle := conn.View();
      conn.AddMessage(ServerHelloDone, NoMac);
      SaidBoth(start, When(terms.certRequest, CertificateRequest), [ServerHelloDone]);
      assert middle == start.Do(Say(When(terms.certRequest, CertificateRequest)));
      assert conn.View() == middle.Do(Say([ServerHelloDone]));
      state := ReadClientCertificate;
      ret := Flush;
    }

    /** do_read_client_certificate. */
    method DoReadClientCertificate(o: Oracle) returns (ret: Wait)
      modifies this`state, this`terms, conn
      ensures Did(ret, old(Here()).DoReadClientCertificate(old(conn.View()).Peek(), o))
    {
      if !terms.certRequest {
        state := VerifyClientCertificate;
        return Ok;
      }
      var msg := conn.GetMessage();
      if msg.None? {
        return AwaitMessage;
      }
      if !msg.value.Certificate? || o.fails {
        return Error;
      }
      if msg.value.empty && cfg.failIfNoPeerCert {
        return Error;
      }
      conn.HashMessage(msg.value);
      terms := terms.(peerCert := !msg.value.empty);
      conn.NextMessage();
      state := VerifyClientCertificate;
      ret := Ok;
    }

    /** do_verify_client_certificate. */
    method DoVerifyClientCertificate(o: Oracle) returns (ret: Wait)
      modifies this`state
      ensures Did(ret, old(Here()).DoVerifyClientCertificate(o))
    {
      if terms.peerCert {
        if o.fails {
          return Error;
        }
        if o.pending {
          return Pending;
        }
      }
      state := ReadClientKeyExchange;
      ret := Ok;
    }

    /** do_read_client_key_exchange. */
    method DoReadClientKeyExchange(o: Oracle) returns (ret: Wait)
      modifies this`state, conn
      ensures Did(ret, old(Here()).DoReadClientKeyExchange(old(conn.View()).Peek(), o))
    {
      var msg := conn.GetMessage();
      if msg.None? {
        return AwaitMessage;
      }
      if msg.value != ClientKeyExchange || o.fails {
        return Error;
      }
      if cfg.cipher.certAuth && !cfg.cipher.ecdhe && o.pending {
        return Pending;
      }
      conn.HashMessage(msg.value);
      conn.NextMessage();
      state := ReadClientCertificateVerify;
      ret := Ok;
    }

    /** do_read_client_certificate_verify. */
    method DoReadClientCertificateVerify(o: Oracle) returns (ret: Wait)
      modifies this`state, conn
      ensures Did(ret, old(Here()).DoReadClientCertificateVerify(old(conn.View()).Peek(), o))
    {
      if !terms.peerCert {
        state := ReadChangeCipherSpec;
        return Ok;
      }
      var msg := conn.GetMessage();
      if msg.None? {
        return AwaitMessage;
      }
      if msg.value != CertificateVerify || o.fails {
        return Error;
      }
      conn.HashMessage(msg.value);
      conn.NextMessage();
      state := ReadChangeCipherSpec;
      ret := Ok;
    }

    /** do_read_change_cipher_spec. */
    method DoReadChangeCipherSpec() returns (ret: Wait)
      modifies this`state
      ensures Did(ret, old(Here()).DoReadChangeCipherSpec())
    {
      state := ProcessChangeCipherSpec;
      ret := AwaitCcs;
    }

    /** do_process_change_cipher_spec. */
    method DoProcessChangeCipherSpec(o: Oracle) returns (ret: Wait)
      modifies this`state, conn
      ensures Did(ret, old(Here()).DoProcessChangeCipherSpec(o))
    {
      if o.fails {
        return Error;
      }
      conn.readCipher := true;
      state := ReadNextProto;
      ret := Ok;
    }

    /** do_read_next_proto. */
    method DoReadNextProto(o: Oracle) returns (ret: Wait)
      modifies this`state, conn
      ensures Did(ret, old(Here()).DoReadNextProto(old(conn.View()).Peek(), o))
    {
      if !cfg.npn {
        state := ReadChannelId;
        return Ok;
      }
      var msg := conn.GetMessage();
      if msg.None? {
        return AwaitMessage;
      }
      if msg.value != NextProto || o.fails {
        return Error;
      }
      conn.HashMessage(msg.value);
      conn.NextMessage();
      state := ReadChannelId;
      ret := Ok;
    }

    /** do_read_channel_id. */
    method DoReadChannelId(o: Oracle) returns (ret: Wait)
      modifies this`state, conn
      ensures Did(ret, old(Here()).DoReadChannelId(old(conn.View()).Peek(), o))
    {
      if !terms.channelId {
        state := ReadClientFinished;
        return Ok;
      }
      var msg := conn.GetMessage();
      if msg.None? {
        return AwaitMessage;
      }
      if msg.value != ChannelId || o.fails {
        return Error;
      }
      conn.HashMessage(msg.value);
      conn.NextMessage();
      state := ReadClientFinished;
      ret := Ok;
    }

    /** do_read_client_finished. */
    method DoReadClientFinished(o: Oracle) returns (ret: Wait)
      modifies this`state, conn
      ensures Did(ret, old(Here()).DoReadClientFinished(old(conn.View()).Peek(), old(conn.View()).FinishedChecks(), o))
    {
      ret := conn.GetFinished();
      if ret != Ok {
        return;
      }
      state := if terms.session then FinishServerHandshake else SendServerFinished;
      if !terms.session && terms.channelId && o.fails {
        ret := Error;
      }
    }

    /** do_send_server_finished. */
    method DoSendServerFinished(o: Oracle) returns (ret: Wait)
      modifies this`state, conn
      ensures Did(ret, old(Here()).DoSendServerFinished(o))
    {
      if o.fails {
        return Error;
      }
      hide Messages, Link.Do;
      ghost var ticket := When(terms.ticketExpected, NewSessionTicket(cfg.emptyTicket));
      FinishedFlight(conn.View(), ticket);
      NoMessages();
      MessagesOne(NewSessionTicket(cfg.emptyTicket));
      if terms.ticketExpected {
        conn.AddMessage(NewSessionTicket(cfg.emptyTicket), NoMac);
      }
      assert conn.transcript == old(conn.transcript) + ticket && conn.outbox == old(conn.outbox) + Messages(ticket);
      conn.ChangeWriteCipher();
      conn.SendFinished();
      state := if terms.session then ReadChangeCipherSpec else FinishServerHandshake;
      ret := Flush;
    }

    /** do_finish_server_handshake. */
    method DoFinishServerHandshake() returns (ret: Wait)
      modifies this`state
      ensures Did(ret, old(Here()).Go(Done))
    {
      state := Done;
      ret := Ok;
    }

    method DoNothing() returns (ret: Wait)
      ensures Did(ret, old(Here()).Stay(Ok))
    {
      ret := Ok;
    }

    /** The switch in ssl_server_handshake. */
    method RunState(o: Oracle) returns (ret: Wait)
      modifies this`state, this`terms, conn
      ensures Did(ret, old(Here()).Run(old(conn.View()).Peek(), old(conn.View()).FinishedChecks(), o))
    {
      hide Did, Hs.DoReadClientHello, Hs.DoSelectCertificate, Hs.DoTls13, Hs.DoSelectParameters,
           Hs.DoSendServerHello, Hs.DoSendServerCertificate, Hs.DoSendServerKeyExchange,
           Hs.DoSendServerHelloDone, Hs.DoReadClientCertificate, Hs.DoVerifyClientCertificate,
           Hs.DoReadClientKeyExchange, Hs.DoReadClientCertificateVerify, Hs.DoReadChangeCipherSpec,
           Hs.DoProcessChangeCipherSpec, Hs.DoReadNextProto, Hs.DoReadChannelId, Hs.DoReadClientFinished,
           Hs.DoSendServerFinished;
      match state
      case StartAccept => ret := DoStartAccept();
      case ReadClientHello => ret := DoReadClientHello(o);
      case SelectCertificate => ret := DoSelectCertificate(o);
      case Tls13 => ret := DoTls13(o);
      case SelectParameters => ret := DoSelectParameters(o);
      case SendServerHello => ret := DoSendServerHello(o);
      case SendServerCertificate => ret := DoSendServerCertificate(o);
      case SendServerKeyExchange => ret := DoSendServerKeyExchange(o);
      case SendServerHelloDone => ret := DoSendServerHelloDone(o);
      case ReadClientCertificate => ret := DoReadClientCertificate(o);
      case VerifyClientCertificate => ret := DoVerifyClientCertificate(o);
      case ReadClientKeyExchange => ret := DoReadClientKeyExchange(o);
      case ReadClientCertificateVerify => ret := DoReadClientCertificateVerify(o);
      case ReadChangeCipherSpec => ret := DoReadChangeCipherSpec();
      case ProcessChangeCipherSpec => ret := DoProcessChangeCipherSpec(o);
      case ReadNextProto => ret := DoReadNextProto(o);
      case ReadChannelId => ret := DoReadChannelId(o);
      case ReadClientFinished => ret := DoReadClientFinished(o);
      case SendServerFinished => ret := DoSendServerFinished(o);
      case FinishServerHandshake => ret := DoFinishServerHandshake();
      case Done => ret := DoNothing();
    }

    /** ssl_server_handshake: runs states until one has to wait, or the last is done. */
    method RunStates(os: seq<Oracle>, from: nat) returns (used: nat)
      requires wait == Ok && from <= |os| && PhaseOk(View())
      modifies this, conn
      ensures from <= used <= |os| && View() == After(Step, old(View()), Turns(os[from..used]))
      ensures used == |os| || wait != Ok || state == Done
      ensures Sound()
    {
      hide Step, Phase, Rank;
      used := from;
      ghost var start := View();
      assert Turns(os[from..from]) == [];
      while used < |os| && wait == Ok && state != Done
        invariant from <= used <= |os| && View() == After(Step, start, Turns(os[from..used]))
        invariant Sound()
      {
        OneTurnMore(Step, start, os, from, used);
        RunOnce(os[used]);
        used := used + 1;
      }
      DoneIsFinished(View());
    }

    /** The machine is in phase, and its rank has not risen. */
    twostate predicate Sound()
      reads this, conn
    {
      PhaseOk(View()) && Rank(state, terms.session) <= old(Rank(state, terms.session))
    }

    method RunOnce(o: Oracle)
      requires wait == Ok && PhaseOk(View())
      modifies this, conn
      ensures View() == Step(old(View()), Run(o))
      ensures Sound()
    {
      TurnAdvances(View(), o);
      hide Hs.Run, Link.Do, Phase, Rank;
      wait := RunState(o);
    }

    /** ssl_run_handshake: resolves waits and runs states in alternation, until the environment has no more answers
        to give or the machine is done or in error. Whatever the peer sends, the machine stays in phase and its rank
        never rises; and if it is done without TLS 1.3, both ciphers are installed, the peer's Finished was accepted
        and its own was sent, each once. It does not get past a client certificate that it insists on and that is not
        there; and with one, it gets past the verification, and past its proof, only by making them. */
    method RunHandshake(os: seq<Oracle>)
      requires PhaseOk(View())
      modifies this, conn
      ensures exists used: nat :: used <= |os| && View() == After(Step, old(View()), Turns(os[0..used]))
                                  && (used == |os| || wait == Error || (state == Done && wait == Ok))
      ensures Sound()
      ensures state == Done && !terms.tls13 ==>
                conn.readCipher && conn.writeCipher && conn.sent == 1 && conn.accepted == 1
      ensures old(P.Insists(Here())) ==> P.Insists(Here())
      ensures Proven(Here(), VerifyClientCertificate) && !old(Proven(Here(), VerifyClientCertificate)) ==>
                exists i: nat :: P.ProofTurn(old(View()), Turns(os), VerifyClientCertificate, i)
      ensures Proven(Here(), ReadClientCertificateVerify) && !old(Proven(Here(), ReadClientCertificateVerify)) ==>
                exists i: nat :: P.ProofTurn(old(View()), Turns(os), ReadClientCertificateVerify, i)
    {
      hide Step, Phase, Rank, P.Insists, Proven, P.ProofTurn;
      var used := 0;
      ghost var start := View();
      assert Turns(os[0..0]) == [];
      while used < |os| && wait != Error && !(state == Done && wait == Ok)
        invariant used <= |os| && View() == After(Step, start, Turns(os[0..used]))
        invariant Sound()
        decreases |os| - used
      {
        if wait != Ok {
          OneTurnMore(Step, start, os, 0, used);
          ResolveWait(os[used]);
          used := used + 1;
        } else {
          ghost var before := used;
          used := RunStates(os, used);
          TurnsAppend(Step, start, os, 0, before, used);
        }
      }
      DoneIsFinished(View());
      if P.Insists(start.hs) {
        P.AlwaysInsists(start, Turns(os[0..used]));
      }
      ProvedWithin(start, os, used, VerifyClientCertificate);
      ProvedWithin(start, os, used, ReadClientCertificateVerify);
    }

    method ResolveWait(o: Oracle)
      requires wait != Ok && PhaseOk(View())
      modifies this`wait, conn
      ensures View() == Step(old(View()), Run(o))
      ensures Sound()
    {
      TurnAdvances(View(), o);
      hide Link.Resolve, Phase, Rank;
      wait := conn.Resolve(wait, o.flushes);
    }
  }

  lemma DoneIsFinished(x: Server)
    requires PhaseOk(x)
    ensures x.hs.state == Done && !x.hs.terms.tls13 ==> x.link.progress == Progress(true, true, 1, 1)
  {
  }
}
