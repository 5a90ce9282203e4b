/** ssl_client_handshake in place: the state functions, the loop over them, and ssl_run_handshake. */
module TlsClientMachine {
  import opened Wrappers
  import opened TlsMessages
  import opened TlsRuns
  import opened TlsConnection
  import opened TlsClient
  import P = TlsClientPeer

  /** The last flight, put together message by message. */
  lemma FinishedFlight(l: Link, a: seq<Kind>, b: seq<Kind>)
    ensures var l' := l.Do(Finish([], a + b));
            && l'.inbox == l.inbox
            && l'.progress == l.progress.(writeCipher := true, sent := l.progress.sent + 1)
            && l'.transcript == l.transcript + a + b + [Finished]
            && l'.outbox == l.outbox + [Ccs] + Messages(a) + Messages(b)
                            + [Handshake(Finished, FinishedMac(l.server, l.transcript + a + b))]
  {
    hide Messages;
    NoMessages();
    MessagesAppend(a, b);
    assert l.transcript + [] + (a + b) == l.transcript + a + b;
    assert l.outbox + [] + [Ccs] + (Messages(a) + Messages(b)) == l.outbox + [Ccs] + Messages(a) + Messages(b);
  }

  /** SSL_HANDSHAKE on the client's side. Each state function has the environment's answer for its turn. */
  class ClientHandshake {
    const cfg: Config
    const conn: Connection
    var state: State
    var terms: Terms
    var wait: Wait

    ghost function Here(): Hs
      reads this
    {
      Hs(cfg, state, terms)
    }

    ghost function View(): Client
      reads this, conn
    {
      Client(Here(), wait, conn.View())
    }

    /** The call did `e` and returned what to wait for. */
    twostate predicate Did(ret: Wait, e: Effect)
      requires old(conn.View()).CanDo(e.act)
      reads this, conn
    {
      state == e.state && terms == e.terms && ret == e.wait && conn.View() == old(conn.View()).Do(e.act)
    }

    constructor (cfg: Config)
      ensures View() == Start(cfg) && PhaseOk(View()) && fresh(conn)
    {
      this.cfg := cfg;
      conn := new Connection(false);
      state, wait := StartConnect, Ok;
      terms := Terms(false, Cipher(false, false), false, false, false, false, false, false);
    }

    /** do_start_connect. */
    method DoStartConnect(o: Oracle) returns (ret: Wait)
      modifies this`state, this`terms, conn
      ensures Did(ret, old(Here()).DoStartConnect(o))
    {
      if o.fails {
        return Error;
      }
      MessagesOne(ClientHello(cfg.session));
      terms := terms.(session := cfg.session);
      conn.AddMessage(ClientHello(cfg.session), NoMac);
      state := EnterEarlyData;
      ret := Flush;
    }

    /** do_enter_early_data. */
    method DoEnterEarlyData() returns (ret: Wait)
      modifies this`state
      ensures Did(ret, old(Here()).DoEnterEarlyData())
    {
      state := if cfg.dtls then ReadHelloVerifyRequest else ReadServerHello;
      ret := Ok;
    }

    /** do_read_hello_verify_request. */
    method DoReadHelloVerifyRequest(o: Oracle) returns (ret: Wait)
      modifies this`state, conn
      ensures Did(ret, old(Here()).DoReadHelloVerifyRequest(old(conn.View()).Peek(), o))
    {
      var msg := conn.GetMessage();
      if msg.None? {
        return AwaitMessage;
      }
      if msg.value != HelloVerifyRequest {
        state := ReadServerHello;
        return Ok;
      }
      if o.fails {
        return Error;
      }
      conn.NextMessage();
      conn.transcript := [];
      conn.AddMessage(ClientHello(cfg.session), NoMac);
      state := ReadServerHello;
      ret := Flush;
    }

    /** do_read_server_hello. */
    method DoReadServerHello(o: Oracle) returns (ret: Wait)
      modifies this`state, this`terms, conn
      ensures Did(ret, old(Here()).DoReadServerHello(old(conn.View()).Peek(), o))
    {
      var msg := conn.GetMessage();
      if msg.None? {
        return AwaitServerHello;
      }
      if !msg.value.ServerHello? || o.fails {
        return Error;
      }
      var hello := msg.value.hello;
      if hello.tls13 {
        terms := terms.(tls13 := true);
        state := Tls13;
        return Ok;
      }
      if hello.status && !hello.cipher.certAuth {
        return Error;
      }
      var reused := terms.session && hello.echo;
      terms := Terms(reused, hello.cipher, hello.status, hello.ticket, hello.npn, hello.channelId, false, false);
      conn.HashMessage(msg.value);
      conn.NextMessage();
      state := if reused then ReadSessionTicket else ReadServerCertificate;
      ret := Ok;
    }

    /** do_tls13. */
    method DoTls13(o: Oracle) returns (ret: Wait)
      modifies this`state
      ensures Did(ret, old(Here()).DoTls13(o))
    {
      if o.fails {
        return Error;
      }
      if o.pending {
        return Pending;
      }
      state := FinishClientHandshake;
      ret := Ok;
    }

    /** do_read_server_certificate. */
    method DoReadServerCertificate(o: Oracle) returns (ret: Wait)
      modifies this`state, conn
      ensures Did(ret, old(Here()).DoReadServerCertificate(old(conn.View()).Peek(), o))
    {
      if !terms.cipher.certAuth {
        state := ReadCertificateStatus;
        return Ok;
      }
      var msg := conn.GetMessage();
      if msg.None? {
        return AwaitMessage;
      }
      if msg.value != Certificate(false) || o.fails {
        return Error;
      }
      conn.HashMessage(msg.value);
      conn.NextMessage();
      state := ReadCertificateStatus;
      ret := Ok;
    }

    /** do_read_certificate_status. */
    method DoReadCertificateStatus(o: Oracle) returns (ret: Wait)
      modifies this`state, conn
      ensures Did(ret, old(Here()).DoReadCertificateStatus(old(conn.View()).Peek(), o))
    {
      if !terms.statusExpected {
        state := VerifyServerCertificate;
        return Ok;
      }
      var msg := conn.GetMessage();
      if msg.None? {
        return AwaitMessage;
      }
      if msg.value != CertificateStatus {
        state := VerifyServerCertificate;
        return Ok;
      }
      if o.fails {
        return Error;
      }
      conn.HashMessage(msg.value);
      conn.NextMessage();
      state := VerifyServerCertificate;
      ret := Ok;
    }

    /** do_verify_server_certificate. */
    method DoVerifyServerCertificate(o: Oracle) returns (ret: Wait)
      modifies this`state
      ensures Did(ret, old(Here()).DoVerifyServerCertificate(o))
    {
      if !terms.cipher.certAuth {
        state := ReadServerKeyExchange;
        return Ok;
      }
      if o.fails {
        return Error;
      }
      if o.pending {
        return Pending;
      }
      state := ReadServerKeyExchange;
      ret := Ok;
    }

    /** do_read_server_key_exchange. */
    method DoReadServerKeyExchange(o: Oracle) returns (ret: Wait)
      modifies this`state, conn
      ensures Did(ret, old(Here()).DoReadServerKeyExchange(old(conn.View()).Peek(), o))
    {
      var msg := conn.GetMessage();
      if msg.None? {
        return AwaitMessage;
      }
      if msg.value != ServerKeyExchange {
        if terms.cipher.ecdhe {
          return Error;
        }
        state := ReadCertificateRequest;
        return Ok;
      }
      if o.fails || (!terms.cipher.ecdhe && terms.cipher.certAuth) {
        return Error;
      }
      conn.HashMessage(msg.value);
      conn.NextMessage();
      state := ReadCertificateRequest;
      ret := Ok;
    }

    /** do_read_certificate_request. */
    method DoReadCertificateRequest(o: Oracle) returns (ret: Wait)
      modifies this`state, this`terms, conn
      ensures Did(ret, old(Here()).DoReadCertificateRequest(old(conn.View()).Peek(), o))
    {
      if !terms.cipher.certAuth {
        state := ReadServerHelloDone;
        return Ok;
      }
      var msg := conn.GetMessage();
      if msg.None? {
        return AwaitMessage;
      }
      if msg.value == ServerHelloDone {
        state := ReadServerHelloDone;
        return Ok;
      }
      if msg.value != CertificateRequest || o.fails {
        return Error;
      }
      conn.HashMessage(msg.value);
      terms := terms.(certRequest := true);
      conn.NextMessage();
      state := ReadServerHelloDone;
      ret := Ok;
    }

    /** do_read_server_hello_done. */
    method DoReadServerHelloDone(o: Oracle) returns (ret: Wait)
      modifies this`state, conn
      ensures Did(ret, old(Here()).DoReadServerHelloDone(old(conn.View()).Peek(), o))
    {
      var msg := conn.GetMessage();
      if msg.None? {
        return AwaitMessage;
      }
      if msg.value != ServerHelloDone || o.fails {
        return Error;
      }
      conn.HashMessage(msg.value);
      conn.NextMessage();
      state := SendClientCertificate;
      ret := Ok;
    }

    /** do_send_client_certificate. */
    method DoSendClientCertificate(o: Oracle) returns (ret: Wait)
      modifies this`state, conn
      ensures Did(ret, old(Here()).DoSendClientCertificate(o))
    {
      if !terms.certRequest {
        state := SendClientKeyExchange;
        return Ok;
      }
      if o.fails {
        return Error;
      }
      if o.pending {
        return Pending;
      }
      MessagesOne(Certificate(!cfg.hasCert));
      conn.AddMessage(Certificate(!cfg.hasCert), NoMac);
      state := SendClientKeyExchange;
      ret := Ok;
    }

    /** do_send_client_key_exchange. */
    method DoSendClientKeyExchange(o: Oracle) returns (ret: Wait)
      modifies this`state, conn
      ensures Did(ret, old(Here()).DoSendClientKeyExchange(o))
    {
      if o.fails {
        return Error;
      }
      MessagesOne(ClientKeyExchange);
      conn.AddMessage(ClientKeyExchange, NoMac);
      state := SendClientCertificateVerify;
      ret := Ok;
    }

    /** do_send_client_certificate_verify. */
    method DoSendClientCertificateVerify(o: Oracle) returns (ret: Wait)
      modifies this`state, conn
      ensures Did(ret, old(Here()).DoSendClientCertificateVerify(o))
    {
      if !terms.certRequest || !cfg.hasCert {
        state := SendClientFinished;
        return Ok;
      }
      if o.fails {
        return Error;
      }
      if o.pending {
        return Pending;
      }
      MessagesOne(CertificateVerify);
      conn.AddMessage(CertificateVerify, NoMac);
      state := SendClientFinished;
      ret := Ok;
    }

    /** do_send_client_finished. */
    method DoSendClientFinished(o: Oracle) returns (ret: Wait)
      modifies this`state, conn
      ensures Did(ret, old(Here()).DoSendClientFinished(o))
    {
      if terms.channelId && o.pending {
        return Pending;
      }
      if o.fails {
        return Error;
      }
      hide Messages, Link.Do;
      ghost var a, b := if terms.npn then [NextProto] else [], if terms.channelId then [ChannelId] else [];
      FinishedFlight(conn.View(), a, b);
      NoMessages();
      MessagesOne(NextProto);
      MessagesOne(ChannelId);
      conn.ChangeWriteCipher();
      if terms.npn {
        conn.AddMessage(NextProto, NoMac);
      }
      if terms.channelId {
        conn.AddMessage(ChannelId, NoMac);
      }
      assert conn.transcript == old(conn.transcript) + a + b;
      assert conn.outbox == old(conn.outbox) + [Ccs] + Messages(a) + Messages(b);
      conn.SendFinished();
      state := FinishFlight;
      ret := Flush;
    }

    /** do_finish_flight. */
    method DoFinishFlight(o: Oracle) returns (ret: Wait)
      modifies this`state
      ensures Did(ret, old(Here()).DoFinishFlight(o))
    {
      if terms.session {
        state := FinishClientHandshake;
        return Ok;
      }
      if o.fails {
        return Error;
      }
      state := ReadSessionTicket;
      ret := if cfg.falseStart then EarlyReturn else Ok;
    }

    /** do_read_session_ticket. */
    method DoReadSessionTicket(o: Oracle) returns (ret: Wait)
      modifies this`state, this`terms, conn
      ensures Did(ret, old(Here()).DoReadSessionTicket(old(conn.View()).Peek(), o))
    {
      if !terms.ticketExpected {
        state := ProcessChangeCipherSpec;
        return AwaitCcs;
      }
      var msg := conn.GetMessage();
      if msg.None? {
        return AwaitMessage;
      }
      if !msg.value.NewSessionTicket? || o.fails {
        return Error;
      }
      conn.HashMessage(msg.value);
      if msg.value.empty {
        terms := terms.(ticketExpected := false);
      }
      conn.NextMessage();
      state := ProcessChangeCipherSpec;
      ret := AwaitCcs;
    }

    /** do_process_change_cipher_spec. */
    method DoProcessChangeCipherSpec(o: Oracle) returns (ret: Wait)
      modifies this`state, conn
      ensures Did(ret, old(Here()).DoProcessChangeCipherSpec(o))
    {
      if o.fails {
        return Error;
      }
      conn.readCipher := true;
      state := ReadServerFinished;
      ret := Ok;
    }

    /** do_read_server_finished. */
    method DoReadServerFinished() returns (ret: Wait)
      modifies this`state, conn
      ensures Did(ret, old(Here()).DoReadServerFinished(old(conn.View()).Peek(), old(conn.View()).FinishedChecks()))
    {
      ret := conn.GetFinished();
      if ret != Ok {
        return;
      }
      state := if terms.session then SendClientFinished else FinishClientHandshake;
    }

    /** The switch in ssl_client_handshake. */
    method RunState(o: Oracle) returns (ret: Wait)
      modifies this`state, this`terms, conn
      ensures Did(ret, old(Here()).Run(old(conn.View()).Peek(), old(conn.View()).FinishedChecks(), o))
    {
      hide Did, Hs.DoStartConnect, Hs.DoEnterEarlyData, Hs.DoReadHelloVerifyRequest, Hs.DoReadServerHello, Hs.DoTls13,
           Hs.DoReadServerCertificate, Hs.DoReadCertificateStatus, Hs.DoVerifyServerCertificate,
           Hs.DoReadServerKeyExchange,
           Hs.DoReadCertificateRequest, Hs.DoReadServerHelloDone, Hs.DoSendClientCertificate,
           Hs.DoSendClientKeyExchange,
           Hs.DoSendClientCertificateVerify, Hs.DoSendClientFinished, Hs.DoFinishFlight, Hs.DoReadSessionTicket,
           Hs.DoProcessChangeCipherSpec, Hs.DoReadServerFinished;
      match state
      case StartConnect => ret := DoStartConnect(o);
      case EnterEarlyData => ret := DoEnterEarlyData();
      case ReadHelloVerifyRequest => ret := DoReadHelloVerifyRequest(o);
      case ReadServerHello => ret := DoReadServerHello(o);
      case Tls13 => ret := DoTls13(o);
      case ReadServerCertificate => ret := DoReadServerCertificate(o);
      case ReadCertificateStatus => ret := DoReadCertificateStatus(o);
      case VerifyServerCertificate => ret := DoVerifyServerCertificate(o);
      case ReadServerKeyExchange => ret := DoReadServerKeyExchange(o);
      case ReadCertificateRequest => ret := DoReadCertificateRequest(o);
      case ReadServerHelloDone => ret := DoReadServerHelloDone(o);
      case SendClientCertificate => ret := DoSendClientCertificate(o);
      case SendClientKeyExchange => ret := DoSendClientKeyExchange(o);
      case SendClientCertificateVerify => ret := DoSendClientCertificateVerify(o);
      case SendClientFinished => ret := DoSendClientFinished(o);
      case FinishFlight => ret := DoFinishFlight(o);
      case ReadSessionTicket => ret := DoReadSessionTicket(o);
      case ProcessChangeCipherSpec => ret := DoProcessChangeCipherSpec(o);
      case ReadServerFinished => ret := DoReadServerFinished();
      case FinishClientHandshake => ret := DoFinishClientHandshake();
      case Done => ret := DoNothing();
    }

    /** do_finish_client_handshake. */
    method DoFinishClientHandshake() returns (ret: Wait)
      modifies this`state
      ensures Did(ret, old(Here()).Go(Done))
    {
      state := Done;
      ret := Ok;
    }

    method DoNothing() returns (ret: Wait)
      ensures Did(ret, old(Here()).Stay(Ok))
    {
      ret := Ok;
    }

    /** ssl_client_handshake: runs states until one has to wait, or the last is done. */
    method RunStates(os: seq<Oracle>, from: nat) returns (used: nat)
      requires wait == Ok && from <= |os| && PhaseOk(View())
      modifies this, conn
      ensures from <= used <= |os| && View() == After(Step, old(View()), Turns(os[from..used]))
      ensures used == |os| || wait != Ok || state == Done
      ensures Sound()
    {
      hide Step, Phase, Rank;
      used := from;
      ghost var start := View();
      assert Turns(os[from..from]) == [];
      while used < |os| && wait == Ok && state != Done
        invariant from <= used <= |os| && View() == After(Step, start, Turns(os[from..used]))
        invariant Sound()
      {
        OneTurnMore(Step, start, os, from, used);
        RunOnce(os[used]);
        used := used + 1;
      }
      DoneIsFinished(View());
    }

    /** The machine is in phase, and its rank has not risen. */
    twostate predicate Sound()
      reads this, conn
    {
      PhaseOk(View()) && Rank(state, terms.session) <= old(Rank(state, terms.session))
    }

    method RunOnce(o: Oracle)
      requires wait == Ok && PhaseOk(View())
      modifies this, conn
      ensures View() == Step(old(View()), Run(o))
      ensures Sound()
    {
      TurnAdvances(View(), o);
      hide Hs.Run, Link.Do, Phase, Rank;
      wait := RunState(o);
    }

    /** ssl_run_handshake: resolves waits and runs states in alternation, until the environment has no more answers
        to give or the machine is done or in error. Whatever the peer sends, the machine stays in phase and its rank
        never rises; and if it is done without TLS 1.3, both ciphers are installed, the peer's Finished was accepted
        and its own was sent, each once. A call that takes a full handshake past the verification of the server's
        certificate has verified it. */
    method RunHandshake(os: seq<Oracle>)
      requires PhaseOk(View())
      modifies this, conn
      ensures exists used: nat :: used <= |os| && View() == After(Step, old(View()), Turns(os[0..used]))
                                  && (used == |os| || wait == Error || (state == Done && wait == Ok))
      ensures Sound()
      ensures state == Done && !terms.tls13 ==>
                conn.readCipher && conn.writeCipher && conn.sent == 1 && conn.accepted == 1
      ensures P.PastVerify(state, terms) && !old(P.PastVerify(state, terms)) ==>
                exists i: nat :: P.VerifyTurn(old(View()), Turns(os), i)
    {
      hide Step, Phase, Rank, P.PastVerify, P.VerifyTurn;
      var used := 0;
      ghost var start := View();
      assert Turns(os[0..0]) == [];
      while used < |os| && wait != Error && !(state == Done && wait == Ok)
        invariant used <= |os| && View() == After(Step, start, Turns(os[0..used]))
        invariant Sound()
        decreases |os| - used
      {
        if wait != Ok {
          OneTurnMore(Step, start, os, 0, used);
          ResolveWait(os[used]);
          used := used + 1;
        } else {
          ghost var before := used;
          used := RunStates(os, used);
          TurnsAppend(Step, start, os, 0, before, used);
        }
      }
      DoneIsFinished(View());
      if P.PastVerify(state, terms) && !P.PastVerify(start.hs.state, start.hs.terms) {
        ghost var i := P.VerificationPassed(start, Turns(os[0..used]));
        VerifiedWithin(start, os, used, i);
      }
    }

    method ResolveWait(o: Oracle)
      requires wait != Ok && PhaseOk(View())
      modifies this`wait, conn
      ensures View() == Step(old(View()), Run(o))
      ensures Sound()
    {
      TurnAdvances(View(), o);
      hide Link.Resolve, Phase, Rank;
      wait := conn.Resolve(wait, o.flushes);
    }
  }

  lemma VerifiedWithin(x: Client, os: seq<Oracle>, used: nat, i: nat)
    requires used <= |os| && P.VerifyTurn(x, Turns(os[0..used]), i)
    ensures P.VerifyTurn(x, Turns(os), i)
  {
    hide Step;
    assert Turns(os[0..used])[..i] == Turns(os)[..i];
  }

  lemma DoneIsFinished(x: Client)
    requires PhaseOk(x)
    ensures x.hs.state == Done && !x.hs.terms.tls13 ==> x.link.progress == Progress(true, true, 1, 1)
  {
  }
}
