/** What the TLS 1.2 handshake machines exchange, and what both of them do with their connection. */
module TlsMessages {
  import opened Wrappers

  /** certAuth: ssl_cipher_uses_certificate_auth; otherwise the cipher is PSK. ecdhe: the key exchange is ECDHE, so
      ssl_cipher_requires_server_key_exchange. */
  datatype Cipher = Cipher(certAuth: bool, ecdhe: bool)

  /** The parts of a ServerHello that steer the client. */
  datatype Hello = Hello(tls13: bool, echo: bool, cipher: Cipher, status: bool, ticket: bool,
                         npn: bool, channelId: bool)

  datatype Kind =
    | ClientHello(session: bool)
    | HelloVerifyRequest
    | ServerHello(hello: Hello)
    | Certificate(empty: bool)
    | CertificateStatus
    | ServerKeyExchange
    | CertificateRequest
    | ServerHelloDone
    | ClientKeyExchange
    | CertificateVerify
    | NextProto
    | ChannelId
    | NewSessionTicket(empty: bool)
    | Finished

  /** The verify data of a Finished message, symbolically: who computed it, over which transcript. */
  datatype Mac = NoMac | FinishedMac(byServer: bool, transcript: seq<Kind>)

  datatype Item = Ccs | Handshake(kind: Kind, mac: Mac)

  /** enum ssl_hs_wait_t. Pending stands for every wait on an application callback. */
  datatype Wait = Ok | Error | Flush | AwaitServerHello | AwaitMessage | AwaitCcs | Pending | EarlyReturn {
    predicate Reads() {
      AwaitServerHello? || AwaitMessage? || AwaitCcs?
    }
  }

  /** What the environment decides in one turn: whether a callback is not ready, whether a check fails, whether a
      flush goes through. */
  datatype Oracle = Oracle(pending: bool, fails: bool, flushes: bool)

  /** What a state does to the connection before the machine goes on. */
  datatype Act =
    | Nothing
    | Take                                         // ssl_hash_message and next_message
    | TakeFinished                                 // the end of ssl_get_finished
    | Restart(kind: Kind)                          // next_message, transcript.Init, and a message
    | Say(kinds: seq<Kind>)                        // ssl_add_message_cbb for each
    | Finish(before: seq<Kind>, after: seq<Kind>)  // messages, ChangeCipherSpec, messages, ssl_send_finished
    | OpenCipher                                   // tls1_change_cipher_state(hs, evp_aead_open)

  function Messages(kinds: seq<Kind>): seq<Item> {
    if kinds == [] then [] else [Handshake(kinds[0], NoMac)] + Messages(kinds[1..])
  }

  lemma NoMessages()
    ensures Messages([]) == []
  {
  }

  lemma MessagesOne(kind: Kind)
    ensures Messages([kind]) == [Handshake(kind, NoMac)]
  {
    assert [kind][1..] == [];
  }

  lemma {:induction false} MessagesAppend(a: seq<Kind>, b: seq<Kind>)
    ensures Messages(a + b) == Messages(a) + Messages(b)
  {
    if a == [] {
      assert a + b == b;
    } else {
      assert (a + b)[1..] == a[1..] + b;
      MessagesAppend(a[1..], b);
    }
  }

  /** The cipher changes and Finished messages of one side. */
  datatype Progress = Progress(readCipher: bool, writeCipher: bool, sent: nat, accepted: nat)

  /** One side of the connection. */
  datatype Link = Link(
    server: bool,
    inbox: seq<Item>,
    outbox: seq<Item>,       // the pending flight
    transcript: seq<Kind>,
    progress: Progress)
  {
    /** ssl->method->get_message, which only looks. */
    function Peek(): Option<Kind> {
      if inbox != [] && inbox[0].Handshake? then Some(inbox[0].kind) else None
    }

    /** The comparison in ssl_get_finished. */
    predicate FinishedChecks() {
      inbox != [] && inbox[0] == Handshake(Finished, FinishedMac(!server, transcript))
    }

    predicate CanDo(act: Act) {
      act.Take? || act.TakeFinished? || act.Restart? ==> Peek().Some?
    }

    function Do(act: Act): (r: Link)
      requires CanDo(act)
      ensures r.server == server && r.progress == ProgressAfter(act)
    {
      match act
      case Nothing => this
      case Take => this.(transcript := transcript + [inbox[0].kind], inbox := inbox[1..])
      case TakeFinished =>
        this.(transcript := transcript + [inbox[0].kind], inbox := inbox[1..],
              progress := progress.(accepted := progress.accepted + 1))
      case Restart(kind) => this.(inbox := inbox[1..], transcript := [kind],
                                   outbox := outbox + [Handshake(kind, NoMac)])
      case Say(kinds) => this.(transcript := transcript + kinds, outbox := outbox + Messages(kinds))
      case Finish(before, after) =>
        var hashed := transcript + before + after;
        this.(transcript := hashed + [Finished],
              outbox := outbox + Messages(before) + [Ccs] + Messages(after)
                        + [Handshake(Finished, FinishedMac(server, hashed))],
              progress := progress.(writeCipher := true, sent := progress.sent + 1))
      case OpenCipher => this.(progress := progress.(readCipher := true))
    }

    function ProgressAfter(act: Act): Progress {
      match act
      case TakeFinished => progress.(accepted := progress.accepted + 1)
      case Finish(_, _) => progress.(writeCipher := true, sent := progress.sent + 1)
      case OpenCipher => progress.(readCipher := true)
      case _ => progress
    }

    /** The first half of ssl_run_handshake's loop: what becomes of a wait. */
    function Resolve(wait: Wait, flushes: bool): (r: (Link, Wait))
      ensures r.0.server == server && r.0.progress == progress
    {
      if wait.Flush? then
        if flushes then (this.(outbox := []), Ok) else (this, Flush)
      else if wait.Error? then (this, Error)
      else if !wait.Reads() then (this, Ok)
      else if inbox == [] then (this, wait)
      else if wait.AwaitCcs? then
        if inbox[0].Ccs? then (this.(inbox := inbox[1..]), Ok) else (this, Error)
      else (this, if inbox[0].Ccs? then Error else Ok)
    }
  }

  function NewLink(server: bool): Link {
    Link(server, [], [], [], Progress(false, false, 0, 0))
  }
}
