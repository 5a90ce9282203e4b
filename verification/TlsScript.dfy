/** The handshake as both sides are meant to play it (RFC 5246 section 7.3, RFC 5077 section 3.3).

    Twenty slots, in the order of the wire, cover full and resumed handshakes alike; the settings say which are
    filled. */
module TlsScript {
  import opened TlsMessages
  import C = TlsClient
  import S = TlsServer

  const CH: nat := 0
  const SH: nat := 1
  const EARLY_TICKET: nat := 2
  const EARLY_CCS: nat := 3
  const EARLY_FINISHED: nat := 4
  const CERT: nat := 5
  const STATUS: nat := 6
  const SKE: nat := 7
  const CERT_REQUEST: nat := 8
  const HELLO_DONE: nat := 9
  const CLIENT_CERT: nat := 10
  const CKE: nat := 11
  const CERT_VERIFY: nat := 12
  const CLIENT_CCS: nat := 13
  const NEXT_PROTO: nat := 14
  const CHANNEL_ID: nat := 15
  const CLIENT_FINISHED: nat := 16
  const TICKET: nat := 17
  const SERVER_CCS: nat := 18
  const SERVER_FINISHED: nat := 19
  const END: nat := 20

  /** What the two sides bring. */
  datatype Setting = Setting(client: C.Config, server: S.Config) {
    predicate Resumed() {
      client.session && server.knows
    }

    predicate Ticket() {
      if Resumed() then server.renew else server.tickets
    }

    predicate ChannelId() {
      server.channelIdAsked && server.cipher.ecdhe && (Resumed() ==> server.originalHash)
    }

    predicate Status() {
      server.ocsp && !Resumed() && server.cipher.certAuth
    }

    predicate CertRequested() {
      !Resumed() && server.verifyPeer && !(server.ifNoObc && server.channelIdAsked) && server.cipher.certAuth
    }

    predicate HasParams() {
      server.cipher.ecdhe || (!server.cipher.certAuth && server.pskHint)
    }

    /** TLS 1.2 is spoken, and a server that insists on a client certificate gets one. */
    predicate Agreed() {
      !server.tls13 && (CertRequested() && server.failIfNoPeerCert ==> client.hasCert)
    }

    /** Which slots are filled. */
    predicate Present(i: nat) {
      var full := !Resumed();
      if i < EARLY_TICKET then true
      else if i == EARLY_TICKET then Resumed() && Ticket()
      else if i == EARLY_CCS || i == EARLY_FINISHED then Resumed()
      else if i == CERT then full && server.cipher.certAuth
      else if i == STATUS then Status()
      else if i == SKE then full && HasParams()
      else if i == CERT_REQUEST || i == CLIENT_CERT then CertRequested()
      else if i == HELLO_DONE || i == CKE then full
      else if i == CERT_VERIFY then CertRequested() && client.hasCert
      else if i == CLIENT_CCS || i == CLIENT_FINISHED then true
      else if i == NEXT_PROTO then server.npn
      else if i == CHANNEL_ID then ChannelId()
      else if i == TICKET then full && Ticket()
      else i < END && full
    }

    function ServerHello(): Kind {
      TlsMessages.ServerHello(
        Hello(false, Resumed(), server.cipher, Status(), Ticket(), server.npn, ChannelId()))
    }

    function KindAt(i: nat): Kind {
      if i == CH then ClientHello(client.session)
      else if i == SH then ServerHello()
      else if i == EARLY_TICKET || i == TICKET then NewSessionTicket(server.emptyTicket)
      else if i == CERT then Certificate(false)
      else if i == STATUS then CertificateStatus
      else if i == SKE then ServerKeyExchange
      else if i == CERT_REQUEST then CertificateRequest
      else if i == HELLO_DONE then ServerHelloDone
      else if i == CLIENT_CERT then Certificate(!client.hasCert)
      else if i == CKE then ClientKeyExchange
      else if i == CERT_VERIFY then CertificateVerify
      else if i == NEXT_PROTO then NextProto
      else if i == CHANNEL_ID then TlsMessages.ChannelId
      else Finished
    }

    /** The transcript before slot n. */
    function Hashed(n: nat): seq<Kind> {
      if n == 0 then [] else Hashed(n - 1) + Said(n - 1)
    }

    function Said(i: nat): seq<Kind> {
      if Present(i) && !IsCcs(i) then [KindAt(i)] else []
    }

    function ItemAt(i: nat): Item {
      if IsCcs(i) then Ccs
      else Handshake(KindAt(i), if KindAt(i) == Finished then FinishedMac(ByServer(i), Hashed(i)) else NoMac)
    }

    /** What one side sends in slots a up to but not including b. */
    function Wire(server: bool, a: nat, b: nat): seq<Item>
      decreases b
    {
      if a >= b then [] else Wire(server, a, b - 1) + Sends(server, b - 1)
    }

    function Sends(server: bool, i: nat): seq<Item> {
      if Present(i) && ByServer(i) == server then [ItemAt(i)] else []
    }

    ghost predicate Quiet(a: nat, b: nat) {
      forall i: nat :: a <= i < b ==> !Present(i)
    }

    /** Nothing in these slots comes from that side. */
    ghost predicate Silent(server: bool, a: nat, b: nat) {
      forall i: nat :: a <= i < b && Present(i) ==> ByServer(i) != server
    }

    /** The next filled slot at or after p. */
    ghost predicate NextIs(p: nat, q: nat) {
      p <= q && Present(q) && Quiet(p, q)
    }
  }

  predicate IsCcs(i: nat) {
    i == EARLY_CCS || i == CLIENT_CCS || i == SERVER_CCS
  }

  predicate ByServer(i: nat) {
    SH <= i <= HELLO_DONE || i >= TICKET
  }

  lemma {:induction false} WireFront(st: Setting, server: bool, a: nat, b: nat)
    requires a < b
    ensures st.Wire(server, a, b) == st.Sends(server, a) + st.Wire(server, a + 1, b)
    decreases b
  {
    hide Setting.Sends;
    if a + 1 >= b {
    } else {
      WireFront(st, server, a, b - 1);
    }
  }

  lemma {:induction false} WireSplit(st: Setting, server: bool, a: nat, m: nat, b: nat)
    requires a <= m <= b
    ensures st.Wire(server, a, b) == st.Wire(server, a, m) + st.Wire(server, m, b)
    decreases b
  {
    hide Setting.Sends;
    if m >= b {
    } else {
      WireSplit(st, server, a, m, b - 1);
    }
  }

  lemma {:induction false} WireSilent(st: Setting, server: bool, a: nat, b: nat)
    requires st.Silent(server, a, b)
    ensures st.Wire(server, a, b) == []
    decreases b
  {
    if a >= b {
    } else {
      WireSilent(st, server, a, b - 1);
      assert !(st.Present(b - 1) && ByServer(b - 1) == server);
    }
  }

  lemma {:induction false} HashedQuiet(st: Setting, a: nat, b: nat)
    requires a <= b && st.Quiet(a, b)
    ensures st.Hashed(b) == st.Hashed(a)
    decreases b
  {
    if a >= b {
    } else {
      HashedQuiet(st, a, b - 1);
      assert !st.Present(b - 1);
    }
  }

  /** What one side sends in [p, b) starts with the item in the next filled slot, if that is its own. */
  lemma WireHead(st: Setting, server: bool, p: nat, q: nat, b: nat)
    requires st.NextIs(p, q) && ByServer(q) == server
    ensures if q < b then st.Wire(server, p, b) == [st.ItemAt(q)] + st.Wire(server, q + 1, b)
            else st.Wire(server, p, b) == []
  {
    if q < b {
      assert st.Silent(server, p, q);
      WireSplit(st, server, p, q, b);
      WireSilent(st, server, p, q);
      WireFront(st, server, q, b);
    } else {
      assert st.Silent(server, p, b);
      WireSilent(st, server, p, b);
    }
  }
}
