/** What a handshake machine does to its connection, step by step: messages, transcript and ciphers (handshake.cc). */
module TlsConnection {
  import opened Wrappers
  import opened TlsMessages

  class Connection {
    const server: bool
    var inbox: seq<Item>
    var outbox: seq<Item>        // the pending flight
    var transcript: seq<Kind>
    var readCipher: bool
    var writeCipher: bool
    ghost var sent: nat          // Finished messages sent and accepted
    ghost var accepted: nat

    ghost function View(): Link
      reads this
    {
      Link(server, inbox, outbox, transcript, Progress(readCipher, writeCipher, sent, accepted))
    }

    constructor (server: bool)
      ensures View() == NewLink(server)
    {
      this.server := server;
      inbox, outbox, transcript, readCipher, writeCipher, sent, accepted := [], [], [], false, false, 0, 0;
    }

    /** ssl->method->get_message. */
    method GetMessage() returns (msg: Option<Kind>)
      ensures msg == View().Peek()
    {
      msg := if inbox != [] && inbox[0].Handshake? then Some(inbox[0].kind) else None;
    }

    /** ssl_hash_message. */
    method HashMessage(msg: Kind)
      modifies this`transcript
      ensures transcript == old(transcript) + [msg]
    {
      transcript := transcript + [msg];
    }

    /** ssl->method->next_message. */
    method NextMessage()
      requires inbox != []
      modifies this`inbox
      ensures inbox == old(inbox)[1..]
    {
      inbox := inbox[1..];
    }

    /** ssl_add_message_cbb. */
    method AddMessage(kind: Kind, mac: Mac)
      modifies this`outbox, this`transcript
      ensures outbox == old(outbox) + [Handshake(kind, mac)] && transcript == old(transcript) + [kind]
    {
      transcript := transcript + [kind];
      outbox := outbox + [Handshake(kind, mac)];
    }

    /** ssl->method->add_change_cipher_spec, and tls1_change_cipher_state for sealing. */
    method ChangeWriteCipher()
      modifies this`outbox, this`writeCipher
      ensures writeCipher && outbox == old(outbox) + [Ccs]
    {
      outbox := outbox + [Ccs];
      writeCipher := true;
    }

    /** ssl_send_finished. */
    method SendFinished()
      modifies this`outbox, this`transcript, this`sent
      ensures outbox == old(outbox) + [Handshake(Finished, FinishedMac(server, old(transcript)))]
      ensures transcript == old(transcript) + [Finished] && sent == old(sent) + 1
    {
      var mac := FinishedMac(server, transcript);
      AddMessage(Finished, mac);
      sent := sent + 1;
    }

    /** ssl_get_finished. Only the Finished that the other side must send over this very transcript is accepted. */
    method GetFinished() returns (wait: Wait)
      modifies this
      ensures wait == if old(View()).Peek().None? then AwaitMessage
                      else if old(View()).FinishedChecks() then Ok else Error
      ensures View() == if wait == Ok then old(View()).Do(TakeFinished) else old(View())
    {
      var msg := GetMessage();
      if msg.None? {
        return AwaitMessage;
      }
      if msg.value != Finished {
        return Error;
      }
      var expected := FinishedMac(!server, transcript);
      if inbox[0].mac != expected {
        return Error;
      }
      HashMessage(msg.value);
      accepted := accepted + 1;
      NextMessage();
      wait := Ok;
    }

    /** The first half of the loop of ssl_run_handshake. */
    method Resolve(wait: Wait, flushes: bool) returns (wait': Wait)
      modifies this`inbox, this`outbox
      ensures (View(), wait') == old(View()).Resolve(wait, flushes)
    {
      match wait
      case Error => wait' := Error;
      case Flush =>
        if flushes {
          outbox := [];
          wait' := Ok;
        } else {
          wait' := Flush;
        }
      case AwaitCcs =>
        if inbox == [] {
          wait' := wait;
        } else if inbox[0].Ccs? {
          NextMessage();
          wait' := Ok;
        } else {
          wait' := Error;
        }
      case AwaitMessage => wait' := if inbox == [] then wait else if inbox[0].Ccs? then Error else Ok;
      case AwaitServerHello => wait' := if inbox == [] then wait else if inbox[0].Ccs? then Error else Ok;
      case Ok => wait' := Ok;
      case Pending => wait' := Ok;
      case EarlyReturn => wait' := Ok;
    }
  }
}
