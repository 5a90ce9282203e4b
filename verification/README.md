# Verified models of the libraries under GasNow

GasNow is a Swift app over vendored libraries. This project models the parts of those libraries where correctness is
hardest to see, and proves what they are for:

- **DTLS handshake transport** (BoringSSL: `d1_both.cc`, `dtls_record.cc`, `dtls_method.cc`, `d1_pkt.cc`; RFC 6347).
  `DtlsWire` holds the fragment format. `ByteBits` and `Reassembly` are `hm_fragment` with its bit mask, `ReplayWindow`
  the 64-bit window, `DtlsReader` the ring of seven messages and the read epochs. `DtlsWriter` cuts flights into
  records; `FlightTiling`, `FlightLosses`, `RecordNumbers` and `WriterRuns` say what a flight looks like on the wire,
  in one call and over whole runs, `FlightEpochs` in which epoch and under which cipher each of its records leaves, and
  `FlightProgress` that it does go out; `DtlsSender` is the sender in place, with those promises as its contracts.
  `DtlsSystem` joins sender, network and receiver, `DtlsDelivery` shows that a flight that arrives is reassembled, and
  `DtlsAnswers` says what the receiver makes of everything else.
- **nanopb** (`pb_encode.c`, `pb_decode.c`, `pb_common.c`). `PbVarint` and `PbMessage` say what encoding and decoding
  mean; `PbRoundTrip`, `PbLossless`, `PbUnknown`, `PbMerge`, `PbBounds`, `PbWire` and `PbForeign` prove the laws of the
  wire format: what comes back, what is ignored, what a field met again does, that whatever is accepted is within its
  bounds, what a reader without the descriptor sees, and what becomes of forms that only other encoders write.
  `PbEncoder`, `PbIter`, `PbIStream`, `PbRequired` and `PbDecoder` are the C code itself, streams, iterator and bit set
  included, proved to compute just that.
- **TLS 1.2 handshake machines** (`handshake_client.cc`, `handshake_server.cc`, `handshake.cc`; RFC 5246 section 7.3,
  RFC 5077 section 3.3). `TlsMessages`, `TlsClient` and `TlsServer` give the machines as functions; `TlsConnection`,
  `TlsClientMachine` and `TlsServerMachine` are the same machines in place, and `TlsRuns` says what a run of turns is.
  `TlsScript` is the handshake as both sides are meant to play it, in twenty slots; `TlsClientScript`,
  `TlsServerScript` and `TlsJoin` show, state by state, that they do, and `TlsComposition` puts them together.
  `TlsClientPeer` and `TlsServerPeer` are about one side against any peer: what it can have hashed when it is done, and
  that it is not done without the checks it owes.
- **Cipher choice and the RSA premaster** (`handshake_server.cc`, `crypto/internal.h`): `CipherChoice`, `ConstantTime`,
  `RsaPremaster`.
- **Reference counts** (`refcount_c11.c`, `refcount_lock.c`): `Refcount`.

Where the C code changes state in place, a class does, and its methods are tied to functions on values (`View()`,
`Rest()`, `out`); the theorems about runs are about those functions. Two implementations of one thing meet in one
specification: the compare-and-swap and the locked counter, the sizing and the writing stream, the resuming iterator
and a scan from the start.

What is an oracle: AEAD sealing and opening (a sealed record is no longer than its plaintext plus the overhead, what
opens was sealed, and sealing may fail one time and succeed the next), all cryptographic and extension checks of the
handshake, application callbacks, timers (a retransmission may happen at any time) and the outcome of every BIO write
and flush.

Some properties turn out to need a condition, which is stated exactly:

- A flight is written whole by a `send_flight` that succeeds if and only if no sealed record had been dropped before
  the call (`WriterRuns.FlushedFlightIsWhole`). Records are dropped by a sealing error in the middle of a packet,
  which, unlike a failed write, does not roll the cursor back; the call then reports a failure
  (`WriterRuns.OnlyFailureLoses`), but a later flush resumes behind the hole and reports success
  (`WriterRuns.SealErrorLosesMessage`). A caller who retransmits after a failure, or starts a new flight, never meets
  this (`WriterRuns.LossIsReported`).
- With distinct tags, nanopb gives back the very message it encoded if and only if every submessage and packed array in
  it takes less than 4 GiB, since lengths are read as 32-bit varints, and every omitted proto3 value, at any depth, is
  the one the decoder puts in its place (`PbLossless.SameMessageReturns`). All messages of a descriptor meet the second
  condition if and only if its proto3 fields default to the zero they are omitted at
  (`PbLossless.EveryMessageReturns`); otherwise zeros come back as declared defaults. `PbRoundTrip.MessageRoundTrip`
  says what comes back in every case.
- The decoder's resuming field search is a scan from the start if and only if no two fields share a tag
  (`PbIter.ResumingIsScanning`).
- `ssl3_choose_cipher` finds a shared cipher whenever there is one, provided the last flag of the preference list ends
  its group, as `internal.h` describes the list (`CipherChoice.LastFlagEndsItsGroup`,
  `CipherChoice.UnterminatedGroupLosesItsCipher`).
- The 32-bit varint decoder is stricter than "fits 32 bits" in one place and laxer in another;
  `PbVarint.Decode32Canonical` says exactly which values it accepts. Its comment speaks only of trailing 0x80 and 0xFF
  bytes.

A flight that was written whole is reassembled whole if its records arrive with none overtaken by 64 numbers, its
messages lie in the receiver's window and are no longer than it takes, and, in epoch 1, are the one it is waiting for
(`DtlsDelivery.FlightArrives`). Its records must also hold at most 2^14 bytes. They do if the MTU is at most 2^14 + 13
(`DtlsDelivery.SendIsShort`); nothing in the sender keeps a caller from setting a larger one, and the receiver then
answers a long record with an error (`DtlsDelivery.LongRecordIsRefused`).

The first range check of `dtls1_open_handshake` lets a message number seven above the current one through, one more
than the ring has room for; the model follows the code, and `dtls1_get_incoming_message` then refuses it with an error
instead of ignoring it.

## Model

| member | source | states |
|---|---|---|
| `DtlsSystem.EveryRun` | GasNow/Pods/BoringSSL-GRPC/ssl/d1_both.cc:297-490 | In every run of sender, lossy, duplicating, reordering (and forging, but not opening) network and receiver, with retransmissions, MTU changes, write failures and epoch changes: delivered messages are the transcript's, in order, once each, byte for byte; a buffered message is complete exactly when the fragments put into it cover every body byte; every message is assembled from records of one read epoch; no record number is accepted twice; ring slot i holds nothing or a message of the window [read_seq, read_seq+7) with number i modulo 7 |
| `DtlsSystem.StepKeepsSysInv` | GasNow/Pods/BoringSSL-GRPC/ssl/d1_both.cc:297-490 | Each single action of sender or receiver keeps the invariant behind the theorem above |
| `DtlsSystem.RawIsTranscript` | GasNow/Pods/BoringSSL-GRPC/ssl/d1_both.cc:408-424 | The bytes dtls1_get_message hands out for a complete faithful message are the header and body its sender put in the transcript |
| `DtlsSystem.SetReadStateKeepsInv` | GasNow/Pods/BoringSSL-GRPC/ssl/dtls_method.cc:81-95 | A cipher change that is allowed leaves no partly assembled message behind, so no message mixes read epochs |
| `DtlsSystem.AcceptedOnce` | GasNow/Pods/BoringSSL-GRPC/ssl/dtls_record.cc:225-259 | A record is accepted only under an (epoch, sequence) number never accepted before, in this epoch or an earlier one |
| `DtlsSystem.AcceptedIsCovered` | GasNow/Pods/BoringSSL-GRPC/ssl/d1_both.cc:152-251 | After a fragment goes into an incomplete message, a body byte is present exactly when some accepted fragment covers it |
| `DtlsSystem.DeliverableIsHonest` | GasNow/Pods/BoringSSL-GRPC/ssl/d1_both.cc:644-734 | What the network can deliver and the AEAD opens says only what the sender's transcript holds |
| `DtlsDelivery.FlightArrives` | GasNow/Pods/BoringSSL-GRPC/ssl/d1_both.cc:297-406 | A pass that carries the whole flight, and whose records of the receiver's epoch arrive each once, in any order in which none is overtaken by 64 numbers: every record is accepted, and at the end every message of that epoch is complete in its ring slot, byte for byte what was to be sent |
| `DtlsDelivery.MessageArrives` | GasNow/Pods/BoringSSL-GRPC/ssl/d1_both.cc:297-406 | If every record of one message gets past the replay window at some time, whatever else arrives in between, the message ends up complete, also when its body is empty |
| `DtlsDelivery.ArrivalIsNotRefused` | GasNow/Pods/BoringSSL-GRPC/ssl/dtls_record.cc:140-175 | In such an order the replay window refuses no record |
| `DtlsDelivery.PassOfRun` | GasNow/Pods/BoringSSL-GRPC/ssl/d1_both.cc:782-827 | In every run the datagrams of the current pass are among those the BIO took, each as often |
| `DtlsDelivery.PassIsDistinct` | GasNow/Pods/BoringSSL-GRPC/ssl/dtls_record.cc:294-351 | So the records of a pass carry distinct numbers |
| `DtlsDelivery.SendIsShort` | GasNow/Pods/BoringSSL-GRPC/ssl/d1_both.cc:782-827 | With an MTU of at most 2^14 + 13, no record of a pass holds more plaintext than a receiver takes |
| `DtlsDelivery.LongRecordIsRefused` | GasNow/Pods/BoringSSL-GRPC/ssl/dtls_record.cc:252-257 | The failing input: with a larger MTU, a message of a little over 2^14 bytes is sealed in one record, which the receiver answers with an error |
| `DtlsDelivery.ArrivalsAreARun` | GasNow/Pods/BoringSSL-GRPC/ssl/d1_both.cc:297-406 | These arrivals are a run of the system of sender, network and receiver |
| `DtlsReader.FragmentFoundIsItsMessage` | GasNow/Pods/BoringSSL-GRPC/ssl/d1_both.cc:265-295 | The assertion frag->seq == msg_hdr->seq always holds on a reachable ring |
| `DtlsReader.OpenHandshakeValid` | GasNow/Pods/BoringSSL-GRPC/ssl/d1_both.cc:297-406 | Any record, whatever it holds, keeps every ring slot on its residue and in its window, including fragments at read_seq + 7, which pass the first check and fail the second |
| `DtlsReader.NextMessageValid` | GasNow/Pods/BoringSSL-GRPC/ssl/d1_both.cc:426-438 | Taking a message keeps the ring in order even when the 16-bit message number wraps |
| `DtlsReader.SetReadStateValid` | GasNow/Pods/BoringSSL-GRPC/ssl/dtls_method.cc:81-95 | A new read epoch keeps the ring and empties the window |
| `DtlsReader.Dtls1Reader.OpenRecord` | GasNow/Pods/BoringSSL-GRPC/ssl/dtls_record.cc:177-272 | In place: a record of another epoch, one the window refuses or one that does not open is discarded without trace; one that opens is recorded in the window |
| `DtlsReader.Dtls1Reader.GetIncoming` | GasNow/Pods/BoringSSL-GRPC/ssl/d1_both.cc:265-295 | In place: the slot's message, created if there is none; null, with nothing changed, if the number is out of the window or type or length disagree |
| `DtlsReader.Dtls1Reader.OpenFragment` | GasNow/Pods/BoringSSL-GRPC/ssl/d1_both.cc:361-403 | In place: one turn of the loop has exactly the effect of the step on values, and none when it fails; `DtlsAnswers` says which fragments fail, which change nothing and what the others store |
| `DtlsReader.Dtls1Reader.OpenFragments` | GasNow/Pods/BoringSSL-GRPC/ssl/d1_both.cc:349-405 | In place: all fragments of a record are taken in order, up to the first bad one |
| `DtlsReader.Dtls1Reader.OpenHandshake` | GasNow/Pods/BoringSSL-GRPC/ssl/d1_both.cc:297-406 | In place: has exactly the effect and the answer of the step on values, for every record type, with and without encryption; `DtlsAnswers` says what these are, retransmissions of messages already taken included |
| `DtlsReader.Dtls1Reader.GetMessage` | GasNow/Pods/BoringSSL-GRPC/ssl/d1_both.cc:408-424 | A message is returned exactly when the one at read_seq is complete, with its header and body as bytes |
| `DtlsReader.Dtls1Reader.NextMessage` | GasNow/Pods/BoringSSL-GRPC/ssl/d1_both.cc:426-438 | In place: the slot is freed and the number advances modulo 2^16 |
| `DtlsReader.Dtls1Reader.HasUnprocessed` | GasNow/Pods/BoringSSL-GRPC/ssl/d1_both.cc:440-457 | True exactly when a ChangeCipherSpec is pending or some slot other than the current message's is in use |
| `DtlsReader.Dtls1Reader.SetReadState` | GasNow/Pods/BoringSSL-GRPC/ssl/dtls_method.cc:81-95 | The epoch changes exactly when no data of the old one is left over; then the window is empty |
| `DtlsReader.Dtls1Reader.OpenChangeCipherSpec` | GasNow/Pods/BoringSSL-GRPC/ssl/d1_both.cc:475-490 | In place: a buffered ChangeCipherSpec is consumed once |
| `DtlsReader.Dtls1Reader.OpenAppData` | GasNow/Pods/BoringSSL-GRPC/ssl/d1_pkt.cc:131-188 | In place: after the handshake a repeat of the peer's last Finished asks for a retransmission, and every other handshake record is an error |
| `DtlsReader.RepeatedFinished` | GasNow/Pods/BoringSSL-GRPC/ssl/d1_pkt.cc:143-172 | The peer's last Finished, sent again, asks for a retransmission by its first fragment and by no other; any other Finished is an error |
| `DtlsAnswers.FatalFragments` | GasNow/Pods/BoringSSL-GRPC/ssl/d1_both.cc:349-390 | A fragment is an error if and only if it does not lie within its message, or the message is too long, or in epoch 1 it is not of the current one, or it is exactly seven ahead, or at odds with the type or length of what is buffered |
| `DtlsAnswers.OldFragmentIsIgnored` | GasNow/Pods/BoringSSL-GRPC/ssl/d1_both.cc:380-386 | Outside epoch 1, a sound fragment of a message already taken, or more than seven ahead, is no error and changes nothing |
| `DtlsAnswers.FragmentIsStored` | GasNow/Pods/BoringSSL-GRPC/ssl/d1_both.cc:388-403 | Any other is put into the slot of its message and into no other: the message holds the bytes of the fragment in its range, what it held elsewhere, and nothing more; a complete message stays as it is |
| `DtlsAnswers.PeerIsAnswered` | GasNow/Pods/BoringSSL-GRPC/ssl/d1_both.cc:297-406 | What its peer sent is answered, in every state of every run: Discard, without trace, for a record of another epoch or one the window refuses; Error for a part of the message exactly seven ahead or, in epoch 1, of any but the current one; Success for every other part, and parts of messages already taken or too far ahead leave the ring as it was |
| `DtlsAnswers.EveryRunIsAnswered` | GasNow/Pods/BoringSSL-GRPC/ssl/d1_both.cc:297-406 | So in every run, while the read epoch is not 1, every handshake record the network delivers and that opens, retransmissions of old flights included, is answered Success or Discard, unless its message is exactly seven ahead |
| `DtlsAnswers.CcsIsReportedOnce` | GasNow/Pods/BoringSSL-GRPC/ssl/d1_both.cc:319-338 | A ChangeCipherSpec in the clear blocks a change of the read epoch until it is asked for, and is then reported once; an encrypted or malformed one is an error |
| `DtlsAnswers.CcsIsAwaited` | GasNow/Pods/BoringSSL-GRPC/ssl/d1_both.cc:475-490 | If none is kept back, the next record is a success exactly when it brings one |
| `DtlsAnswers.EarlyDataIsDropped` | GasNow/Pods/BoringSSL-GRPC/ssl/d1_both.cc:307-317 | During a handshake, application data in the clear is an error and encrypted data is dropped; neither touches the ring |
| `DtlsAnswers.DataIsHandedOverOnce` | GasNow/Pods/BoringSSL-GRPC/ssl/d1_pkt.cc:131-188 | A record of application data is handed over once, if it is not empty; under the same number it is discarded |
| `DtlsAnswers.OthersAreNotData` | GasNow/Pods/BoringSSL-GRPC/ssl/d1_pkt.cc:131-188 | Nothing else is handed over; what is of another epoch, refused by the window or does not open is discarded without trace, and of the rest an alert is an alert and any other type an error |
| `ReplayWindow.Dtls1Bitmap.ShouldDiscard` | GasNow/Pods/BoringSSL-GRPC/ssl/dtls_record.cc:140-150 | A number is discarded if and only if it was recorded or is 64 or more below a recorded one |
| `ReplayWindow.Dtls1Bitmap.Record` | GasNow/Pods/BoringSSL-GRPC/ssl/dtls_record.cc:155-175 | In place: the window remembers exactly the old numbers and the new one |
| `Reassembly.HmFragment.constructor` | GasNow/Pods/BoringSSL-GRPC/ssl/d1_both.cc:152-199 | A new message holds no bytes, its header describes one fragment with all of it, and it has a mask exactly when its body is not empty |
| `Reassembly.HmFragment.Mark` | GasNow/Pods/BoringSSL-GRPC/ssl/d1_both.cc:211-251 | The mask ends up tracking the old positions and the new range, and is dropped exactly when all positions are covered |
| `Reassembly.HmFragment.MarkRange` | GasNow/Pods/BoringSSL-GRPC/ssl/d1_both.cc:226-236 | Bits start to end, and no others, are added across byte boundaries |
| `Reassembly.HmFragment.AllMarked` | GasNow/Pods/BoringSSL-GRPC/ssl/d1_both.cc:239-247 | The byte-wise completeness test is true exactly when every position is marked |
| `Reassembly.HmFragment.Accept` | GasNow/Pods/BoringSSL-GRPC/ssl/d1_both.cc:393-402 | Copying a fragment and marking it makes the message hold those bytes at those offsets; complete exactly when nothing is missing |
| `Reassembly.HmFragment.RawBytes` | GasNow/Pods/BoringSSL-GRPC/ssl/d1_both.cc:408-424 | The buffer of a complete message is its full header followed by its body |
| `ByteBits.BitOfRange` | GasNow/Pods/BoringSSL-GRPC/ssl/d1_both.cc:203-205 | bit_range(start, end) has exactly the bits from start to end - 1 |
| `DtlsWire.ParseInvertsWrite` | GasNow/Pods/BoringSSL-GRPC/ssl/d1_both.cc:459-473 | Parsing a written fragment gives it back, with whatever follows it in the record |
| `WriterRuns.EveryRun` | GasNow/Pods/BoringSSL-GRPC/ssl/dtls_record.cc:294-351 | In every run of the sender, until a record counter or the epoch wraps, no two records that left carry the same (epoch, sequence), previous-epoch retransmissions and retries included; handshake records are always parts of transcript messages |
| `WriterRuns.DoKeepsInv` | GasNow/Pods/BoringSSL-GRPC/ssl/d1_both.cc:555-845 | Every sending operation keeps the sender's invariant |
| `WriterRuns.FlushedFlightIsWhole` | GasNow/Pods/BoringSSL-GRPC/ssl/d1_both.cc:782-827 | When send_flight succeeds, after any write failures and resumes, the datagrams written since the rewind carry the flight contiguously, in order and exactly once if and only if no sealed record had been dropped before the call |
| `WriterRuns.FlushedByteIsCarriedOnce` | GasNow/Pods/BoringSSL-GRPC/ssl/d1_both.cc:782-827 | In that case each byte of each message was written, unaltered, by exactly one record |
| `WriterRuns.SealErrorLosesMessage` | GasNow/Pods/BoringSSL-GRPC/ssl/d1_both.cc:739-780 | The failing input: from the initial state, with an AEAD that meets its contract and fails just once, the second time it is used, the first flush of a flight of two reports failure and the second reports success, yet the datagrams stop short of the second message |
| `WriterRuns.OnlyFailureLoses` | GasNow/Pods/BoringSSL-GRPC/ssl/d1_both.cc:739-827 | Sealed records are dropped only by a call that reports a failure, and once dropped they stay dropped however the flight is resumed |
| `WriterRuns.LossIsReported` | GasNow/Pods/BoringSSL-GRPC/ssl/d1_both.cc:782-845 | In every run, records are missing only if a flush or retransmission since the last rewind or clearing of the flight reported a failure |
| `WriterRuns.AddKeepsInv` | GasNow/Pods/BoringSSL-GRPC/ssl/d1_both.cc:555-598 | A message that joins the flight, as one fragment with the next number, leaves numbers, transcript and the records written so far in order |
| `WriterRuns.AddCcsKeepsInv` | GasNow/Pods/BoringSSL-GRPC/ssl/d1_both.cc:600-602 | So does a ChangeCipherSpec |
| `WriterRuns.ClearKeepsInv` | GasNow/Pods/BoringSSL-GRPC/ssl/d1_both.cc:500-509 | Clearing the flight keeps the record numbers written so far unlike any still to come |
| `WriterRuns.SetWriteStateKeepsInv` | GasNow/Pods/BoringSSL-GRPC/ssl/dtls_method.cc:97-107 | A new write epoch takes none of the numbers of the old one, whose counter goes on for retransmissions |
| `WriterRuns.WriteRecordKeepsInv` | GasNow/Pods/BoringSSL-GRPC/ssl/d1_pkt.cc:222-251 | Alerts and application data take numbers from the same counter, so that all stay distinct |
| `WriterRuns.PreparedKeepsInv` | GasNow/Pods/BoringSSL-GRPC/ssl/d1_both.cc:613-632 | Neither a new MTU, nor resuming, nor starting over from the first message disturbs what was written |
| `WriterRuns.FinishedIsOneFragment` | GasNow/Pods/BoringSSL-GRPC/ssl/d1_both.cc:511-537 | dtls1_init_message and dtls1_finish_message together leave the whole message as a single fragment with the current number |
| `FlightLosses.SendAccounted` | GasNow/Pods/BoringSSL-GRPC/ssl/d1_both.cc:782-827 | Wherever a write or sealing fails, what was written either tiles the flight up to the cursor or, after a loss, never again reaches it |
| `FlightLosses.AccountedMeans` | GasNow/Pods/BoringSSL-GRPC/ssl/d1_both.cc:739-780 | The datagrams reach the cursor exactly when nothing was lost |
| `FlightLosses.DueKeepsOrder` | GasNow/Pods/BoringSSL-GRPC/ssl/d1_both.cc:644-734 | A record that would be due at two places moves both on and never closes the gap between them |
| `FlightTiling.SealedIsDue` | GasNow/Pods/BoringSSL-GRPC/ssl/d1_both.cc:644-734 | One call of seal_next_message seals exactly the part of the message the cursor points at, in the message's epoch, and moves the cursor to its end |
| `FlightTiling.PacketTiles` | GasNow/Pods/BoringSSL-GRPC/ssl/d1_both.cc:739-780 | A packet continues the flight where the last one ended |
| `FlightTiling.CarriedOnce` | GasNow/Pods/BoringSSL-GRPC/ssl/d1_both.cc:644-734 | A body byte lies before the cursor if and only if some record carries it, and then exactly one does |
| `DtlsWriter.PacketMovesCursor` | GasNow/Pods/BoringSSL-GRPC/ssl/d1_both.cc:739-780 | Every full packet moves (written, offset) forward lexicographically, the measure by which send_flight ends |
| `RecordNumbers.SendFits` | GasNow/Pods/BoringSSL-GRPC/ssl/d1_both.cc:782-827 | Every datagram fits the MTU, and "MTU too small" is reported only if header, overhead and one byte do not fit |
| `RecordNumbers.FlushFindsRoom` | GasNow/Pods/BoringSSL-GRPC/ssl/d1_both.cc:613-632 | Once the BIO has been asked, no flush fails with "MTU too small" under a cipher whose overhead is at most 202 bytes |
| `RecordNumbers.PacketFits` | GasNow/Pods/BoringSSL-GRPC/ssl/d1_both.cc:739-780 | The records of a packet together fit the room given |
| `RecordNumbers.PacketUsesRoom` | GasNow/Pods/BoringSSL-GRPC/ssl/d1_both.cc:739-780 | A packet ends before the flight does only when no more than 13 + 12 bytes and the overhead are left of its room, or when the last message in it was begun and its part fills the room |
| `RecordNumbers.PartFillsRoom` | GasNow/Pods/BoringSSL-GRPC/ssl/d1_both.cc:693-700 | A message is only begun, rather than sealed whole, when it does not fit; and then its part takes all the room there is |
| `RecordNumbers.SendTakesFreshNumbers` | GasNow/Pods/BoringSSL-GRPC/ssl/dtls_record.cc:294-351 | A flight never reuses a record number, whatever fails and is retried |
| `RecordNumbers.RecordTakesFreshNumber` | GasNow/Pods/BoringSSL-GRPC/ssl/dtls_record.cc:294-351 | A sealed record gets a number used by no earlier one, in the current and in the previous epoch |
| `DtlsSender.Dtls1Writer.AddMessage` | GasNow/Pods/BoringSSL-GRPC/ssl/d1_both.cc:555-598 | In place: the message ends the transcript and the flight, or begins a new flight if the old one was complete, as a single fragment with the next number, in the write epoch of the call; what was in the flight stays as it was, and the invariant of every run is kept; refused exactly when it is too long or a flight not yet sent already holds seven |
| `DtlsSender.Dtls1Writer.FinishMessage` | GasNow/Pods/BoringSSL-GRPC/ssl/d1_both.cc:511-537 | In place: copying the length into the fragment length turns the header begun by dtls1_init_message into that of one whole fragment |
| `DtlsSender.Dtls1Writer.SealNextPacket` | GasNow/Pods/BoringSSL-GRPC/ssl/d1_both.cc:739-780 | In place: the loop packs messages until one does not fit or is only begun |
| `DtlsSender.Dtls1Writer.SendFlight` | GasNow/Pods/BoringSSL-GRPC/ssl/d1_both.cc:782-827 | In place: the invariant is kept, every datagram that left fits the MTU, no two records ever sent carry the same number, and after success the datagrams of this pass are the whole flight if and only if nothing had been dropped before |
| `DtlsSender.Dtls1Writer.FlushFlight` | GasNow/Pods/BoringSSL-GRPC/ssl/d1_both.cc:829-834 | In place: the same of a flight resumed at the cursor |
| `DtlsSender.Dtls1Writer.Retransmit` | GasNow/Pods/BoringSSL-GRPC/ssl/d1_both.cc:836-845 | In place: the same from the first message on, and success always means that the whole flight went out, whatever was dropped before |
| `DtlsSender.Dtls1Writer.WriteRecord` | GasNow/Pods/BoringSSL-GRPC/ssl/d1_pkt.cc:222-251 | In place: a record outside the flight has the type, content, epoch and cipher it was written with, keeps the invariant, and all record numbers stay distinct |
| `FlightEpochs.MessagesKeepTheirEpoch` | GasNow/Pods/BoringSSL-GRPC/ssl/d1_both.cc:555-598 | In every run, whatever was retried or retransmitted across cipher changes: every handshake record ever sent of message number n is a part of message n of the transcript, and carries the write epoch in which that message was added |
| `FlightEpochs.RecordsKeepTheirCipher` | GasNow/Pods/BoringSSL-GRPC/ssl/dtls_record.cc:274-319 | In every run, until a record counter or the epoch wraps: every record ever sent, of whatever type, was sealed by the AEAD that was installed for the epoch it carries, so nothing added after a cipher change leaves under an older cipher |
| `FlightEpochs.RunKeepsStep` | GasNow/Pods/BoringSSL-GRPC/ssl/d1_both.cc:644-734 | The flight, too, holds each message under the epoch in which it was added, and current and previous cipher are those installed for their epochs |
| `FlightEpochs.WrittenRecord` | GasNow/Pods/BoringSSL-GRPC/ssl/d1_pkt.cc:222-251 | A record written outside the flight carries the type, content and current epoch given, sealed by the current AEAD |
| `FlightProgress.FlightGoesOut` | GasNow/Pods/BoringSSL-GRPC/ssl/d1_both.cc:782-845 | In every state of every run: if both ciphers seal whatever has room, the MTU has room for a byte and the flight is of the current or the previous epoch, a flush or a retransmission succeeds, with the whole flight behind the cursor, once the BIO takes enough datagrams; unless a record number wraps |
| `FlightProgress.SendReachesEnd` | GasNow/Pods/BoringSSL-GRPC/ssl/d1_both.cc:782-827 | From any place in the flight, nothing but a failing write, flush or cipher keeps send_flight from its end |
| `FlightProgress.RecordGoesOut` | GasNow/Pods/BoringSSL-GRPC/ssl/d1_pkt.cc:222-251 | A record outside the flight, too, is written if its length is allowed, the cipher works and the BIO takes it |
| `PbRoundTrip.MessageRoundTrip` | GasNow/Pods/nanopb/pb_decode.c:901-1063 | For every descriptor tree with distinct tags in 1..2^29-1 and every message within its bounds: encoding succeeds; decoding what it wrote fails if a submessage or packed array in it takes 4 GiB or more, and otherwise gives back the message with the decoder's own default in place of every value that was omitted, at any depth |
| `PbRoundTrip.DelimitedTooLong` | GasNow/Pods/nanopb/pb_decode.c:367-380 | No length of 4 GiB or more, up to 2^63, is accepted by the 32-bit length decoder |
| `PbRoundTrip.ValueRoundTrip` | GasNow/Pods/nanopb/pb_encode.c:734-868 | Each value decoder gives back what was encoded, up to omitted values inside submessages, whatever follows, if the lengths inside are below 4 GiB, and fails otherwise |
| `PbRoundTrip.FieldsRoundTrip` | GasNow/Pods/nanopb/pb_encode.c:494-516 | The fields from any field on, decoded into what came back of the earlier ones, complete what comes back of the message |
| `PbRoundTrip.PackedStep` | GasNow/Pods/nanopb/pb_encode.c:142-181 | A packed array is read as one field whose entries follow those already there |
| `PbRoundTrip.EachStep` | GasNow/Pods/nanopb/pb_decode.c:449-459 | An array written entry by entry, of any type and integers among them, is appended entry by entry to the entries already there |
| `PbLossless.SameMessageReturns` | GasNow/Pods/nanopb/pb_decode.c:901-1063 | The same message comes back if and only if every submessage and packed array in it takes less than 4 GiB and every proto3 value that is omitted, at any depth, is the one the decoder puts in its place |
| `PbLossless.RestoredIsSame` | GasNow/Pods/nanopb/pb_encode.c:215-303 | What comes back of a message is the message itself exactly when each omitted value in it equals the decoder's default for its field |
| `PbLossless.EveryMessageReturns` | GasNow/Pods/nanopb/pb_decode.c:812-882 | All messages of a descriptor come back, as far as lengths allow, if and only if every proto3 field that is omitted at zero has zero for its default, in submessages too, where messages exist at all |
| `PbLossless.DescriptorReturns` | GasNow/Pods/nanopb/pb_decode.c:901-1063 | Under such a descriptor decoding gives back every message with lengths below 4 GiB |
| `PbLossless.LostZero` | GasNow/Pods/nanopb/pb_decode.c:836-882 | For every other descriptor, a message within its bounds that does not come back |
| `PbLossless.DeclaredDefaultReplacesZero` | GasNow/Pods/nanopb/pb_decode.c:836-882 | In any message, of any descriptor, a proto3 field that is omitted holds zero and comes back as its declared default |
| `PbLossless.OmittedIsZero` | GasNow/Pods/nanopb/pb_encode.c:215-303 | A proto3 field is omitted only when it holds the zero of its type: 0, nothing, or a submessage of nothing else |
| `PbLossless.LongArrayIsRefused` | GasNow/Pods/nanopb/pb_decode.c:367-380 | A message that fails: every packed array of 2^29 64-bit integers or more that its field has room for is encoded, and refused by the decoder |
| `PbUnknown.UnknownFieldIsIgnored` | GasNow/Pods/nanopb/pb_decode.c:924-958 | A well-formed field with an unknown nonzero tag, put between any two fields, changes neither the result nor the message |
| `PbUnknown.EncodedFieldIsUnknown` | GasNow/Pods/nanopb/pb_decode.c:273-326 | Whatever another descriptor's encoder writes for a field can be skipped, and exactly its payload is |
| `PbUnknown.FittingAreEncoded` | GasNow/Pods/nanopb/pb_encode.c:494-516 | Encoding succeeds on every message within its bounds, whatever the tags |
| `PbUnknown.WholeThen` | GasNow/Pods/nanopb/pb_decode.c:917-997 | After any sequence of whole fields the loop goes on with what follows, in the state they left |
| `PbUnknown.RequiredFieldsOccur` | GasNow/Pods/nanopb/pb_decode.c:1007-1046 | Decoding succeeds exactly when the loop does and each of the first 64 required fields occurs in the input |
| `PbMerge.PiecesFollow` | GasNow/Pods/nanopb/pb_decode.c:413-459 | An integer array that comes in any mixture of packed and unpacked pieces, between any other fields, is appended in order to the entries already there |
| `PbMerge.ArrayInPieces` | GasNow/Pods/nanopb/pb_decode.c:413-459 | So a message with nothing but such pieces decodes to the entries in order |
| `PbMerge.EntryTooMany` | GasNow/Pods/nanopb/pb_decode.c:455-456 | An entry for which the array has no room ends the decoding in failure |
| `PbMerge.MessageMerges` | GasNow/Pods/nanopb/pb_decode.c:901-1049 | pb_decode_noinit into a message that holds something, for every descriptor, what it holds and what was encoded: the last value of a field counts, submessages are merged field by field at every depth, entries are appended, a oneof is left with the one member read, which starts afresh, and fields that were not encoded stay |
| `PbMerge.ConcatenationMerges` | GasNow/Pods/nanopb/pb_decode.c:1051-1063 | Two encodings, one after the other, decode to the second message merged into the first |
| `PbBounds.MessageFits` | GasNow/Pods/nanopb/pb_decode.c:901-1049 | Any input that is accepted, whoever wrote it, leaves a message within its bounds: integers fit their fields, byte strings and texts their storage, arrays their size, and of a oneof there is at most one member, at every depth |
| `PbBounds.DecodedFits` | GasNow/Pods/nanopb/pb_decode.c:1051-1063 | So whatever pb_decode accepts can be encoded again, and decodes again to the same message, but for proto3 values that are omitted |
| `PbWire.EncodedIsFields` | GasNow/Pods/nanopb/pb_encode.c:494-516 | Seen by a reader without the descriptor, an encoded message is its written fields in order, each under its own tag and wire type: integer arrays packed under one tag, other arrays entry by entry, omitted fields not at all |
| `PbWire.EncodedIff` | GasNow/Pods/nanopb/pb_encode.c:126-516 | Any message that its struct can hold is encoded if and only if, at every depth of what is written, no array has more entries than its field, every byte array leaves room for its header, no text is longer than its storage and every integer field is 1, 2, 4 or 8 bytes wide |
| `PbWire.OnlyFourWireTypes` | GasNow/Pods/nanopb/pb_decode.c:316-326 | An unknown field of any other wire type is an error |
| `PbWire.ZeroEnds` | GasNow/Pods/nanopb/pb_decode.c:305-309 | A zero tag ends the message successfully, whatever follows |
| `PbForeign.WireTypeIsNotLookedAt` | GasNow/Pods/nanopb/pb_decode.c:401-475 | The wire type of a known field makes no difference, except that it tells a packed array from a single entry |
| `PbForeign.AnyForm64` | GasNow/Pods/nanopb/pb_decode.c:250-270 | Up to ten groups of seven bits, padded with empty ones or not, are read as their value modulo 2^64; longer varints are refused |
| `PbForeign.AnyForm32` | GasNow/Pods/nanopb/pb_decode.c:182-242 | For all varints of up to 37 bytes, exactly which the 32-bit decoder accepts, with the result modulo 2^32: if the fifth group is the last only its lower four bits may be set, and later groups are empty or extend the sign |
| `PbForeign.PaddedIsRead` | GasNow/Pods/nanopb/pb_decode.c:182-242 | So tags and lengths of up to five bytes are read as they are, padded or not |
| `PbForeign.FormOf` | GasNow/Pods/nanopb/pb_decode.c:182-270 | Every input begins with such groups unless all its bytes have the top bit set |
| `PbForeign.NoEnd` | GasNow/Pods/nanopb/pb_decode.c:182-270 | Of an input all of whose bytes have the top bit set, neither decoder makes anything |
| `PbEncoder.OStream.Write` | GasNow/Pods/nanopb/pb_encode.c:101-119 | Succeeds exactly when sizing or there is room; appends the bytes and touches nothing outside its part of the buffer; a failure writes nothing |
| `PbEncoder.OStream.BufWrite` | GasNow/Pods/nanopb/pb_encode.c:72-82 | The bytes go to the next places of the buffer and to no others |
| `PbEncoder.OStream.EncodeVarint` | GasNow/Pods/nanopb/pb_encode.c:574-594 | Emits the canonical base 128 form |
| `PbEncoder.Groups` | GasNow/Pods/nanopb/pb_encode.c:585-593 | The loop over seven-bit groups, with the top bit of the last one cleared, yields the canonical form |
| `PbEncoder.OStream.EncodeSvarint` | GasNow/Pods/nanopb/pb_encode.c:596-605 | Emits the ZigZag form of any 64-bit integer |
| `PbEncoder.OStream.EncodeValue` | GasNow/Pods/nanopb/pb_encode.c:734-868 | On a sizing stream and on a writing one alike, emits the encoding of a value if it has one and there is room for it |
| `PbEncoder.OStream.EncodeSubmessage` | GasNow/Pods/nanopb/pb_encode.c:682-730 | The size found by the first pass is the length the second one writes, at any depth |
| `PbEncoder.OStream.WriteSubmessage` | GasNow/Pods/nanopb/pb_encode.c:705-729 | The second pass fills its substream exactly; "submsg size changed" is unreachable |
| `PbEncoder.OStream.PackedSize` | GasNow/Pods/nanopb/pb_encode.c:146-167 | The size computed or measured for a packed array is the number of bytes its entries take |
| `PbEncoder.OStream.EncodeArray` | GasNow/Pods/nanopb/pb_encode.c:126-211 | Packed and unpacked arrays, empty and over-long ones, on sizing and writing streams |
| `PbEncoder.OStream.EncodeField` | GasNow/Pods/nanopb/pb_encode.c:307-392 | Required, proto3, optional, repeated and oneof fields are written or omitted as the specification of the message says |
| `PbEncoder.OStream.EncodeFields` | GasNow/Pods/nanopb/pb_encode.c:494-516 | pb_encode succeeds exactly when the message has an encoding and that many bytes remain, and then has appended exactly that |
| `PbEncoder.GetEncodedSize` | GasNow/Pods/nanopb/pb_encode.c:533-542 | The reported size is the length of what pb_encode writes |
| `PbIter.FieldIter.constructor` | GasNow/Pods/nanopb/pb_common.c:8-18 | The iterator starts on the first field |
| `PbIter.FieldIter.Next` | GasNow/Pods/nanopb/pb_common.c:20-76 | After a step the data position, size position and required index are those of a walk from the start; false exactly on wrapping round |
| `PbIter.FieldIter.FindTag` | GasNow/Pods/nanopb/pb_common.c:78-95 | Whatever the descriptor, finds the first field with the tag at or after the current one, else from the start on, with its positions and required index; if there is none, is back where it was |
| `PbIter.ResumingIsScanning` | GasNow/Pods/nanopb/pb_common.c:78-95 | Resuming from anywhere finds what a scan from the start would, for every position and tag, if and only if no two fields share a tag |
| `PbIter.SearchIsNext` | GasNow/Pods/nanopb/pb_common.c:78-95 | A field at or after the current one is found before any that precedes it |
| `PbIter.FieldIter.FindExtension` | GasNow/Pods/nanopb/pb_decode.c:798-809 | Without an extension field the search goes once round and leaves the iterator as it was |
| `PbIStream.IStream.Read` | GasNow/Pods/nanopb/pb_decode.c:85-132 | Succeeds exactly when enough bytes are left, and returns them |
| `PbIStream.IStream.ReadByte` | GasNow/Pods/nanopb/pb_decode.c:136-152 | The next byte, if any |
| `PbIStream.IStream.DecodeVarint` | GasNow/Pods/nanopb/pb_decode.c:250-270 | The loop computes the 64-bit value of the varint, failing exactly when it is too long or cut off |
| `PbIStream.IStream.DecodeVarint32` | GasNow/Pods/nanopb/pb_decode.c:182-247 | The loop accepts exactly what the 32-bit decoder function accepts, and tells an empty stream apart |
| `PbIStream.IStream.SkipVarint` | GasNow/Pods/nanopb/pb_decode.c:273-282 | Consumes exactly one varint of any length |
| `PbIStream.IStream.SkipString` | GasNow/Pods/nanopb/pb_decode.c:284-291 | Consumes a length and that many bytes |
| `PbIStream.IStream.SkipField` | GasNow/Pods/nanopb/pb_decode.c:316-326 | Consumes exactly the payload of the wire type, and fails on a wire type that has none |
| `PbIStream.IStream.DecodeTag` | GasNow/Pods/nanopb/pb_decode.c:293-314 | A tag and wire type, an end (no bytes or a zero), or an error |
| `PbIStream.IStream.MakeSubstream` | GasNow/Pods/nanopb/pb_decode.c:367-380 | The substream covers exactly the delimited bytes, and the parent exactly what follows them |
| `PbIStream.IStream.CloseSubstream` | GasNow/Pods/nanopb/pb_decode.c:382-395 | The parent goes on behind the substream's bytes whether or not they were all read |
| `PbRequired.BitsMeanSeen` | GasNow/Pods/nanopb/pb_decode.c:1007-1046 | All bits below the count are set exactly when each of the first 64 required fields occurred |
| `PbRequired.MarkRecords` | GasNow/Pods/nanopb/pb_decode.c:982-992 | Setting a field's bit records that field and no other |
| `PbRequired.NthRequired` | GasNow/Pods/nanopb/pb_common.c:65-70 | Every number below the count is the required index of some field |
| `PbRequired.CountRequired` | GasNow/Pods/nanopb/pb_decode.c:1012-1023 | Walking to the end from anywhere yields the number of required fields |
| `PbRequired.WordsFull` | GasNow/Pods/nanopb/pb_decode.c:1028-1045 | Comparing whole words and then the remaining bits tests exactly the bits below the count |
| `PbRequired.AllRequiredSeen` | GasNow/Pods/nanopb/pb_decode.c:1007-1046 | The final check passes exactly when each of the first 64 required fields occurred |
| `PbDecoder.MessageToDefaults` | GasNow/Pods/nanopb/pb_decode.c:884-895 | Every field of the message is set to its default, in submessages too |
| `PbDecoder.FieldToDefault` | GasNow/Pods/nanopb/pb_decode.c:812-882 | A field's default: absent, no entries, the declared value, or else zero, empty or a submessage of defaults |
| `PbDecoder.CastKeepsWhatFits` | GasNow/Pods/nanopb/pb_decode.c:1309-1321 | The cast to the field's size changes exactly the values that do not fit, signed and unsigned |
| `PbDecoder.DecVarint` | GasNow/Pods/nanopb/pb_decode.c:1289-1324 | Accepts exactly the values that fit the field after the 32-bit sign rule |
| `PbDecoder.DecUvarint` | GasNow/Pods/nanopb/pb_decode.c:1326-1348 | Accepts exactly the values that fit the field |
| `PbDecoder.DecSvarint` | GasNow/Pods/nanopb/pb_decode.c:1350-1372 | Accepts exactly the ZigZag values that fit the field |
| `PbDecoder.DecFixed32` | GasNow/Pods/nanopb/pb_decode.c:1254-1266 | Four bytes, least significant first |
| `PbDecoder.DecFixed64` | GasNow/Pods/nanopb/pb_decode.c:1269-1286 | Eight bytes, least significant first |
| `PbDecoder.DecBytes` | GasNow/Pods/nanopb/pb_decode.c:1391-1508 | Bytes, strings and fixed-length bytes that fit their storage, the empty fixed-length form meaning zeros |
| `PbDecoder.DecSubmessage` | GasNow/Pods/nanopb/pb_decode.c:1463-1485 | Exactly the delimited bytes are decoded into the submessage, and the parent stream resumes behind them |
| `PbDecoder.DecodePackedArray` | GasNow/Pods/nanopb/pb_decode.c:413-444 | Entries are appended until the bytes end; entries past the array's size are an error |
| `PbDecoder.DecodeField` | GasNow/Pods/nanopb/pb_decode.c:401-475 | In place: for each kind of field and wire type, has exactly the effect on storage and stream of the step on values, of which `PbRoundTrip` and `PbMerge` prove what it appends, replaces and merges |
| `PbDecoder.DecodeFound` | GasNow/Pods/nanopb/pb_decode.c:982-996 | A found field is stored, alone of its oneof, and its required bit is set |
| `PbDecoder.DecodeFields` | GasNow/Pods/nanopb/pb_decode.c:917-1005 | The loop over the stream, extensions and unknown fields included: consumes it all or fails exactly when the specified decoder does |
| `PbDecoder.DecodeNoInit` | GasNow/Pods/nanopb/pb_decode.c:901-1049 | For every descriptor, with repeated tags or none: the loop with its resuming iterator and bit set, and the final check, accept exactly the inputs, and store exactly the message, that the decoder specified over values and a set of seen fields does, of which `PbRoundTrip`, `PbMerge`, `PbUnknown` and `PbBounds` prove what it accepts and what it makes of what is there |
| `PbDecoder.Decode` | GasNow/Pods/nanopb/pb_decode.c:1051-1063 | The same from defaults |
| `PbVarint.Varint64RoundTrip` | GasNow/Pods/nanopb/pb_decode.c:250-270 | The 64-bit decoder inverts the encoder on every 64-bit value |
| `PbVarint.Decode32Canonical` | GasNow/Pods/nanopb/pb_decode.c:182-242 | Exactly which canonical 64-bit values the 32-bit decoder accepts, with the result modulo 2^32; bits 32 to 34 of a longer value are not looked at |
| `PbVarint.Varint32RoundTrip` | GasNow/Pods/nanopb/pb_decode.c:182-242 | It returns all v < 2^32, accepts all sign-extended negative 32-bit integers and rejects all 2^32 <= v < 2^63 |
| `PbVarint.ZigZagInverse` | GasNow/Pods/nanopb/pb_encode.c:596-605 | ZigZag encoding and decoding are inverse in both directions on all 64-bit integers |
| `PbVarint.LittleEndianInverse` | GasNow/Pods/nanopb/pb_encode.c:607-632 | Fixed-width integers are read back as written |
| `TlsComposition.EveryRun` | GasNow/Pods/BoringSSL-GRPC/ssl/handshake_client.cc:1707-1789 | In every interleaving of the two machines over a reliable channel, for every agreed setting and any delays of callbacks and flushes, neither side meets an error and each transcript is a beginning of one script |
| `TlsComposition.RunsEndInAgreement` | GasNow/Pods/BoringSSL-GRPC/ssl/handshake.cc:491-628 | From every state of every such run, every schedule of turns by sides that have something to do is no longer than the work left in the system, and when it leaves both at rest they are in state_done with nothing in the channel, equal transcripts, ciphers switched, one Finished sent and accepted on each side, and the same view of resumption |
| `TlsComposition.AgreementIsReached` | GasNow/Pods/BoringSSL-GRPC/ssl/handshake.cc:491-628 | And each such schedule can be continued until the two sides agree |
| `TlsComposition.NoDeadlock` | GasNow/Pods/BoringSSL-GRPC/ssl/handshake.cc:491-628 | Two sides that both have nothing to do are both done |
| `TlsComposition.RestIsAgreement` | GasNow/Pods/BoringSSL-GRPC/ssl/handshake.cc:491-628 | Two sides at rest agree on transcript, resumption and Finished messages |
| `TlsComposition.NextMakesProgress` | GasNow/Pods/BoringSSL-GRPC/ssl/handshake.cc:491-628 | Every turn of a side that is not at rest lowers the work left in the system |
| `TlsComposition.StepKeepsInv` | GasNow/Pods/BoringSSL-GRPC/ssl/handshake.cc:491-628 | Every turn keeps the two sides on the script |
| `TlsComposition.ClientWaitKeepsInv` | GasNow/Pods/BoringSSL-GRPC/ssl/handshake.cc:491-610 | However a wait of the client ends, by a flush, a message or a ChangeCipherSpec, the system stays on the script, and a wait for input ends as soon as there is any |
| `TlsComposition.ServerWaitKeepsInv` | GasNow/Pods/BoringSSL-GRPC/ssl/handshake.cc:491-610 | The same for the server |
| `TlsComposition.ClientCallKeepsInv` | GasNow/Pods/BoringSSL-GRPC/ssl/handshake.cc:491-628 | What the in-place client does in one call of ssl_run_handshake is a run of turns of the composition, and keeps its invariant |
| `TlsComposition.ServerCallKeepsInv` | GasNow/Pods/BoringSSL-GRPC/ssl/handshake.cc:491-628 | The same for the in-place server |
| `TlsJoin.ActKeepsJoined` | GasNow/Pods/BoringSSL-GRPC/ssl/handshake.cc:176-222 | Whatever a state does that fits the script keeps what is under way equal to what lies between the two sides' places in it |
| `TlsJoin.SendKeepsJoined` | GasNow/Pods/BoringSSL-GRPC/ssl/handshake.cc:176-184 | Messages that enter transcript and flight together leave what is under way equal to what lies between the two places in the script |
| `TlsJoin.TakeKeepsJoined` | GasNow/Pods/BoringSSL-GRPC/ssl/handshake.cc:215-222 | So does a received message, a Finished or any other, that enters the transcript |
| `TlsClientScript.RunFollows` | GasNow/Pods/BoringSSL-GRPC/ssl/handshake_client.cc:385-1705 | Every client state, facing the message the script has next, does what the script says |
| `TlsClientScript.StartFollows` | GasNow/Pods/BoringSSL-GRPC/ssl/handshake_client.cc:385-452 | A ClientHello that offers the session, if any, is what the script begins with |
| `TlsClientScript.EnterFollows` | GasNow/Pods/BoringSSL-GRPC/ssl/handshake_client.cc:454-489 | Only over DTLS is a HelloVerifyRequest looked for; nothing is said or taken |
| `TlsClientScript.VerifyRequestFollows` | GasNow/Pods/BoringSSL-GRPC/ssl/handshake_client.cc:491-533 | A ServerHello is left for the next state |
| `TlsClientScript.HelloFollows` | GasNow/Pods/BoringSSL-GRPC/ssl/handshake_client.cc:535-759 | What the ServerHello settles is what was agreed, and a resumed client skips to the ticket |
| `TlsClientScript.CertificateFollows` | GasNow/Pods/BoringSSL-GRPC/ssl/handshake_client.cc:771-819 | The Certificate is taken exactly when the cipher has one in the script |
| `TlsClientScript.StatusFollows` | GasNow/Pods/BoringSSL-GRPC/ssl/handshake_client.cc:821-869 | A promised CertificateStatus is taken |
| `TlsClientScript.VerifyFollows` | GasNow/Pods/BoringSSL-GRPC/ssl/handshake_client.cc:871-889 | Verification that succeeds or is pending leaves the client where it is in the script; for one that fails see `TlsClientPeer.BadCertificateStops` |
| `TlsClientScript.KeyExchangeFollows` | GasNow/Pods/BoringSSL-GRPC/ssl/handshake_client.cc:891-1071 | A ServerKeyExchange is taken if it is next, and anything else left for the next state |
| `TlsClientScript.RequestFollows` | GasNow/Pods/BoringSSL-GRPC/ssl/handshake_client.cc:1073-1143 | A CertificateRequest is taken if it is next, and ServerHelloDone left for the next state |
| `TlsClientScript.HelloDoneFollows` | GasNow/Pods/BoringSSL-GRPC/ssl/handshake_client.cc:1145-1167 | The end of the server's flight is taken |
| `TlsClientScript.ClientCertificateFollows` | GasNow/Pods/BoringSSL-GRPC/ssl/handshake_client.cc:1169-1215 | A Certificate, empty or not, is said exactly when one was requested |
| `TlsClientScript.ClientKeyFollows` | GasNow/Pods/BoringSSL-GRPC/ssl/handshake_client.cc:1220-1371 | A ClientKeyExchange is said |
| `TlsClientScript.CertificateVerifyFollows` | GasNow/Pods/BoringSSL-GRPC/ssl/handshake_client.cc:1373-1455 | CertificateVerify is said exactly after a nonempty Certificate |
| `TlsClientScript.FinishFollows` | GasNow/Pods/BoringSSL-GRPC/ssl/handshake_client.cc:1457-1512 | ChangeCipherSpec, NextProto and ChannelID as agreed, and a Finished over just the transcript the script has there |
| `TlsClientScript.FlightFollows` | GasNow/Pods/BoringSSL-GRPC/ssl/handshake_client.cc:1538-1564 | A resumed handshake is over, a full one goes on to the ticket |
| `TlsClientScript.TicketFollows` | GasNow/Pods/BoringSSL-GRPC/ssl/handshake_client.cc:1566-1647 | An expected ticket is taken before the ChangeCipherSpec is waited for |
| `TlsClientScript.CipherFollows` | GasNow/Pods/BoringSSL-GRPC/ssl/handshake_client.cc:1649-1656 | The read cipher is installed behind the ChangeCipherSpec |
| `TlsClientScript.FinishedFollows` | GasNow/Pods/BoringSSL-GRPC/ssl/handshake_client.cc:1658-1672 | The server's Finished is taken, and a resumed client goes on to its own |
| `TlsClientScript.EndFollows` | GasNow/Pods/BoringSSL-GRPC/ssl/handshake_client.cc:1674-1705 | The machine is done at the end of the script |
| `TlsClientScript.LooksAtNext` | GasNow/Pods/BoringSSL-GRPC/ssl/handshake_client.cc:491-1672 | The message a client state waits for is the next one the server sends |
| `TlsServerScript.RunFollows` | GasNow/Pods/BoringSSL-GRPC/ssl/handshake_server.cc:426-1537 | Every server state, facing the message the script has next, does what the script says |
| `TlsServerScript.StartFollows` | GasNow/Pods/BoringSSL-GRPC/ssl/handshake_server.cc:426-430 | The server begins before the ClientHello |
| `TlsServerScript.ClientHelloFollows` | GasNow/Pods/BoringSSL-GRPC/ssl/handshake_server.cc:432-510 | The ClientHello is looked at and not yet taken |
| `TlsServerScript.SelectFollows` | GasNow/Pods/BoringSSL-GRPC/ssl/handshake_server.cc:512-560 | Certificate and cipher are settled as agreed, with the ClientHello still before it |
| `TlsServerScript.ParametersFollows` | GasNow/Pods/BoringSSL-GRPC/ssl/handshake_server.cc:572-684 | Resumption, tickets and whether to ask for a certificate come out as agreed, and the ClientHello is taken |
| `TlsServerScript.HelloFollows` | GasNow/Pods/BoringSSL-GRPC/ssl/handshake_server.cc:686-752 | The ServerHello says what was agreed; a resumed server skips to its Finished |
| `TlsServerScript.CertificateFollows` | GasNow/Pods/BoringSSL-GRPC/ssl/handshake_server.cc:754-840 | Certificate, and CertificateStatus if promised, are said exactly for certificate ciphers |
| `TlsServerScript.KeyExchangeFollows` | GasNow/Pods/BoringSSL-GRPC/ssl/handshake_server.cc:842-912 | A ServerKeyExchange is said exactly when there are parameters |
| `TlsServerScript.HelloDoneFollows` | GasNow/Pods/BoringSSL-GRPC/ssl/handshake_server.cc:914-947 | CertificateRequest if agreed, then ServerHelloDone, are said and flushed |
| `TlsServerScript.ClientCertificateFollows` | GasNow/Pods/BoringSSL-GRPC/ssl/handshake_server.cc:949-1040 | A requested Certificate is taken, nonempty or, where the setting allows it, empty; for one that is missing where the server insists on it see `TlsServerPeer.MissingCertificateStops` |
| `TlsServerScript.VerifyFollows` | GasNow/Pods/BoringSSL-GRPC/ssl/handshake_server.cc:1042-1056 | Verification, pending or not, leaves the server where it is in the script |
| `TlsServerScript.ClientKeyFollows` | GasNow/Pods/BoringSSL-GRPC/ssl/handshake_server.cc:1058-1267 | The ClientKeyExchange is taken |
| `TlsServerScript.CertificateVerifyFollows` | GasNow/Pods/BoringSSL-GRPC/ssl/handshake_server.cc:1269-1363 | CertificateVerify is taken exactly after a nonempty Certificate |
| `TlsServerScript.CcsFollows` | GasNow/Pods/BoringSSL-GRPC/ssl/handshake_server.cc:1365-1368 | The server waits before the ChangeCipherSpec |
| `TlsServerScript.CipherFollows` | GasNow/Pods/BoringSSL-GRPC/ssl/handshake_server.cc:1370-1377 | The read cipher is installed behind it |
| `TlsServerScript.NextProtoFollows` | GasNow/Pods/BoringSSL-GRPC/ssl/handshake_server.cc:1379-1413 | NextProto is taken exactly when agreed |
| `TlsServerScript.ChannelIdFollows` | GasNow/Pods/BoringSSL-GRPC/ssl/handshake_server.cc:1415-1437 | ChannelID is taken exactly when agreed |
| `TlsServerScript.ClientFinishedFollows` | GasNow/Pods/BoringSSL-GRPC/ssl/handshake_server.cc:1439-1461 | The client's Finished is taken; a full handshake goes on to the server's, a resumed one is over |
| `TlsServerScript.ServerFinishedFollows` | GasNow/Pods/BoringSSL-GRPC/ssl/handshake_server.cc:1463-1509 | A ticket if expected, ChangeCipherSpec and a Finished over just the transcript the script has there are said and flushed |
| `TlsServerScript.EndFollows` | GasNow/Pods/BoringSSL-GRPC/ssl/handshake_server.cc:1511-1537 | The machine is done at the end of the script |
| `TlsServerScript.LooksAtNext` | GasNow/Pods/BoringSSL-GRPC/ssl/handshake_server.cc:432-1461 | The message a server state waits for is the next one the client sends |
| `TlsClient.TurnAdvances` | GasNow/Pods/BoringSSL-GRPC/ssl/handshake_client.cc:1707-1789 | Against any peer, every change of state lowers the client's rank, in which the Finished phases swap places on resumption |
| `TlsClient.DoneMeansFinished` | GasNow/Pods/BoringSSL-GRPC/ssl/handshake_client.cc:1457-1705 | Against any peer and any oracle, a client that reaches state_done without TLS 1.3 has installed the read cipher, accepted the peer's Finished and sent its own exactly once |
| `TlsServer.TurnAdvances` | GasNow/Pods/BoringSSL-GRPC/ssl/handshake_server.cc:1539-1621 | Against any peer, every change of state lowers the server's rank |
| `TlsServer.DoneMeansFinished` | GasNow/Pods/BoringSSL-GRPC/ssl/handshake_server.cc:1365-1537 | Against any peer and any oracle, a server that reaches state_done without TLS 1.3 has installed the read cipher, accepted the peer's Finished and sent its own exactly once |
| `TlsClientPeer.EndsOnScript` | GasNow/Pods/BoringSSL-GRPC/ssl/handshake_client.cc:535-1705 | Against any peer, whatever it sends and whatever fails: a client that reaches state_done without TLS 1.3 has hashed exactly the messages, in order, of a handshake in which the server does only what a server may do, and goes by what that server said of resumption, cipher and ticket |
| `TlsClientPeer.ServerIsVerified` | GasNow/Pods/BoringSSL-GRPC/ssl/handshake_client.cc:871-889 | Against any peer: if that handshake was full and its cipher authenticates by certificate, there was a turn in which the certificate was verified successfully, and the Certificate is in the transcript |
| `TlsClientPeer.VerificationPassed` | GasNow/Pods/BoringSSL-GRPC/ssl/handshake_client.cc:871-889 | From any state in phase, a client gets past the verification only by such a turn |
| `TlsClientPeer.BadCertificateStops` | GasNow/Pods/BoringSSL-GRPC/ssl/handshake_client.cc:880-881 | A certificate found invalid is an error: state, terms, transcript and flight stay as they are |
| `TlsClientPeer.FailureStops` | GasNow/Pods/BoringSSL-GRPC/ssl/handshake_client.cc:385-1705 | In every state that makes a check, a check that fails changes nothing, and leaves the machine waiting or in error |
| `TlsClientPeer.FailureIsAnError` | GasNow/Pods/BoringSSL-GRPC/ssl/handshake_client.cc:385-1705 | In every state, a turn with a failing check is an error or the very turn of a machine whose checks pass |
| `TlsClientPeer.PendingIsWaitedFor` | GasNow/Pods/BoringSSL-GRPC/ssl/handshake_client.cc:385-1705 | In every state, an application callback that is not ready is waited for with nothing changed, and makes no difference where none is asked |
| `TlsClientPeer.ErrorIsForEver` | GasNow/Pods/BoringSSL-GRPC/ssl/handshake.cc:491-628 | A machine in error stays so whatever arrives: it says, takes and hashes nothing more |
| `TlsClientPeer.FinishedWasRight` | GasNow/Pods/BoringSSL-GRPC/ssl/handshake.cc:380-429 | Against any peer: when a Finished has been accepted, there was a turn in which the server's Finished over just the transcript of that turn was there, and that transcript and the Finished begin the present one |
| `TlsClientPeer.CipherWasSwitched` | GasNow/Pods/BoringSSL-GRPC/ssl/handshake_client.cc:1566-1656 | Against any peer: a client that has switched its read cipher took, in a turn in which it waited for it and had not switched yet, a ChangeCipherSpec that was next |
| `TlsClientPeer.TurnTakes` | GasNow/Pods/BoringSSL-GRPC/ssl/handshake.cc:491-628 | Against any peer, a turn takes at most one item, the one that came first: a message, which is hashed, or a ChangeCipherSpec, and that only where one is waited for |
| `TlsClientPeer.WrongFinishedStops` | GasNow/Pods/BoringSSL-GRPC/ssl/handshake.cc:396-408 | Any other message there is an error |
| `TlsClientPeer.EarlyReturnIsLate` | GasNow/Pods/BoringSSL-GRPC/ssl/handshake_client.cc:1552-1561 | Against any peer: when the handshake returns early, false start is on, the handshake is full, the client's own Finished is sent under its new cipher, and nothing of the server's last flight is taken |
| `TlsClientPeer.LegalIsAccepted` | GasNow/Pods/BoringSSL-GRPC/ssl/handshake_client.cc:491-1672 | No false alarms: a client whose checks pass refuses no message that a server may send in its state, and goes on unless a callback is pending; a HelloVerifyRequest starts it over with the ClientHello it began with |
| `TlsServerPeer.EndsOnScript` | GasNow/Pods/BoringSSL-GRPC/ssl/handshake_server.cc:426-1537 | Against any peer, whatever it sends and whatever fails: a server that reaches state_done without TLS 1.3 has hashed exactly the messages, in order, of the script of a setting with its own configuration and a client that gives it what it insists on; resumption, certificate request and peer certificate are as in that setting |
| `TlsServerPeer.ClientIsProven` | GasNow/Pods/BoringSSL-GRPC/ssl/handshake_server.cc:949-1363 | Against any peer: if that handshake was full, the server asked for a certificate and insists on one, it has one; and whenever it has one, there was a turn in which it was verified and one in which a CertificateVerify was taken and verified, and CertificateVerify is in the transcript |
| `TlsServerPeer.ProofWasMade` | GasNow/Pods/BoringSSL-GRPC/ssl/handshake_server.cc:1042-1056 | From any state in phase, a server with a client certificate gets past its verification, and past CertificateVerify, only by such turns |
| `TlsServerPeer.AlwaysInsists` | GasNow/Pods/BoringSSL-GRPC/ssl/handshake_server.cc:1022-1027 | In every run, from any state in phase, a server that insists on a certificate it has asked for does not get past the place of the Certificate without one |
| `TlsServerPeer.MissingCertificateStops` | GasNow/Pods/BoringSSL-GRPC/ssl/handshake_server.cc:1022-1027 | An empty Certificate, where the server insists on one, is an error, and so is any other message there |
| `TlsServerPeer.FailureStops` | GasNow/Pods/BoringSSL-GRPC/ssl/handshake_server.cc:426-1537 | In every state that makes a check, a check that fails changes nothing, and leaves the machine waiting or in error |
| `TlsServerPeer.FailureIsAnError` | GasNow/Pods/BoringSSL-GRPC/ssl/handshake_server.cc:426-1537 | In every state, a turn with a failing check is an error or the very turn of a machine whose checks pass |
| `TlsServerPeer.PendingIsWaitedFor` | GasNow/Pods/BoringSSL-GRPC/ssl/handshake_server.cc:426-1537 | In every state, an application callback that is not ready is waited for with nothing changed, and makes no difference where none is asked |
| `TlsServerPeer.ErrorIsForEver` | GasNow/Pods/BoringSSL-GRPC/ssl/handshake.cc:491-628 | A machine in error stays so whatever arrives: it says, takes and hashes nothing more |
| `TlsServerPeer.FinishedWasRight` | GasNow/Pods/BoringSSL-GRPC/ssl/handshake.cc:380-429 | Against any peer: when a Finished has been accepted, there was a turn in which the client's Finished over just the transcript of that turn was there, and that transcript and the Finished begin the present one |
| `TlsServerPeer.CipherWasSwitched` | GasNow/Pods/BoringSSL-GRPC/ssl/handshake_server.cc:1365-1377 | Against any peer: a server that has switched its read cipher took, in a turn in which it waited for it and had not switched yet, a ChangeCipherSpec that was next |
| `TlsServerPeer.TurnTakes` | GasNow/Pods/BoringSSL-GRPC/ssl/handshake.cc:491-628 | Against any peer, a turn takes at most one item, the one that came first: a message, which is hashed, or a ChangeCipherSpec, and that only where one is waited for |
| `TlsServerPeer.WrongFinishedStops` | GasNow/Pods/BoringSSL-GRPC/ssl/handshake.cc:396-408 | Any other message there is an error |
| `TlsConnection.Connection.GetFinished` | GasNow/Pods/BoringSSL-GRPC/ssl/handshake.cc:380-429 | Only a Finished computed by the other side over this very transcript is accepted, and it enters the transcript |
| `TlsConnection.Connection.SendFinished` | GasNow/Pods/BoringSSL-GRPC/ssl/handshake.cc:431-476 | The Finished sent covers the transcript before it, then joins it |
| `TlsClientMachine.ClientHandshake.RunStates` | GasNow/Pods/BoringSSL-GRPC/ssl/handshake_client.cc:1707-1789 | In place: states run one after another until one waits or the last is done; against any peer the machine stays in phase and its rank never rises |
| `TlsClientMachine.ClientHandshake.RunHandshake` | GasNow/Pods/BoringSSL-GRPC/ssl/handshake.cc:491-628 | In place, against any peer and any answers of the environment: the loop stops only in error, when done, or when there are no more answers; the machine stays in phase and its rank never rises; and if it is done without TLS 1.3, both ciphers are installed, the peer's Finished was accepted once and its own sent once; a call that takes a full handshake past the verification of the server's certificate has made it, successfully |
| `TlsServerMachine.ServerHandshake.RunStates` | GasNow/Pods/BoringSSL-GRPC/ssl/handshake_server.cc:1539-1621 | In place: the same as for the client |
| `TlsServerMachine.ServerHandshake.RunHandshake` | GasNow/Pods/BoringSSL-GRPC/ssl/handshake.cc:491-628 | In place: the same of loop, phase, rank, ciphers and Finished; a server that insists on a client certificate does not get past its place without one, and a call that gets past its verification or its proof with one has made them, successfully |
| `CipherChoice.ChooseFrom` | GasNow/Pods/BoringSSL-GRPC/ssl/handshake_server.cc:390-423 | The one pass with group_min yields an acceptable cipher of the earliest group that has one and in it the one the other list ranks first; nothing exactly when every acceptable entry lies in a group whose end is unmarked |
| `CipherChoice.ChooseCipher` | GasNow/Pods/BoringSSL-GRPC/ssl/handshake_server.cc:357-424 | With server preference, the best cipher by groups; without, the client's first acceptable cipher; none when the client's list does not parse |
| `CipherChoice.BestIsUnique` | GasNow/Pods/BoringSSL-GRPC/ssl/handshake_server.cc:390-423 | At most one cipher is best |
| `CipherChoice.UngroupedChoice` | GasNow/Pods/BoringSSL-GRPC/ssl/handshake_server.cc:372-377 | Without groups the best cipher is the first acceptable one |
| `CipherChoice.LastFlagEndsItsGroup` | GasNow/Pods/BoringSSL-GRPC/ssl/internal.h:1860-1893 | If the last flag ends its group, nothing is chosen exactly when no cipher is acceptable |
| `CipherChoice.UnterminatedGroupLosesItsCipher` | GasNow/Pods/BoringSSL-GRPC/ssl/internal.h:1860-1893 | Without that, a list whose only cipher is shared yields none |
| `RsaPremaster.SelectPremaster` | GasNow/Pods/BoringSSL-GRPC/ssl/handshake_server.cc:1142-1178 | For every decrypted buffer the result is the embedded premaster if the padding is exactly right and the version matches, and the random one otherwise; buffers under 59 bytes are refused |
| `RsaPremaster.PaddingGoodIffWellFormed` | GasNow/Pods/BoringSSL-GRPC/ssl/handshake_server.cc:1151-1170 | The byte-by-byte test is the PKCS#1 type 2 form of RFC 3447 section 7.2.2 with a premaster of RFC 5246 section 7.4.7.1 |
| `RsaPremaster.ShortIsNotWellFormed` | GasNow/Pods/BoringSSL-GRPC/ssl/handshake_server.cc:1142-1148 | The early error refuses nothing well formed |
| `ConstantTime.MsbWCopiesTopBit` | GasNow/Pods/BoringSSL-GRPC/crypto/internal.h:244-246 | All ones or all zeros as the top bit |
| `ConstantTime.LtWIsLess` | GasNow/Pods/BoringSSL-GRPC/crypto/internal.h:249-300 | The mask of <, and of >=, on all pairs of words |
| `ConstantTime.IsZeroWIsZero` | GasNow/Pods/BoringSSL-GRPC/crypto/internal.h:303-316 | The mask of = 0 |
| `ConstantTime.EqWIsEqual` | GasNow/Pods/BoringSSL-GRPC/crypto/internal.h:325-328 | The mask of = |
| `ConstantTime.SelectWSelects` | GasNow/Pods/BoringSSL-GRPC/crypto/internal.h:351-355 | On a mask, selects one word or the other |
| `ConstantTime.Lt8IsLess` | GasNow/Pods/BoringSSL-GRPC/crypto/internal.h:284-300 | The 8-bit masks of < and of >= |
| `ConstantTime.Mask8` | GasNow/Pods/BoringSSL-GRPC/crypto/internal.h:320-346 | The 8-bit forms are masks too |
| `ConstantTime.Select8Selects` | GasNow/Pods/BoringSSL-GRPC/crypto/internal.h:359-362 | On an 8-bit mask, selects one byte or the other |
| `RefcountC11.EveryRunIsCorrect` | GasNow/Pods/BoringSSL-GRPC/crypto/refcount_c11.c:37-65 | In every interleaving of any number of threads with any spurious failures the completed calls are a history of the atomic counter, the count equals the live references until it saturates, at most one decrement returns 1 and it is the last call, and no call aborts |
| `RefcountC11.StepKeepsInvariant` | GasNow/Pods/BoringSSL-GRPC/crypto/refcount_c11.c:37-65 | Each instruction of any thread keeps that |
| `RefcountC11.SaturatedForEver` | GasNow/Pods/BoringSSL-GRPC/crypto/refcount_c11.c:37-65 | In every run of the compare-and-swap loops, once the count is 0xffffffff it stays so and no later decrement of any thread returns 1 |
| `RefcountLock.EveryRunIsCorrect` | GasNow/Pods/BoringSSL-GRPC/crypto/refcount_lock.c:29-51 | The lock-based twin meets the same specification in every interleaving, with at most one thread inside |
| `RefcountLock.StepKeepsInvariant` | GasNow/Pods/BoringSSL-GRPC/crypto/refcount_lock.c:29-51 | Each memory access of any thread keeps that |
| `RefcountLock.SaturatedForEver` | GasNow/Pods/BoringSSL-GRPC/crypto/refcount_lock.c:29-51 | The same in every run of the locked counter, counting the operations that have taken effect |
| `RefcountSpec.SaturationIsSticky` | GasNow/Pods/BoringSSL-GRPC/crypto/refcount_c11.c:37-65 | In every history of the atomic counter, once it has reached 0xffffffff it stays there and no decrement returns 1 |
| `RefcountSpec.CorrectAfter` | GasNow/Pods/BoringSSL-GRPC/crypto/refcount_lock.c:29-51 | One atomic operation made while a reference is live keeps the history correct |

## Left out

- DtlsSystem.EveryRun: message numbers and the read epoch stay below 2^16, because 65536 is not a multiple of 7; records of epoch 0, which nothing authenticates, are delivered as they were sent or not at all.
- WriterRuns.EveryRun: distinct record numbers are claimed until a 48-bit counter or the epoch wraps.
- PbRoundTrip.MessageRoundTrip: what becomes of a message with a length too large for 32 bits is said only while the whole encoding is shorter than 2^63 bytes, where the length varints are still canonical.
- PbDecoder.DecodeNoInit: what the destination holds after a failure.
- PbDecoder.MessageToDefaults: the storage behind an absent optional or oneof field, which has no value here.
- PbDecoder.FieldToDefault: the same, and the count bytes beside arrays and byte strings.
- PbEncoder.OStream.EncodeFields: what a failed call has written, beyond that it stays within the stream's part of the buffer.
- TlsComposition.EveryRun: TLS 1.2 is spoken, checks succeed, and a server that insists on a client certificate is given one; the channel is reliable and in order, for ChangeCipherSpecs too, over DTLS as over TLS.
- TlsClientMachine.ClientHandshake.RunHandshake: what a state function has already changed when it returns an error, since the machine never runs again.
- TlsServerMachine.ServerHandshake.RunHandshake: the same.
- RefcountC11.EveryRunIsCorrect: the C11 memory model; operations on the counter are taken to be sequentially consistent.
- DTLS record headers and bytes on the wire: a record is its type, number, plaintext and size; malformed headers, ciphertexts longer than any plaintext that fits makes, alert bodies, write shutdown and `flight_has_reply` are not modelled.
- PbLossless.EveryMessageReturns: says nothing of lengths, which are a matter of the single message.
- `crypto_word_t` of 32 bits, and the constant-time comparisons and selections on `int`.
- The replay window's 64-bit map and nanopb's 32-bit words of seen fields are sequences of bits, not machine words.
- `|` of parts that do not overlap is written as addition in the 64-bit varint and fixed-width decoders.
- PbForeign.AnyForm32: varints of more than 37 bytes, for which the 8-bit counter of the 32-bit decoder starts over.
- Pointers and struct layout in nanopb: messages are typed values, one slot a field; only the iterator keeps offsets. Text is what precedes its terminating zero, and what lies behind a string or byte array is not modelled.
- nanopb callbacks, extensions, pointer fields, fixed-count arrays and the build without 64-bit integers.
- Overflow of `size_t`, and the `pb_bytes_array_t` header on platforms whose `pb_size_t` is not 32 bits wide.
- SSL 3.0, TLS 1.3, 0-RTT, renegotiation and handoff, alerts, and the check for leftover handshake data in `tls_record.cc`, which is not part of this model.
- Key exchange, signatures, certificates, session tickets and extensions: a message is its kind and the few parts that steer the machines.
- How cipher preference lists are built and how ciphers and client lists are parsed.
- The Swift app, the other pods and the wall-clock arithmetic of `d1_lib.cc`.
