# A verified model of the PSK-TLS 1.3 stack

This project models the TLS 1.3 stack of the repository: the PSK server session (`src/server.rs`),
the key schedule (`src/key_schedule.rs`), the client connection with its handshake state machine
(`src/connection.rs`, `src/blocking.rs`), the record layer on both sides, and the codecs of the
handshake messages they exchange. `dafny verify dfyconfig.toml` checks everything.

## What is proved

- **The keys are the standard's.** When a new session answers its first ClientHello, with a flight or
  with a HelloRetryRequest and a flight after it, the flight, the handshake keys and the application
  keys are those section 7.1 of RFC 8446 prescribes over the transcript of section 4.4.1
  (`ServerKeys.DirectHandshake`, `ServerKeys.RetriedHandshake`). For every other run it is proved
  exactly when the handshake secret is the standard's (see below). The ClientHellos of the repository's
  own self-loop tests complete the handshake, for all PSKs, identities, randoms and shares, with and
  without a retry (`SelfLoops.DirectLoop`, `SelfLoops.RetryLoop`). The client, from its side, takes any
  flight made with the same keys to application data (`Agreement.ClientAcceptsFlight`).
- **Safety over all runs.** Whatever calls a session receives in whatever order, no nonce repeats under
  a key, at most one HelloRetryRequest is sent, and rejected second ClientHellos change nothing
  (`NonceUse`, `RetryRuns`). Once a session has keys, none of them serves both directions
  (`KeySeparation`; before that, see below). The log these speak of is written by the sealing code
  itself (`TlsServerSession.KeysUsedOnce`). A client reaches application data only after verifying the
  server's Finished (`ClientRuns`).
- **Exact conditions.** For any ClientHello a client could encode, by the lists it carries: when it is
  admitted and when it gets a flight (`Admission`). Over every run: when a session has keys and when a
  handshake is complete (`Keying`, `Completion`). Also which key exchange is chosen, which identity is
  taken, and when an admitted ClientHello is retried (`KexChoice`, `HonestClient`). All of these are
  if-and-only-if.
- **Nothing is lost.** Over one pair of keys, what the client writes the server reads, and what the
  server sends the client reads, byte for byte, for every sequence of calls
  (`Delivery.ServerReadsWhatWasWritten`, `ClientDelivery.ClientReadsWhatServerSent`).
- **The code refines this.** Each stateful type of the source is a class over arrays and mutable
  fields whose methods are proved to do exactly what the specification functions say, including
  every error and the state it leaves behind where the source leaves one that matters.

Nine properties one might expect do not hold of the code as they stand. The model keeps the code and
states exactly when they do hold, with a failing input where the condition does not name one:

- **This client and this server never complete a handshake together.** The client offers P-256 alone
  and only `psk_dhe_ke`; the server takes X25519 alone. So the client's ClientHello never gets a
  flight, and gets a HelloRetryRequest exactly under `NoCommonGroup.ClientHelloOutcome`. Any answer of
  the server, to anyone, ends the client at its first record (`ClientRefusals.EveryAnswerRefused`).
- **Before there are keys, one key serves both directions.** A new session holds one all-zero key, IV
  and counter for both, and nothing asks whether the handshake has begun: it reads back what it seals
  (`KeySeparation.UnkeyedReadsItself`). A sealed record is under the key that is read with exactly when
  no call up to the sealing or the reading entered the handshake (`KeySeparation.KeysMeetExactlyWhen`).
- **Not every ClientHello that follows RFC 8446 is answered.** One that offers TLS 1.2 beside 1.3 is
  always refused, since the version list has room for one (`Admission.TwoVersionsRefused`). An unknown
  group, share group or PSK mode, too many of them, or `compress_certificate` is refused the same way
  (`Admission.Acceptable`, exact by `Admission.AdmittedExactlyWhen`).
- **A handshake can complete without its flight.** A ClientHello that ran out of space behind its
  ServerHello has already brought the keys, and a Finished over the two messages completes
  (`Completion.CompletesWithoutFlight`; exactly when: `Completion.CompleteExactlyWhen`).
- **The client can panic on what it reads**, exactly on an authenticated record with an empty plaintext or
  with a handshake message other than a session ticket, and on an unprotected record with such a
  message (`Panics.PanicsExactlyWhen`).
- The binder boundary reported for a ClientHello is the start of the binder list if and only if
  nothing follows that list (`ClientHellos.BinderBoundary`). The parser rejects a known extension
  after `pre_shared_key`, but skips unknown ones before it looks
  (`BoundaryExample.StrangeExtensionShiftsBoundary`).
- After a ClientHello that failed at the binder check or later, in a session without a retry, the early
  secret is extracted again on top of the chain. The binder key and the flight's keys are the
  standard's if and only if no earlier ClientHello got that far
  (`FirstHello.BinderKeyExactlyWhenNoneAdmitted`, `FirstHello.KeysExactlyWhenNoneAdmitted`; after a
  retry, `RetriedChain.RetriedKeysExactlyWhen`). A ClientHello with the
  standard's binder is then refused unless two MACs collide (`ChainExample.HonestAnsweredExactlyWhen`),
  and one bound to the moved key is answered (`ChainExample.FailureMovesKeys`).
- The client's application keys cover the transcript up to the server's Finished if and only if no
  client certificate was asked for or nothing followed the Finished in its record
  (`ClientRuns.ApplicationDataOnlyAfterVerification`; a run where they cover more is
  `TrailingExample.TrailingReached`).
- Writes make progress if and only if the write buffer has at least 134 bytes, and the 16-bit record
  length is exact if and only if it has at most 65651 (`Writers.ProgressExactlyWhen`,
  `Writers.LengthsExactlyWhen`).

## How to read it

| layer | modules |
|---|---|
| values: crypto, codecs, key schedule | `Crypto`, `KeySchedules`, `Rfc8446`, `ParseBuffers`, `PreSharedKeys`, `Extensions`, `ClientHellos`, `ServerHellos`, `Framing` |
| specification of the two ends | `ServerSpec`, `Writers`, `Readers`, `RecordReaders`, `ServerMessages`, `ClientOffers`, `ClientSpec` |
| theorems about the specification | `ServerKeys`, `NonceUse`, `Keying`, `KeySeparation`, `RetryRuns`, `Admission`, `HonestClient`, `Flights`, `FirstHello`, `RetriedChain`, `KexChoice`, `AppRecords`, `Completion`, `Panics`, `ClientBinders`, `ClientRuns`, `Agreement`, `SelfLoops`, `NoCommonGroup`, `ClientRefusals`, `Delivery`, `ClientDelivery` |
| inputs where an expected property fails | `BoundaryExample`, `ChainExample`, `TrailingExample` |
| the code in its own form | `CryptoBuffers`, `OutWriters`, `ServerWriters`, `ClientWriters`, `Sealing`, `Decrypts`, `ServerSessions`, `WriteBuffers`, `ClientConnections`, `Hostnames`, and the classes in `Writers`, `Readers`, `RecordReaders` |

**Cryptography.** Hash, HMAC, HKDF and AEAD results are symbolic terms with a byte value each
(`Crypto.Term`, `Crypto.Crypto`). All that is used of a suite is the length of each result, that an
unset secret is all zeros, and that opening accepts exactly what sealing makes under the same key,
nonce and additional data. X25519 and the client's key agreement are functions of secret and public
value; of the client's it is known that it takes only encoded P-256 points, of 33 or 65 bytes. That two
ends compute the same shared value is a premise wherever it is needed, never a conclusion.

**Nonces.** `NonceUse.NoncesNeverRepeat` speaks of keys as terms, that is, by how they are derived. Two
different derivations count as two keys.

**Errors.** `NoSpace` stands for both `InsufficientSpace` and `EncodeError`. `CounterExhausted` is the
panic of `increment_counter` at 2^64. `Panicked` is the client's other panics on received data
(an `unwrap` on an empty plaintext, an `unimplemented!` message type). At the counter limit a call
seals nothing here; the source has sealed the record into the caller's buffer by the time it panics,
and the panic ends the session.

**Outside.** Random values, key pairs, certificate bytes, signatures and certificate checks are
parameters. The transport is an object that hands out any non-empty part of what was asked for.
Logging is dropped.

**Where names or comments and code differ, the model follows the code.** The length a handshake message
announces is read by the client and then not used (`src/handshake/mod.rs:202-241`). An unprotected
alert is sent under the record type ChangeCipherSpec (`src/record.rs:46-54`). A share of the wrong
length is refused where it is found, not by the caller (`src/server.rs:738-766`).

## Model

| member | source | states |
|---|---|---|
| `Agreement.ServerCompletes` | src/server.rs:462-554 | On a session with section 7.1's handshake keys, the Finished made with the client's secret over CH..server Finished completes the handshake with the application keys over the same messages. |
| `Agreement.FlightMessagesRead` | src/handshake/mod.rs:185-241 | The client's message reader takes ServerHello, empty EncryptedExtensions and Finished of a flight whole, whatever stands for the certificate parsers. |
| `Agreement.ClientAcceptsFlight` | src/connection.rs:387-636 | A flight with a share the client can agree on, protected as section 7.1 prescribes, takes the client from its own ClientHello to application data, with that section's handshake keys before and application keys after its Finished. |
| `NoCommonGroup.ClientHelloOutcome` | src/server.rs:309-460 | For every session, config and buffer: the ClientHello this client encodes never gets a flight; it gets a HelloRetryRequest if and only if the two ends match, X25519 is among its groups, none was sent before, the binder is accepted and the record fits. |
| `NoCommonGroup.AdmittedExactlyWhen` | src/server.rs:319-337 | When that ClientHello passes the checks before the binder's, over the whole configuration, host names and protocol names included; the decision is then a retry. |
| `NoCommonGroup.BodyOf` | src/handshake/client_hello.rs:83-152 | Each extension the client writes is read back by the server as its kind and contents, or refused, exactly when its names are well-formed. |
| `NoCommonGroup.OfferBody` | src/extensions/extension_data/pre_shared_key.rs:19-112 | The client's PSK offer is read back exactly when it has an identity and none is empty, and refused otherwise. |
| `NoCommonGroup.DheOnlyDecision` | src/server.rs:620-685 | A client that sends only psk_dhe_ke and no X25519 share is asked to retry if it can be, refused otherwise, and never answered. |
| `NoCommonGroup.FreshBinderAccepted` | src/server.rs:344-365 | With the server's PSK the client's binder is accepted on a new session: nothing but the missing share stands in the way. |
| `ClientRefusals.EveryAnswerRefused` | src/connection.rs:410-436 | Whatever this server answers, to whatever ClientHello on whatever session, the first record ends this client: InvalidKeyShare for a flight, a decode error for a retry. |
| `ClientRefusals.FlightRefused` | src/handshake/server_hello.rs:58-72 | A 32-byte share, or none, is no P-256 point: every flight ends the client with InvalidKeyShare. |
| `ClientRefusals.RetryRefused` | src/handshake/server_hello.rs:21-56 | The key share of a HelloRetryRequest does not parse as a ServerHello's. |
| `ServerKeys.DirectHandshake` | src/server.rs:341-554 | Without a retry: flight bytes, handshake keys and application keys equal section 7.1 of RFC 8446 over CH, SH and CH..server Finished. |
| `ServerKeys.RetriedHandshake` | src/server.rs:341-554 | With a retry, after any number of rejected second ClientHellos: the same with CH1 replaced by message_hash and HRR (section 4.4.1). |
| `ServerKeys.FlightIsRfc` | src/server.rs:392-459 | A flight leaves the schedule at the handshake keys over CH..SH and its bytes are the three records of the standard. |
| `ServerKeys.FinishedIsRfc` | src/server.rs:462-554 | An accepted client Finished leaves application keys over CH..server Finished, with the client Finished hashed only afterwards. |
| `ServerKeys.RetryLeaves` | src/server.rs:847-924 | What a HelloRetryRequest leaves: early secret of that PSK, transcript message_hash then HRR, CH1's random and session id pinned. |
| `NonceUse.NoncesNeverRepeat` | src/server.rs:1020-1193 | Over every sequence of calls, failing or not: no two sealed records share key and nonce. The session's methods log every seal they make. |
| `NonceUse.StepIsFresh` | src/key_schedule.rs:111-193 | Each call keeps: every key sealed under so far has smaller derivation depth, or is the current key with smaller counters. |
| `KeySeparation.SealedNeverRead` | src/key_schedule.rs:170-189 | Over every sequence of calls: once a session has keys, no record it seals, before or after, is under a key it reads with. |
| `KeySeparation.KeysMeetExactlyWhen` | src/key_schedule.rs:145-168 | A record sealed by one call is under the key the session reads with after another exactly when no call up to either of them entered the handshake. |
| `KeySeparation.OnlyZeroShared` | src/key_schedule.rs:145-168 | The same by the key: the two directions share only the all-zero one, and only while there are no keys. |
| `KeySeparation.UnkeyedReadsItself` | src/server.rs:1142-1256 | A new session seals under the key, IV and counter it reads with, and takes its own record for the client's. |
| `Keying.KeysExactlyWhenEntered` | src/server.rs:392-447 | Over every run: a session has traffic keys exactly when one of its ClientHellos was admitted without a retry, had the right binder, and its ServerHello fitted with a usable shared secret. |
| `Keying.StepKeying` | src/key_schedule.rs:170-189 | One call: keys are there afterwards exactly when they were before or the call entered the handshake; until then both directions are all zero. |
| `KeySeparation.LabelsSeparate` | src/key_schedule.rs:46-89 | The nine labels give pairwise different terms from one secret, whatever contexts and lengths. |
| `RetryRuns.AtMostOneRetry` | src/server.rs:157-163 | Over every run: at most one HelloRetryRequest, its snapshot never changes, and a later flight answers CH1's random and session id. |
| `RetryRuns.RejectionsKeepSession` | src/server.rs:319-365 | After a retry, any number of ClientHellos rejected at or before the binder check leave the whole session unchanged. |
| `HonestClient.RetrySurvivesRejections` | src/server.rs:319-459 | A second ClientHello that passes the checks, with a binder made with the PSK, still gets the same DHE flight after any number of rejected ones. |
| `HonestClient.HonestHelloAnswered` | src/server.rs:309-460 | A ClientHello that passes the checks, first or second, with a binder made with the PSK is answered with the flight section 7.1 prescribes. |
| `HonestClient.HelloAnsweredExactlyWhen` | src/server.rs:341-459 | A ClientHello that passed the checks gets a flight if and only if its binder matches, the flight fits and the shared secret is not zero. |
| `HonestClient.RetrySentExactlyWhen` | src/server.rs:367-390 | A ClientHello that has to be retried gets the HelloRetryRequest, the rewritten transcript and the pinned fields if and only if its binder matches and the record fits; otherwise nothing but the early secret changes. |
| `HonestClient.OfferAnsweredExactlyWhen` | src/server.rs:341-459 | On any session without a retry, an offer the server can use is answered if and only if its binder is the MAC over everything before the binder list under the key the session has. |
| `Admission.AnsweredExactlyWhen` | src/server.rs:309-460 | Any ClientHello from any client, by the lists it carries: it gets a flight if and only if the parser takes every list, the lists offer what the server needs, the binder beside the identity is the MAC, and the flight can be sent. |
| `Admission.AdmittedExactlyWhen` | src/server.rs:319-337 | It passes the checks before the binder's if and only if every list is taken, exactly TLS 1.3 is offered with the suite, a key exchange is possible and the identity is offered. |
| `Admission.TwoVersionsRefused` | src/extensions/messages.rs:20-22 | A ClientHello that offers TLS 1.2 beside 1.3 is refused, whatever else it holds. |
| `Admission.ItemJudged` | src/extensions/messages.rs:19-44 | Each extension is kept with its list, skipped or refused, exactly by the bounds and code points of its list: one version, known groups, share groups and modes, named identities with uniform binders, no compress_certificate. |
| `Admission.PsksExactlyWhen` | src/extensions/extension_data/pre_shared_key.rs:19-86 | An encoded offer, with any ticket ages, is read exactly when it has one to four named identities and as many binders of one length of at least 32. |
| `Admission.CollectExactlyWhen` | src/extensions/extension_group_macro.rs:67-95 | A list of extensions is read exactly when each is acceptable and at most sixteen are kept. |
| `Admission.ListExactlyWhen` | src/parse_buffer.rs:150-166 | A list is read exactly when it has room and every element is good. |
| `Admission.ReadWhole` | src/handshake/client_hello.rs:229-345 | Such a message is read whole, its lists as they were sent, the boundary before its binders. |
| `Admission.NotReadWhole` | src/handshake/client_hello.rs:229-345 | Any other message is not, also one too long for its 16-bit length. |
| `Flights.FlightIsThreeRecords` | src/server.rs:929-1134 | Every flight, on any session, frames into exactly three records: a ServerHello that parses to TLS 1.3, the share exactly in DHE mode and the identity index; then EncryptedExtensions and Finished opening under the session's own server keys at counters 0 and 1. |
| `Flights.RfcFlightFrames` | src/server.rs:1020-1134 | The flight section 7.1 prescribes frames into these three records, for any ServerHello. |
| `FirstHello.KeysExactlyWhenNoneAdmitted` | src/server.rs:346-350 | A first flight's handshake secret is section 7.1's if and only if no earlier ClientHello of the session got past the checks before the binder's. |
| `FirstHello.BinderKeyExactlyWhenNoneAdmitted` | src/server.rs:344-365 | On a run without a retry, binders are checked against section 7.1's binder key if and only if no call admitted a ClientHello. |
| `RetriedChain.RetriedKeysExactlyWhen` | src/server.rs:341-459 | After a retry, a flight's handshake secret is section 7.1's over the session's transcript if and only if no call before the retry admitted a ClientHello and none since entered the handshake. |
| `ChainExample.HonestAnsweredExactlyWhen` | src/server.rs:341-365 | After any calls without a retry, an honest ClientHello is answered exactly when its MAC is also the MAC under the session's key, and that is the standard's key exactly when none was admitted before. |
| `ChainExample.FailureMovesKeys` | src/server.rs:346-350 | A ClientHello with a wrong binder is refused; one bound to the key the server then has is answered, with handshake keys that are not section 7.1's. |
| `FirstHello.StepChain` | src/server.rs:346-350 | One call leaves the secret chain untouched if and only if it admits no ClientHello. |
| `AppRecords.ReceivesExactlyWhatWasSent` | src/server.rs:1329-1386 | From a peer sealing any data and alerts with any padding, with foreign records interleaved, exactly that sequence comes out and the counters stay in step. |
| `AppRecords.MarkerFound` | src/server.rs:1360-1366 | Stripping padding finds the type marker even if the content ends in zeros. |
| `KexChoice.KexExactlyWhen` | src/server.rs:574-735 | Each of the six outcomes holds exactly when, for every list of extensions: DHE whenever a share allows it, plain PSK only otherwise, retry only as the last resort and once, and a malformed share aborts exactly when forward secrecy was to be used. |
| `KexChoice.ShareExactlyWhen` | src/server.rs:738-766 | The share used is the first X25519 entry; it is refused exactly when it is not 32 bytes. |
| `KexChoice.LocateExactlyWhen` | src/server.rs:768-797 | The identity is found at its first place in the first offer, with the binder at the same place, and refused exactly when no offer holds it. |
| `AppRecords.FinishedExactlyWhen` | src/server.rs:462-554 | The client's Finished is accepted if and only if its record opens to a Finished message with the MAC over the transcript, marked as handshake, with any padding; a refusal moves nothing but the client's counter. |
| `Completion.CompleteExactlyWhen` | src/server.rs:462-554 | Over every run: a call completes the handshake exactly when it brings the Finished for the session's client secret and transcript and some ClientHello before it entered the handshake. |
| `Completion.CompletesWithoutFlight` | src/server.rs:392-459 | A ClientHello refused for lack of space behind its ServerHello is completed by a Finished over ClientHello and ServerHello alone. |
| `AppRecords.FinishExactlyWhen` | src/server.rs:505-554 | The same after decryption, with the application keys and the transcript an accepted one leaves. |
| `SelfLoops.DirectLoop` | src/server.rs:1875-2081 | What the DHE self-loop test checks for one set of values, for all: the test's ClientHello gets the flight of section 7.1 and the client's Finished completes the handshake with its application keys. |
| `SelfLoops.RetryLoop` | src/server.rs:2179-2446 | The same for the HelloRetryRequest self-loop: retry, any number of rejected attempts, second ClientHello, flight, Finished. |
| `SelfLoops.OfferFinishes` | src/server.rs:309-557 | Every honest offer that is answered leads to a handshake the client's Finished completes. |
| `SelfLoops.OfferRetried` | src/server.rs:656-674 | An offer that decides for a retry, with a matching binder, is answered by one and admitted with its own fields. |
| `ServerSpec.Admit` | src/server.rs:319-337 | An admitted ClientHello parsed completely, its binder boundary is inside the message, DHE comes with a key pair and a 32-byte share, a retry only without an earlier one, and pinned fields are unchanged. |
| `ServerSpec.DecideKex` | src/server.rs:620-685 | DHE is never chosen without a key pair and a 32-byte share (so the later checks for them cannot fail), nor a second retry. |
| `ServerSpec.IndexOf` | src/server.rs:786-790 | The least index holding the identity, or none. |
| `ServerSpec.OpenRecord` | src/server.rs:1205-1250 | A record that fails framing, size or authentication leaves the schedule unchanged; one that opens only advances the client counter. |
| `ServerSpec.LastNonZero` | src/server.rs:1251-1254 | The last non-zero byte, everything after it being zero. |
| `ServerSpec.FinishedVerify` | src/server.rs:518-532 | Accepts exactly a Finished message with 32 bytes of verify data and nothing after it. |
| `ServerSessions.TlsServerSession.ProcessClientHello` | src/server.rs:309-460 | On any bytes, config and buffer: new session, reply, output buffer and logged seals are those of the specification; no access is out of range. |
| `ServerSessions.TlsServerSession.CheckHello` | src/server.rs:319-337 | The checks before the binder, in the source's order, give the specified result or error. |
| `ServerSessions.TlsServerSession.CheckBinder` | src/server.rs:344-365 | The early secret is derived on a first ClientHello only; the binder is checked over retry transcript and prefix. |
| `ServerSessions.TlsServerSession.SendHelloRetry` | src/server.rs:367-390 | The HelloRetryRequest in the buffer, the transcript rewritten, the snapshot taken. |
| `ServerSessions.TlsServerSession.EnterHandshake` | src/server.rs:409-447 | Handshake secret from the shared secret, or zeros without DHE; an all-zero shared secret aborts with the schedule unchanged. |
| `ServerSessions.TlsServerSession.SendEncrypted` | src/server.rs:449-459 | EncryptedExtensions and Finished sealed in place behind the ServerHello, as specified also when space runs out between them. |
| `ServerSessions.TlsServerSession.SendFirstFlight` | src/server.rs:392-459 | The whole flight, with the session the specification leaves at each point where it can fail. |
| `ServerSessions.TlsServerSession.ProcessClientFinished` | src/server.rs:462-554 | Session, reply and logged seals are those of the specification, with the decryption done in a 256-byte buffer. |
| `ServerSessions.TlsServerSession.OpenInto` | src/server.rs:1214-1250 | Framing checks and in-place decryption: the plaintext is at the front of the buffer. |
| `ServerSessions.TlsServerSession.EncryptAppData` | src/server.rs:1142-1193 | The caller's buffer starts with the sealed record; counters, errors and the logged seal as specified. |
| `ServerSessions.TlsServerSession.EncryptAlertRecord` | src/server.rs:1266-1315 | The same for an alert. |
| `ServerSessions.TlsServerSession.DecryptAppData` | src/server.rs:1205-1256 | Only application data is returned; anything else is an invalid record, and the counter still moves. |
| `ServerSessions.TlsServerSession.DecryptAppDataOrAlert` | src/server.rs:1329-1386 | Data, alert or error as specified, the data lying in the caller's buffer. |
| `ServerSessions.TlsServerSession.KeysUsedOnce` | src/server.rs:1020-1193 | Of the object, after any calls: no key was used twice with one nonce, and any key sealed under is the one read with exactly if there are no keys yet and it is the all-zero one. |
| `ServerSessions.TlsServerSession.AnswerHello` | src/server.rs:341-459 | After the checks: binder, then retry or flight, leaving session, buffer and seals as specified. |
| `ServerSessions.FindX25519Share` | src/server.rs:738-766 | The loop over the shares returns the first X25519 share, none, or the length error. |
| `ServerSessions.ChooseKex` | src/server.rs:620-685 | The decision tree computes the specified choice. |
| `ServerSessions.ParseFinished` | src/server.rs:518-532 | Cursor reads accept exactly a well-formed Finished. |
| `OutWriters.OutWriter.Append` | src/server.rs:815-823 | Appends in full or leaves the output unchanged and reports no space. |
| `OutWriters.EndMessage` | src/server.rs:898-904 | Patched lengths turn placeholders and body into a well-formed record around a well-formed message. |
| `ServerWriters.EncodeServerHello` | src/handshake/server_hello.rs:112-145 | Writes the canonical ServerHello body, or reports no space, exactly when it does not fit. |
| `ServerWriters.EncodeExt` | src/extensions/extension_group_macro.rs:21-27 | Type, back-patched length and data of one extension. |
| `ServerWriters.EncodeShareInto` | src/extensions/extension_data/key_share.rs:86-92 | Group, back-patched length and key of one share. |
| `ServerWriters.WriteServerHello` | src/server.rs:929-1015 | The ServerHello record is written and its message hashed, or neither. |
| `ServerWriters.WriteRetry` | src/server.rs:847-927 | The HelloRetryRequest record is written and the transcript becomes message_hash then HRR, or neither. |
| `ServerWriters.WriteEncrypted` | src/server.rs:1020-1098 | Header, message and marker sealed in place under the server's key and the counter advanced; nothing hashed or sealed unless all fits. |
| `ServerWriters.EncodeEncrypted` | src/server.rs:1100-1134 | EncryptedExtensions or Finished with the MAC over the transcript so far, in the given slice. |
| `Sealing.SealRecord` | src/server.rs:1049-1095 | Sealing in place yields a record whose header is its own additional data; bytes before it are untouched. |
| `Sealing.EncryptInPlace` | src/server.rs:1078-1087 | Plaintext becomes ciphertext and tag; nothing else in the buffer changes. |
| `Crypto.HkdfLabelInjective` | src/key_schedule.rs:46-89 | The HkdfLabel encoding determines length, label and context, whatever the context. |
| `Crypto.MakeExpandedHkdfLabel` | src/key_schedule.rs:46-89 | Succeeds exactly when a secret is there and label and context fit the fixed buffer; the result is then HKDF-Expand-Label of section 7.1. |
| `Crypto.NonceInjective` | src/key_schedule.rs:379-399 | For a fixed IV, different counters below 2^64 give different nonces. |
| `Crypto.GetNonce` | src/key_schedule.rs:379-399 | The loop XORs the left-padded big-endian counter into the IV. |
| `Crypto.Pad` | src/key_schedule.rs:401-414 | The reverse loop leaves the input right-aligned behind zeros. |
| `KeySchedules.KeySchedule.InitializeEarlySecret` | src/key_schedule.rs:421-434 | Extracts from the PSK or zeros, keeps the binder key, and replaces the secret by its derived successor. |
| `KeySchedules.KeySchedule.InitializeHandshakeSecret` | src/key_schedule.rs:436-449 | Both directions get the handshake keys over the transcript, counters zero, and the chain moves on. |
| `KeySchedules.KeySchedule.InitializeMasterSecret` | src/key_schedule.rs:451-459 | The same for the application keys, with zeros as input. |
| `KeySchedules.KeySchedule.CalculateTrafficSecret` | src/key_schedule.rs:170-189 | Secret, key and IV of one direction over the transcript; counter zero. |
| `KeySchedules.KeySchedule.DeriveNext` | src/key_schedule.rs:126-129 | The secret becomes its own "derived" expansion; without a secret nothing changes. |
| `KeySchedules.KeySchedule.VerifyPskBinder` | src/key_schedule.rs:303-321 | True exactly for the MAC over the prefix under the binder key. |
| `KeySchedules.KeySchedule.CreatePskBinder` | src/key_schedule.rs:514-530 | Creates what `VerifyPskBinder` accepts. |
| `KeySchedules.KeySchedule.CreateServerFinished` | src/key_schedule.rs:327-348 | The MAC over the transcript under the server's traffic secret. |
| `KeySchedules.KeySchedule.VerifyClientFinished` | src/key_schedule.rs:355-377 | True exactly for the MAC over the given transcript under the client's traffic secret. |
| `ParseBuffers.ReadAll` | src/parse_buffer.rs:150-166 | The list loop reads exactly what the recursive list grammar gives, with its bound and errors. |
| `ParseBuffers.ListRoundTrip` | src/parse_buffer.rs:150-166 | A list of encoded elements within the bound reads back as those elements. |
| `ParseBuffers.ListSound` | src/parse_buffer.rs:150-166 | Whatever list is read, the input was the encoding of its elements. |
| `ParseBuffers.ParseBuffer.Slice` | src/parse_buffer.rs:50-58 | The next n bytes, or an error without moving. |
| `ParseBuffers.ParseBuffer.ReadU24` | src/parse_buffer.rs:81-94 | Three big-endian bytes, or an error without moving. |
| `PreSharedKeys.Parse` | src/extensions/extension_data/pre_shared_key.rs:19-86 | Both loops compute the grammar of the extension: bounds, uniform binder length, one binder per identity. |
| `PreSharedKeys.PsksRoundTrip` | src/extensions/extension_data/pre_shared_key.rs:19-112 | 1 to 4 non-empty identities and as many binders of one length between 32 and 255 parse back, with that length as hash size, leaving exactly what followed. |
| `PreSharedKeys.PsksSound` | src/extensions/extension_data/pre_shared_key.rs:19-86 | Whatever is accepted ends in the canonical encoding of the accepted binders. |
| `ServerHellos.KeySharesRoundTrip` | src/extensions/extension_data/key_share.rs:29-92 | Up to four shares parse back from their encoding. |
| `Extensions.ParseVector` | src/extensions/extension_group_macro.rs:67-95 | The loop keeps known extensions in order, skips unknown types, stops at the first error, within its bound. |
| `Extensions.VectorOfEncoded` | src/extensions/extension_group_macro.rs:21-95 | A framed list with nothing after it parses to its known extensions, or to the first error among them. |
| `Extensions.VectorAt` | src/extensions/extension_group_macro.rs:67-95 | A vector anywhere in a message is read from its own bytes and leaves exactly what follows them. |
| `Extensions.VectorIsEncoded` | src/extensions/extension_group_macro.rs:67-95 | Whatever vector is accepted was such a framed list. |
| `ClientHellos.Parse` | src/handshake/client_hello.rs:229-345 | The cursor parser computes the ClientHello grammar, error for error. |
| `ClientHellos.ParseExtensions` | src/handshake/client_hello.rs:284-336 | Extensions, then the boundary computed from what is left of the message. |
| `ClientHellos.LongListRefused` | src/handshake/client_hello.rs:229-345 | A list longer than its 16-bit length is never accepted. |
| `ClientHellos.HelloRoundTrip` | src/handshake/client_hello.rs:229-345 | Every canonical ClientHello parses to its fields and known extensions, with nothing left. |
| `ClientHellos.BinderBoundary` | src/handshake/client_hello.rs:286-336 | Where the binder list of an accepted message really starts; the reported boundary is that place if and only if nothing follows the list. |
| `BoundaryExample.StrangeExtensionShiftsBoundary` | src/extensions/extension_group_macro.rs:86-88 | A message ending in an unknown extension is accepted with a boundary five bytes too late. |
| `ClientHellos.FindBoundary` | src/handshake/client_hello.rs:286-336 | Search and summing loop give the boundary, or the error for a misplaced or repeated PSK extension. |
| `ClientBinders.Finalize` | src/handshake/client_hello.rs:157-193 | Binders over everything before the binder list are patched in, and the transcript grows by the whole final message. |
| `ClientBinders.FinalizedIsCanonical` | src/handshake/client_hello.rs:157-193 | The patched buffer is the canonical message with those binders; what was hashed is all before its binder list. |
| `ClientBinders.ClientBindersVerify` | src/handshake/client_hello.rs:286-336 | Every binder a client makes verifies on a server with the same PSK, after any earlier transcript. |
| `ClientWriters.EncodeClientHello` | src/handshake/client_hello.rs:58-155 | From the configuration: writes the canonical message with the source's own list of extensions and zeros for binders, or reports no space, exactly when it does not fit. |
| `ClientWriters.EncodePskData` | src/extensions/extension_data/pre_shared_key.rs:88-112 | Identities with zero ticket age, binder length and placeholder, exactly when they fit. |
| `ClientWriters.EncodeShares` | src/extensions/extension_data/key_share.rs:37-45 | The prefixed share list, exactly when it fits. |
| `ClientWriters.ListExtensions` | src/handshake/client_hello.rs:83-152 | The extensions in the order the source pushes them, the optional ones exactly when configured, the offer last. |
| `ClientWriters.EncodeName` | src/extensions/extension_data/server_name.rs:58-112 | The name list with its one name, exactly when it fits. |
| `ClientWriters.EncodeCodes` | src/extensions/extension_data/supported_groups.rs:75-104 | The prefixed list of code points, exactly when it fits. |
| `ClientWriters.EncodeProtocols` | src/extensions/extension_data/alpn.rs:45-57 | The prefixed list of protocol names, exactly when it fits. |
| `ClientOffers.EncodedIsToFinalize` | src/handshake/client_hello.rs:143-153 | With the offer last, what is encoded is what `finalize` starts from. |
| `ClientOffers.FinalizedIsSent` | src/handshake/client_hello.rs:157-193 | What `finalize` makes of the encoded message is the message sent, its binders over everything before the binder list. |
| `ServerHellos.ServerHelloRoundTrip` | src/handshake/server_hello.rs:21-56 | A ServerHello body parses back to its extensions, whatever random, session id and known suite. |
| `ServerHellos.FlightHelloParses` | src/handshake/server_hello.rs:112-145 | The server's own ServerHello announces its length correctly and parses to version, share and index. |
| `CryptoBuffers.CryptoBuffer.ExtendFromSlice` | src/buffer.rs:99-113 | Appends in full or leaves the contents unchanged. |
| `CryptoBuffers.CryptoBuffer.EndU16` | src/buffer.rs:187-201 | Overwrites only the placeholder, with the number of bytes since, truncated to 16 bits. |
| `CryptoBuffers.PatchedPrefix` | src/buffer.rs:187-201 | A placeholder patched after its body gives length then body. |
| `CryptoBuffers.CryptoBuffer.MoveTo` | src/buffer.rs:149-169 | Moving the start keeps the end of the contents where it is. |
| `CryptoBuffers.CryptoBuffer.Truncate` | src/buffer.rs:123-127 | Sets the length, unless it is more than the buffer holds. |
| `WriteBuffers.WriteBuffer.StartRecord` | src/write_buffer.rs:188-204 | An open record with the right three header bytes and an empty payload. |
| `WriteBuffers.WriteBuffer.Append` | src/write_buffer.rs:159-166 | Takes everything, or as much as fills the record; the payload grows by exactly that. |
| `WriteBuffers.WriteBuffer.SealPayload` | src/write_buffer.rs:236-245 | Marker and tag always fit in the reserved space; header bytes survive. |
| `WriteBuffers.WriteBuffer.CloseRecord` | src/write_buffer.rs:222-257 | The emitted bytes are the record whose five header bytes are the additional data it was sealed with. |
| `WriteBuffers.WriteBuffer.WriteRecord` | src/write_buffer.rs:259-287 | A whole record, exactly when it fits; refused while another is open. |
| `WriteBuffers.Encrypt` | src/connection.rs:96-129 | Seals the contents in place when the tag fits behind them, and only then. |
| `Writers.WritesConserved` | src/blocking.rs:135-177 | For every mix of writes and flushes: sealed payloads then buffered payload are the accepted bytes, in order. |
| `Writers.OnlyFullRecords` | src/blocking.rs:150-152 | Without a flush every sealed record is full. |
| `Writers.ProgressExactlyWhen` | src/write_buffer.rs:113-131 | Every non-empty write takes a byte if and only if the buffer has at least 134 bytes. |
| `Writers.LengthsExactlyWhen` | src/write_buffer.rs:246-249 | Every record's 16-bit length is exact if and only if the buffer has at most 65651 bytes. |
| `Writers.RecordsOnTheWire` | src/connection.rs:111-128 | Framing the emitted bytes gives exactly the records, each under its own header as additional data, at successive counters. |
| `Writers.RecordNoncesDiffer` | src/blocking.rs:160-177 | For every mix of writes and flushes, the bytes that go out are records of which no two are sealed under the same nonce. |
| `Writers.TlsWriter.Write` | src/blocking.rs:135-156 | The number taken and the new state are the specified ones; nothing changes before the handshake. |
| `Writers.TlsWriter.Flush` | src/blocking.rs:160-177 | The open record, if any, goes on the wire, and the counter moves by one per record. |
| `Writers.TlsWriter.Close` | src/blocking.rs:233-253 | What is buffered goes out before the close_notify, which is protected once the handshake is done. |
| `Delivery.ServerReadsWhatWasWritten` | src/blocking.rs:135-177 | The server session reads, record by record, exactly the bytes the client's writes accepted, but for what is still buffered. |
| `RecordReaders.ReadsTheStreamExactlyWhen` | src/record_reader.rs:127-144 | Reading to the end yields exactly the records of the stream if and only if each has a known type and fits the buffer. |
| `RecordReaders.RecordReader.ReadRecord` | src/record_reader.rs:127-144 | However the bytes arrive: header and body of the next record, the body in the buffer, nothing pending; or the specified error. |
| `RecordReaders.RecordReader.Advance` | src/record_reader.rs:204-226 | The read loop collects exactly the wanted bytes, for every chunking. |
| `RecordReaders.RecordReader.EnsureContiguous` | src/record_reader.rs:245-264 | Room for the record or an error; pending bytes keep their contents when they move to the front. |
| `RecordReaders.ReadHeader` | src/record_reader.rs:162-177 | Five bytes, for every chunking; unknown types and early ends are errors. |
| `Decrypts.OpenContent` | src/connection.rs:46-67 | In-place decryption leaves exactly the content in the buffer and returns its type. |
| `Decrypts.StripContent` | src/connection.rs:51-67 | Padding and type are cut off in place, leaving exactly the content. |
| `Decrypts.ContentEnd` | src/connection.rs:51-67 | Everything after the type byte is zero padding. |
| `ServerMessages.TranscriptGrowsByRecord` | src/connection.rs:69-77 | An accepted record adds exactly its plaintext to the transcript, however many messages it holds. |
| `ServerMessages.PartsTile` | src/connection.rs:69-77 | The messages of a record cover it without gap or overlap. |
| `ServerMessages.FinishedHash` | src/handshake/mod.rs:185-200 | Each Finished comes with the hash of everything before it. |
| `ServerMessages.DecodeCoalesced` | src/connection.rs:69-77 | The loop handles the messages as the recursive reading does, stopping at the first error. |
| `ServerMessages.GetMessage` | src/handshake/mod.rs:202-241 | A message reader takes a non-empty prefix, and a Finished takes exactly 36 bytes. |
| `Readers.NothingLostOrRepeated` | src/blocking.rs:189-231 | For every mix of `read`, `fill_buf` and `consume`: what was taken, then all still to come, is the concatenation of the decrypted payloads. |
| `Panics.PanicsExactlyWhen` | src/common/decrypted_read_handler.rs:15-63 | Reading panics exactly on a protected record with an empty plaintext or with a handshake message that is no session ticket, and on an unprotected record with such a message. |
| `Panics.OpenPanicsExactlyWhen` | src/connection.rs:46-58 | Opening a record panics exactly when its plaintext is empty. |
| `Readers.TlsReader.ReadApplicationData` | src/blocking.rs:214-231 | Reads and handles one record as specified; only called when nothing unread could be overwritten. |
| `Readers.TlsReader.Fill` | src/blocking.rs:202-212 | Reads records until there is something to read. |
| `Readers.TlsReader.Read` | src/blocking.rs:189-199 | Copies the next bytes of the stream, at least one for a non-empty buffer. |
| `Readers.TlsReader.FillBuf` | src/blocking.rs:316-318 | Shows all that is buffered and consumes nothing. |
| `Readers.TlsReader.Consume` | src/blocking.rs:320-322 | Takes bytes off the front, never more than there are. |
| `Readers.TlsReader.HandleOpened` | src/common/decrypted_read_handler.rs:15-63 | Only application data moves the window; close_notify closes the connection. |
| `Readers.TlsReader.HandlePlainRecord` | src/record.rs:192-221 | What an unprotected record does to the reader. |
| `Readers.ReadBuffer.Pop` | src/read_buffer.rs:54-61 | The next bytes, never twice. |
| `Readers.ReadBuffer.Peek` | src/read_buffer.rs:36-50 | The next bytes, none consumed. |
| `Readers.ReadBuffer.Drop` | src/read_buffer.rs:86-95 | Books what was popped, or everything if the buffer was never looked at. |
| `Readers.DecryptedBufferInfo.CreateReadBuffer` | src/common/decrypted_buffer_info.rs:11-15 | A view of exactly what has not been consumed. |
| `ClientDelivery.ClientReadsWhatServerSent` | src/blocking.rs:189-231 | What a server session seals, a client on the same keys reads in order by any mix of calls, for every buffer that holds the records. |
| `ClientDelivery.ClientReadsWhatWasSealed` | src/connection.rs:41-82 | The same for any peer sealing payloads at successive counters, empty ones and ones ending in zeros included. |
| `ClientRuns.ApplicationDataOnlyAfterVerification` | src/connection.rs:410-538 | Every run to application data verified a server Finished against the transcript before it, holds section 7.1's application keys over the remaining transcript, and that ends at the Finished if and only if no client certificate went out or the Finished ended its record. |
| `TrailingExample.TrailingCovered` | src/connection.rs:438-499 | Any client without a certificate: CertificateRequest, Finished and one more message in one record leave it with application keys that cover that message too. |
| `TrailingExample.TrailingReached` | src/connection.rs:438-636 | One such run from a new connection, with a concrete configuration, to application data. |
| `ClientRuns.FieldsPopulated` | src/connection.rs:410-538 | In every reachable state the fields it takes are there, so the errors for missing ones cannot occur. |
| `ClientRuns.RunKeeps` | src/connection.rs:235-297 | What each state of a run has: which keys, over which transcript, and which Finished was verified. |
| `ClientRuns.ConcludedKept` | src/connection.rs:438-499 | Whatever messages a record held, the state it leads to has what it needs. |
| `ClientRuns.CertificateKeeps` | src/connection.rs:501-538 | The certificate path keeps the verified Finished and takes the snapshot before its own message. |
| `ClientRuns.VerifyKeeps` | src/connection.rs:540-598 | A sent CertificateVerify keeps the verified Finished and the snapshot. |
| `ClientRuns.FinalizeKeeps` | src/connection.rs:620-636 | Application keys cover the snapshot; what the client hashed after it plays no part. |
| `ClientRuns.HelloKeeps` | src/connection.rs:410-436 | A ServerHello gives the handshake keys over ClientHello and ServerHello. |
| `ClientConnections.ClientConnection.Open` | src/blocking.rs:96-125 | `open` ends; whenever it succeeds, the server's Finished was verified and the application keys are in place. |
| `ClientConnections.ClientConnection.SendHello` | src/connection.rs:387-408 | The ClientHello encoded from the configuration goes out with its binders patched in, hashed, with early secret and ephemeral secret in place. |
| `ClientConnections.ClientConnection.EncodeOwn` | src/handshake/client_hello.rs:58-155 | The encoded message, exactly when it fits the room behind a record header. |
| `ClientConnections.ClientConnection.FinalizeHello` | src/handshake/client_hello.rs:157-193 | Binders patched in and the final message hashed. |
| `ClientConnections.ClientConnection.SendCertificate` | src/connection.rs:501-538 | Snapshot, then the Certificate message for the request's context, sealed and hashed; exactly that record goes on the wire. |
| `ClientConnections.ClientConnection.SendCertificateVerify` | src/connection.rs:540-598 | The signed message goes on the wire; without a signing key an alert does, and its own failure comes first. |
| `ClientConnections.ClientConnection.SendFinished` | src/connection.rs:600-636 | Finished over the whole transcript goes on the wire, then application keys over the snapshot. |
| `ClientConnections.ClientConnection.FinalizeKeys` | src/connection.rs:620-636 | The transcript is replaced by the snapshot before the application keys are derived. |
| `ClientConnections.ClientConnection.HandleHelloRecord` | src/connection.rs:410-436 | The specified state or error for every record in place of a ServerHello. |
| `ClientConnections.ClientConnection.HandleFlightRecord` | src/connection.rs:28-93 | A protected record is opened in place and its messages checked one after another; only an accepted one is counted. |
| `ClientConnections.ClientConnection.HandleUnprotected` | src/connection.rs:438-499 | The specified state or error for an unprotected record during the flight. |
| `ClientConnections.ClientConnection.Receive` | src/connection.rs:255-320 | Reading a record and handling it gives the specified state, or the specified error; an abort is reported by an alert, and by nothing else. |
| `ClientConnections.ClientConnection.ReceiveVerify` | src/connection.rs:264-320 | The specified state for a record of the flight, or the error and the alert that goes with it. |
| `ClientConnections.ClientConnection.ReportAbort` | src/connection.rs:299-320 | A fatal alert, outside the record protection, exactly for an abort; the original error is returned. |
| `ClientConnections.ClientConnection.Transmit` | src/connection.rs:322-339 | The record goes on the wire and is counted, exactly when it fits. |
| `Hostnames.MatchHostname` | src/pki.rs:505-584 | Accepts exactly when all bytes are allowed and the names are equal ignoring case, or the host is one dot-free label in place of the star of a star name whose suffix has a dot. |
| `Hostnames.WildcardCounts` | src/pki.rs:556-561 | The star and label counts the code compares follow from the suffix being equal: they restrict nothing further. |
| `Hostnames.Scan` | src/pki.rs:510-535 | Allowed bytes, and the numbers of labels and stars. |

## Left out

- The inside of SHA-256, HMAC, HKDF, AES-GCM, ChaCha20-Poly1305, X25519, P-256 and the signature schemes: only the laws above are used of them.
- Suites with a hash other than 32 bytes: the hash length is fixed at 32.
- The async client (`src/asynch.rs`) and its split halves: the same state machine over another transport interface.
- Certificate chains, X.509 and signature verification (`src/pki.rs`, `src/webpki.rs`): their verdict is a parameter; only the host name comparison is modelled, not the loop over the names of a certificate.
- The bodies of Certificate, CertificateVerify and NewSessionTicket as the client parses them: a parser that takes a prefix of its input stands for them.
- The contents of extensions the server only checks for shape (server name, ALPN, signature algorithms, record size limit): kept as their kind.
- A client certificate given as a raw public key, and a signature too long for its buffer: the source panics on both.
- The level of the alert that reports an abort: always fatal here, as at every place where the client aborts.
- The one-shot `process_client_hello` without a session (`src/server.rs:277-307`): it is the session's call with no retry kept from before, and turns a HelloRetryRequest into a handshake failure.
- Config builders: they hold no protocol state. The flush policy: it decides only whether the transport's own flush is called.
- `ReadBuffer.revert`: it moves nothing that the model tracks.
- The ClientHello is finalized in an array of its own, then put into the write buffer; in the source it is finalized inside that buffer.
- Writing again after the transport failed to take a record: a record handed to the transport is on the wire.
- PreSharedKeys.Parse: does not state which parse error is returned, because the extension parser replaces every one of them by the same decode error.
- RecordReaders.RecordReader.ReadRecord: does not state what the buffer and the transport hold after an error, because nothing in the source relies on it.
- RecordReaders.RecordReader.Advance: does not state what the buffer and the transport hold after an error, as for ReadRecord.
- Readers.TlsReader.Read: does not state the reader's contents after an error, because the source makes no promise of it.
- ClientConnections.ClientConnection.Open: does not state what is left after an error, because the source offers no way on from there.
- Writers.TlsWriter.Flush: requires the counter to be below its limit, because the source panics there.
- Writers.TlsWriter.Write: requires the counter to be below its limit, as for Flush.
- Writers.TlsWriter.Close: requires room for two more counters, as for Flush.
- WriteBuffers.WriteBuffer.constructor: requires 133 bytes where the source's debug assertion asks for more than 128, because between the two the space computation underflows.
- NonceUse.NoncesNeverRepeat: compares keys by derivation, because equal key bytes from different derivations cannot be excluded without assuming the hash has no collisions.
