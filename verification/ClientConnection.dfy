/** The steps of `ClientSpec` carried out on key schedule and buffers, and the `open` loop (src/blocking.rs:94-122). */
module ClientConnections {
  import opened Basics
  import opened Crypto
  import opened KeySchedules
  import opened Rfc8446
  import opened ClientBinders
  import opened ClientOffers
  import opened ClientWriters
  import opened Framing
  import opened CryptoBuffers
  import opened WriteBuffers
  import opened RecordReaders
  import opened ServerMessages
  import opened Decrypts
  import opened ClientRuns
  import S = ClientSpec

  /** The states that wait for the server. */
  predicate Receiving(s: S.State) { s == S.State.ServerHello || s == S.ServerVerify }

  /** How many more sending steps may follow. */
  function RankOf(s: S.State): nat {
    match s
    case ClientHello => 6
    case ServerHello => 5
    case ServerVerify => 4
    case ClientCert => 3
    case ClientCertVerify => 2
    case ClientFinished => 1
    case ApplicationData => 0
  }

  /** `finalize` with nothing hashed before. */
  method FinalizeOffer(enc: array<byte>, n: nat, ks: KeySchedule, ghost sent: bytes)
    requires ks.transcript == [] && ks.binderKey.Some? && Finalizes(ks.c, ks.binderKey.value, enc[..], n, sent)
    modifies ks`transcript, enc
    ensures enc[..] == sent && ks.transcript == sent
  {
    FinalizedLength(ks.c, ks.binderKey.value, enc[..], n, sent);
    var finalized := Finalize(enc, Some(n), ks);
    assert [] + sent == sent;
  }

  /** The encoded message and the one sent are equally long. */
  lemma {:induction false} SentLength(c: Crypto, env: S.Env)
    ensures |S.FinalHello(c, env)| == |OwnHello(env.config, env.random, env.suite, env.public)|
  {
    FinalizedIsSent(c, env.config, env.random, env.suite, env.public);
    if env.config.psk.Some? {
      FinalizedLength(c, BinderKey(c, S.Psk(env)), OwnHello(env.config, env.random, env.suite, env.public),
                      |env.config.psk.value.1|, S.FinalHello(c, env));
    }
  }

  class ClientConnection {
    const c: Crypto
    const env: S.Env
    const ks: KeySchedule
    const tx: WriteBuffer
    const records: RecordReader
    const transport: Transport
    var state: S.State
    var secret: Option<bytes>
    var request: Option<bytes>
    var trafficHash: Option<bytes>
    /** Everything sent. */
    var wire: bytes
    ghost var log: S.Log

    constructor (c: Crypto, env: S.Env, transport: Transport, readBuf: array<byte>, writeBuf: array<byte>)
      requires OVERHEAD + 5 <= writeBuf.Length && readBuf != writeBuf
      ensures Valid() && Apart() && Now() == S.NEW_CLIENT && wire == [] && fresh(ks) && fresh(tx) && fresh(records)
      ensures this.c == c && this.env == env && this.transport == transport
      ensures records.buf == readBuf && tx.buffer == writeBuf
    {
      this.c, this.env, this.transport := c, env, transport;
      ks := new KeySchedule(c);
      tx := new WriteBuffer(writeBuf);
      records := new RecordReader(readBuf);
      state, secret, request, trafficHash, wire := S.State.ClientHello, None, None, None, [];
      log := S.NEW_CLIENT.log;
    }

    ghost predicate Valid()
      reads tx, tx.buffer, records
    {
      && ks.c == c && tx.Valid() && tx.header.None? && records.Valid() && records.pending == 0
      && tx.buffer != records.buf
    }

    ghost function Now(): S.Client
      reads this, ks
    {
      S.Client(state, ks.Now(), secret, request, trafficHash, log)
    }

    /** Sending leaves the transport's input alone. */
    ghost predicate Apart() {
      && (transport as object) != this && (transport as object) != ks && (transport as object) != tx
      && (transport as object) != tx.buffer
    }

    /** Every step uses up input or leaves fewer steps that can do without. */
    function Measure(): nat
      reads `state, transport
    {
      7 * |transport.stream| + RankOf(state)
    }

    /** The room for an outgoing record. */
    function RoomOut(): nat { tx.buffer.Length }

    /** `write_record` and `respond`, the message having been hashed. */
    method Transmit(h: ClientRecordHeader, m: bytes, next: S.State) returns (r: Result<(), TlsError>)
      requires Valid()
      modifies this`state, this`wire, ks`client, tx, tx.buffer
      ensures if |ClosedRecord(c, old(ks.client), h, m)| > RoomOut() then r == Err(NoSpace)
              else if !CanAdvance(old(ks.client)) then r == Err(CounterExhausted)
              else
                && r.Ok? && Valid() && state == next && ks.client == Advanced(old(ks.client))
                && wire == old(wire) + ClosedRecord(c, old(ks.client), h, m)
    {
      var record := tx.WriteRecord(c, ks.client, h, m);
      if record.Err? {
        return Err(record.error);
      }
      wire := wire + record.value;
      if !CanAdvance(ks.client) {
        return Err(CounterExhausted);
      }
      ks.client := Advanced(ks.client);
      state := next;
      r := Ok(());
    }

    /** Hashes and sends a handshake message under the handshake keys. */
    method SendMessage(m: bytes, next: S.State) returns (r: Result<(), TlsError>)
      requires Valid()
      modifies this`state, this`wire, ks, tx, tx.buffer
      ensures match S.Send(old(Now()), HandshakeHeader(true), m, next, RoomOut())
              case Err(e) => r == Err(e)
              case Ok(cl) =>
                && r.Ok? && Valid() && Now() == cl
                && wire == old(wire) + ClosedRecord(c, old(ks.client), HandshakeHeader(true), m)
    {
      ks.UpdateTranscript(m);
      r := Transmit(HandshakeHeader(true), m, next);
    }

    /** The ClientHello as `encode` writes it into the room behind a record header. */
    method EncodeOwn() returns (r: Result<array<byte>, TlsError>)
      requires 5 <= RoomOut()
      ensures var m := OwnHello(env.config, env.random, env.suite, env.public);
              if 5 + |m| <= RoomOut() then r.Ok? && fresh(r.value) && r.value[..] == m else r == Err(NoSpace)
    {
      var room := new byte[RoomOut() - 5];
      var buf := new CryptoBuffer(room, 0, room.Length, 0);
      var encoded := EncodeClientHello(buf, env.config, env.random, env.suite, env.public);
      if encoded.Err? {
        return Err(NoSpace);
      }
      var m := room[..buf.len];
      assert m == OwnHello(env.config, env.random, env.suite, env.public);
      var enc := new byte[|m|](i requires 0 <= i < |m| => m[i]);
      assert enc[..] == m;
      r := Ok(enc);
    }

    /** `finalize` on the encoded ClientHello. */
    method FinalizeHello(enc: array<byte>) returns (m: bytes)
      requires enc[..] == OwnHello(env.config, env.random, env.suite, env.public)
      requires ks.c == c && ks.transcript == [] && ks.binderKey == Some(BinderKey(c, S.Psk(env)))
      modifies ks`transcript, enc
      ensures m == S.FinalHello(c, env) && ks.transcript == m
    {
      FinalizedIsSent(c, env.config, env.random, env.suite, env.public);
      if env.config.psk.Some? {
        FinalizeOffer(enc, |env.config.psk.value.1|, ks, S.FinalHello(c, env));
      } else {
        ks.UpdateTranscript(enc[..]);
      }
      m := enc[..];
      assert [] + m == m;
    }

    /** The early secret and its binder key, and the ClientHello finalized with it. */
    method PrepareHello() returns (r: Result<bytes, TlsError>)
      requires ks.c == c && ks.Now() == NEW_SCHEDULE && 5 <= RoomOut()
      modifies ks
      ensures if 5 + |S.FinalHello(c, env)| <= RoomOut()
              then r == Ok(S.FinalHello(c, env)) && ks.Now() == NEW_SCHEDULE.Early(c, S.Psk(env)).Absorb(r.value)
              else r == Err(NoSpace)
    {
      SentLength(c, env);
      var early := ks.InitializeEarlySecret(if env.config.psk.Some? then Some(env.config.psk.value.0) else None);
      var enc := EncodeOwn();
      if enc.Err? {
        return Err(enc.error);
      }
      var m := FinalizeHello(enc.value);
      assert [] + m == m;
      r := Ok(m);
    }

    /** `client_hello`: the binders are patched in once the key for them exists. */
    method SendHello() returns (r: Result<(), TlsError>)
      requires Valid() && Now() == S.NEW_CLIENT
      modifies this, ks, tx, tx.buffer
      ensures match S.StartHandshake(c, env, old(Now()), RoomOut())
              case Err(e) => r == Err(e)
              case Ok(cl) =>
                && r.Ok? && Valid() && Now() == cl
                && wire == old(wire) + ClosedRecord(c, old(ks.client), HandshakeHeader(false), S.FinalHello(c, env))
    {
      var m := PrepareHello();
      if m.Err? {
        return Err(m.error);
      }
      secret := Some(env.secret);
      r := Transmit(HandshakeHeader(false), m.value, S.State.ServerHello);
    }

    /** `client_cert`. */
    method SendCertificate() returns (r: Result<(), TlsError>)
      requires Valid()
      modifies this, ks, tx, tx.buffer
      ensures match S.SendCertificate(env, old(Now()), RoomOut())
              case Err(e) => r == Err(e)
              case Ok(cl) =>
                && r.Ok? && Valid() && Now() == cl && old(request).Some?
                && var m := S.CertificateMessage(old(request).value, env.certificate);
                   wire == old(wire) + ClosedRecord(c, old(ks.client), HandshakeHeader(true), m)
    {
      trafficHash := Some(ks.transcript);
      log := log.(certPath := true);
      if request.None? {
        return Err(InvalidHandshake);
      }
      r := SendMessage(S.CertificateMessage(request.value, env.certificate),
                       if env.certificate.Some? then S.ClientCertVerify else S.State.ClientFinished);
    }

    /** `client_cert_verify`. */
    method SendCertificateVerify() returns (r: Result<(), TlsError>)
      requires Valid()
      modifies this, ks, tx, tx.buffer
      ensures match S.SendCertificateVerify(c, env, old(Now()), RoomOut())
              case Err(e) => r == Err(e)
              case Ok(cl) => r.Ok? && Valid() && Now() == cl
      ensures match env.sign(S.SignatureInput(c.val(Hash(old(ks.transcript)))))
              case Err(_) =>
                var alert := ClosedRecord(c, old(ks.client), AlertHeader(true), CLOSE_NOTIFY);
                |alert| <= RoomOut() && CanAdvance(old(ks.client)) ==> wire == old(wire) + alert
              case Ok((scheme, signature)) =>
                var m := S.VerifyMessage(scheme, signature);
                r.Ok? ==> wire == old(wire) + ClosedRecord(c, old(ks.client), HandshakeHeader(true), m)
    {
      var signed := env.sign(S.SignatureInput(c.val(Hash(ks.transcript))));
      if signed.Err? {
        var alert := Transmit(AlertHeader(true), CLOSE_NOTIFY, state);
        return if alert.Err? then alert else Err(signed.error);
      }
      r := SendMessage(S.VerifyMessage(signed.value.0, signed.value.1), S.State.ClientFinished);
    }

    /** `client_finished_finalize`. */
    method FinalizeKeys() returns (r: Result<(), TlsError>)
      requires Valid()
      modifies this, ks
      ensures wire == old(wire)
      ensures match S.Finalize(c, old(Now()))
              case Err(e) => r == Err(e)
              case Ok(cl) => r.Ok? && Now() == cl
    {
      if trafficHash.None? {
        return Err(InvalidHandshake);
      }
      ks.transcript := trafficHash.value;
      trafficHash := None;
      var master := ks.InitializeMasterSecret();
      state := S.ApplicationData;
      r := Ok(());
    }

    /** `client_finished`, then the keys. */
    method SendFinished() returns (r: Result<(), TlsError>)
      requires Valid()
      modifies this, ks, tx, tx.buffer
      ensures match S.SendFinished(c, old(Now()), RoomOut())
              case Err(e) => r == Err(e)
              case Ok(cl) =>
                && r.Ok? && Valid() && Now() == cl && old(ks.client).secret.Some?
                && var m := Message(FINISHED, FinishedMac(c, old(ks.client).secret.value, old(ks.transcript)));
                   wire == old(wire) + ClosedRecord(c, old(ks.client), HandshakeHeader(true), m)
    {
      if ks.client.secret.None? {
        return Err(InvalidHandshake);
      }
      var key := ExpandLabel(ks.client.secret.value, FINISHED_LABEL, [], HASH_LEN);
      var verify := c.val(Mac(key, c.val(Hash(ks.transcript))));
      r := SendMessage([FINISHED] + U24(|verify|) + verify, S.State.ClientFinished);
      if r.Ok? {
        r := FinalizeKeys();
      }
    }

    /** `process_server_hello`, given the record's one message. */
    method ProcessHello(part: Part) returns (r: Result<(), TlsError>)
      requires ks.c == c
      modifies this, ks
      ensures match S.AcceptHello(c, env, old(Now()), part)
              case Err(e) => r == Err(e)
              case Ok(cl) => r.Ok? && Now() == cl && wire == old(wire)
    {
      if !part.message.body.Hello? || secret.None? {
        return Err(InvalidHandshake);
      }
      var share := S.ServerKeyShare(part.message.body.exts);
      if share.None? {
        return Err(InvalidKeyShare);
      }
      var shared := env.agree(secret.value, share.value);
      secret := None;
      if shared.None? {
        return Err(InvalidKeyShare);
      }
      ks.UpdateTranscript(part.taken);
      log := log.(dhe := shared.value, helloEnd := |ks.transcript|);
      var entered := ks.InitializeHandshakeSecret(shared.value);
      state := S.ServerVerify;
      r := Ok(());
    }

    method HandleHelloRecord(header: bytes, body: bytes) returns (r: Result<(), TlsError>)
      requires ks.c == c && WireFrame(Frame(header, body))
      modifies this, ks
      ensures match S.ReceiveHello(c, env, old(Now()), Frame(header, body))
              case Err(e) => r == Err(e)
              case Ok(cl) => r.Ok? && Now() == cl && wire == old(wire)
    {
      if header[0] == HANDSHAKE {
        var got := ReadMessage(c, env.read, ks.transcript, body);
        if got.Err? {
          return Err(got.error);
        }
        r := ProcessHello(got.value.v);
      } else if header[0] == ALERT {
        var alert := S.AlertParsed(body);
        r := if alert.Err? then Err(alert.error) else Err(HandshakeAborted(alert.value));
      } else {
        r := if header[0] == 0 then Err(Unimplemented) else Err(InvalidRecord);
      }
    }

    /** The fields after the messages of a record have been checked. */
    method Conclude(v: S.Verifying, digest: bytes)
      modifies this, ks`transcript
      ensures Now() == S.Concluded(old(Now()), v, digest) && wire == old(wire)
    {
      log := S.Concluded(Now(), v, digest).log;
      state, request, trafficHash := v.state, v.request, v.snapshot;
      ks.transcript := digest;
    }

    /** The content of a protected record: its messages are checked one after another. */
    method HandleContent(kind: byte, content: bytes) returns (r: Result<(), TlsError>)
      requires ks.c == c
      modifies this, ks
      ensures match S.ReceiveContent(c, env, old(Now()), kind, content)
              case Err(e) => r == Err(e) && ks.client == old(ks.client) && wire == old(wire)
              case Ok(cl) => r.Ok? && Now() == cl && wire == old(wire)
    {
      if kind == HANDSHAKE {
        var start := S.Verifying(S.ServerVerify, request, trafficHash, None);
        var read := DecodeCoalesced(c, env.read, S.Checks(c, env, ks.server.secret), start, ks.transcript, content);
        if read.Err? {
          return Err(read.error);
        }
        if !CanAdvance(ks.server) {
          return Err(CounterExhausted);
        }
        Conclude(read.value.state, read.value.digest);
        ks.server := Advanced(ks.server);
        r := Ok(());
      } else if kind == ALERT {
        var alert := S.AlertParsed(content);
        r := if alert.Err? then Err(alert.error) else Err(InvalidRecord);
      } else {
        r := if kind == APPLICATION_DATA then Err(InvalidRecord) else Err(Unimplemented);
      }
    }

    /** A protected record of the flight, opened in place. */
    method HandleFlightRecord(header: bytes, at: nat, n: nat) returns (r: Result<(), TlsError>)
      requires ks.c == c && at + n <= records.buf.Length
      modifies this, ks, records.buf
      ensures match S.ReceiveProtected(c, env, old(Now()), Frame(header, old(records.buf[at..at + n])))
              case Err(e) => r == Err(e) && ks.client == old(ks.client) && wire == old(wire)
              case Ok(cl) => r.Ok? && Now() == cl && wire == old(wire)
    {
      var buf := new CryptoBuffer(records.buf, at, at + n, n);
      assert buf.Contents() == records.buf[at..at + n];
      var kind := OpenContent(c, ks.server, header, buf);
      if kind.Err? {
        return Err(kind.error);
      }
      var content := records.buf[at..at + buf.len];
      assert content == buf.Contents();
      r := HandleContent(kind.value, content);
    }

    /** An unprotected record; `decoded` is false if its message did not even parse. */
    method HandleUnprotected(kind: byte, body: bytes) returns (r: Result<(), TlsError>, decoded: bool)
      requires ks.c == c
      modifies this, ks
      ensures match S.ReceiveUnprotected(c, env, old(Now()), kind, body)
              case Err(e) => r == Err(e) && ks.client == old(ks.client) && wire == old(wire)
              case Ok(cl) => r.Ok? && Now() == cl && wire == old(wire)
      ensures decoded == (kind == HANDSHAKE ==> ReadMessage(c, env.read, old(ks.transcript), body).Ok?)
    {
      if kind == CHANGE_CIPHER_SPEC {
        return Ok(()), true;
      }
      if kind == HANDSHAKE {
        var got := ReadMessage(c, env.read, ks.transcript, body);
        if got.Err? {
          return Err(got.error), false;
        }
        var digest := ks.transcript + got.value.v.taken;
        var start := S.Verifying(S.ServerVerify, request, trafficHash, None);
        var v := S.CheckMessage(c, env, ks.server.secret, start, digest, got.value.v.message);
        if v.Err? {
          return Err(v.error), true;
        }
        Conclude(v.value, digest);
        return Ok(()), true;
      }
      if kind == ALERT {
        var alert := S.AlertParsed(body);
        return if alert.Err? then Err(alert.error) else Err(InvalidRecord), true;
      }
      return Err(Unimplemented), true;
    }

    /** `handle_processing_error`: an abort is reported to the server, outside the record protection. */
    method ReportAbort(failed: TlsError) returns (r: TlsError)
      requires Valid()
      modifies this`state, this`wire, ks`client, tx, tx.buffer
      ensures if failed.Abort? && !CanAdvance(old(ks.client)) then r == CounterExhausted
              else
                && r == failed
                && wire == old(wire)
                   + (if failed.Abort?
                      then ClosedRecord(c, old(ks.client), AlertHeader(false), [2, failed.description]) else [])
    {
      if !failed.Abort? {
        return failed;
      }
      var sent := Transmit(AlertHeader(false), [2, failed.description], state);
      r := if sent.Err? then sent.error else failed;
    }

    /** What the specification makes of the next record in a state that waits for one. */
    ghost predicate Received(before: S.Client, stream: bytes, sent: bytes, r: Result<(), TlsError>)
      reads this, ks, tx, tx.buffer, records, transport
    {
      match NextFrame(stream, records.buf.Length)
      case Err(e) => r == Err(e)
      case Ok(Got(f, rest)) =>
        match (if before.state == S.State.ServerHello then S.ReceiveHello(c, env, before, f)
               else S.ReceiveFlight(c, env, before, f))
        case Err(e) => Failed(before, sent, e, S.AlertFor(c, env, before, f), r)
        case Ok(cl) => r.Ok? && Valid() && Now() == cl && wire == sent && transport.stream == rest
    }

    /** The error reported, after the alert if there is one to send. */
    ghost predicate Failed(before: S.Client, sent: bytes, e: TlsError, alert: Option<byte>, r: Result<(), TlsError>)
      reads this
    {
      if alert.None? then r == Err(e)
      else if !CanAdvance(before.ks.client) then r == Err(CounterExhausted)
      else r == Err(e) && wire == sent + ClosedRecord(c, before.ks.client, AlertHeader(false), [2, alert.value])
    }

    /** The states that wait for the server: read a record, then handle it. */
    method Receive() returns (r: Result<(), TlsError>)
      requires Valid() && Receiving(state)
      modifies this, ks, records, records.buf, transport, tx, tx.buffer
      ensures Received(old(Now()), old(transport.stream), old(wire), r)
    {
      var got := records.ReadRecord(transport);
      if got.Err? {
        return Err(got.error);
      }
      var (header, at) := got.value;
      var n := records.decoded - at;
      ghost var f := NextFrame(old(transport.stream), records.buf.Length).value.v;
      assert f == Frame(header, records.buf[at..at + n]);
      if state == S.State.ServerHello {
        r := HandleHelloRecord(header, records.buf[at..at + n]);
      } else {
        r := ReceiveVerify(header, at, n);
      }
    }

    /** A record of the flight, protected or not, and the alert if it fails. */
    method ReceiveVerify(header: bytes, at: nat, n: nat) returns (r: Result<(), TlsError>)
      requires Valid() && at + n <= records.buf.Length && state == S.ServerVerify
      requires WireFrame(Frame(header, records.buf[at..at + n]))
      modifies this, ks, records.buf, tx, tx.buffer
      ensures var f := Frame(header, old(records.buf[at..at + n]));
              match S.ReceiveFlight(c, env, old(Now()), f)
              case Err(e) => Failed(old(Now()), old(wire), e, S.AlertFor(c, env, old(Now()), f), r)
              case Ok(cl) => r.Ok? && Valid() && Now() == cl && wire == old(wire)
    {
      var decoded := true;
      if header[0] == APPLICATION_DATA {
        r := HandleFlightRecord(header, at, n);
      } else {
        r, decoded := HandleUnprotected(header[0], records.buf[at..at + n]);
      }
      if r.Err? && decoded {
        var e := ReportAbort(r.error);
        r := Err(e);
      }
    }

    /** A step that waits keeps what every state needs. */
    method Await() returns (r: Result<(), TlsError>)
      requires Valid() && Receiving(state) && Kept(c, env, Now())
      modifies this, ks, records, records.buf, transport, tx, tx.buffer
      ensures r.Ok? ==> Valid() && Kept(c, env, Now()) && Measure() < old(Measure())
    {
      ghost var before, next := Now(), NextFrame(transport.stream, records.buf.Length);
      r := Receive();
      if r.Ok? {
        if before.state == S.State.ServerHello {
          ServerHelloKeeps(c, env, before, next.value.v);
        } else {
          FlightKeeps(c, env, before, next.value.v);
        }
      }
    }

    /** So do the steps of the certificate path. */
    method SendIdentity() returns (r: Result<(), TlsError>)
      requires Valid() && Kept(c, env, Now()) && (state == S.ClientCert || state == S.ClientCertVerify)
      modifies this, ks, tx, tx.buffer
      ensures r.Ok? ==> Valid() && Kept(c, env, Now()) && RankOf(state) < old(RankOf(state))
    {
      if state == S.ClientCert {
        r := SendChain();
      } else {
        r := SendSignature();
      }
    }

    method SendChain() returns (r: Result<(), TlsError>)
      requires Valid() && Kept(c, env, Now()) && state == S.ClientCert
      modifies this, ks, tx, tx.buffer
      ensures r.Ok? ==> Valid() && Kept(c, env, Now()) && RankOf(state) < old(RankOf(state))
    {
      ghost var before := Now();
      r := SendCertificate();
      if r.Ok? {
        CertificateKeeps(c, env, before, RoomOut());
      }
    }

    method SendSignature() returns (r: Result<(), TlsError>)
      requires Valid() && Kept(c, env, Now()) && state == S.ClientCertVerify
      modifies this, ks, tx, tx.buffer
      ensures r.Ok? ==> Valid() && Kept(c, env, Now()) && RankOf(state) < old(RankOf(state))
    {
      ghost var before := Now();
      r := SendCertificateVerify();
      if r.Ok? {
        VerifyKeeps(c, env, before, RoomOut());
      }
    }

    /** And the first and last things sent. */
    method Send() returns (r: Result<(), TlsError>)
      requires Valid() && Kept(c, env, Now()) && (state == S.State.ClientHello || state == S.State.ClientFinished)
      modifies this, ks, tx, tx.buffer
      ensures r.Ok? ==> Valid() && Kept(c, env, Now()) && RankOf(state) < old(RankOf(state))
    {
      if state == S.State.ClientHello {
        r := SendFirst();
      } else {
        r := SendLast();
      }
    }

    method SendLast() returns (r: Result<(), TlsError>)
      requires Valid() && Kept(c, env, Now()) && state == S.State.ClientFinished
      modifies this, ks, tx, tx.buffer
      ensures r.Ok? ==> Valid() && Kept(c, env, Now()) && RankOf(state) < old(RankOf(state))
    {
      ghost var before := Now();
      r := SendFinished();
      if r.Ok? {
        FinishedKeeps(c, env, before, RoomOut());
      }
    }

    method SendFirst() returns (r: Result<(), TlsError>)
      requires Valid() && Kept(c, env, Now()) && state == S.State.ClientHello
      modifies this, ks, tx, tx.buffer
      ensures r.Ok? ==> Valid() && Kept(c, env, Now()) && RankOf(state) < old(RankOf(state))
    {
      ghost var before := Now();
      r := SendHello();
      if r.Ok? {
        StartKeeps(c, env, before, RoomOut());
      }
    }

    /**
     * `open`: steps until application data or the first error. Whenever it succeeds, the server's
     * Finished was verified and the application keys are in place.
     */
    method Open() returns (r: Result<(), TlsError>)
      requires Valid() && Apart() && Now() == S.NEW_CLIENT
      modifies this, ks, tx, tx.buffer, records, records.buf, transport
      ensures r.Ok? ==> Valid() && state == S.ApplicationData && Kept(c, env, Now())
    {
      while state != S.ApplicationData
        invariant Valid() && Kept(c, env, Now())
        decreases Measure()
      {
        if Receiving(state) {
          r := Await();
        } else if state == S.ClientCert || state == S.ClientCertVerify {
          r := SendIdentity();
        } else {
          r := Send();
        }
        if r.Err? {
          return r;
        }
      }
      r := Ok(());
    }
  }
}
