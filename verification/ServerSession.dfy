/** `TlsServerSession` (server.rs:157-1386): the calls of `ServerSpec`, carried out on buffers. */
module ServerSessions {
  import opened Basics
  import opened Crypto
  import opened KeySchedules
  import opened ParseBuffers
  import opened Extensions
  import opened ServerSpec
  import opened OutWriters
  import opened Sealing
  import opened NonceUse
  import opened KeySeparation
  import opened ServerWriters

  /** `find_client_x25519_share`. */
  method FindX25519Share(exts: seq<ClientExt>) returns (r: Result<Option<bytes>, TlsError>)
    ensures r == ClientShare(exts)
  {
    var ext := First(exts, (e: ClientExt) => e.KeyShare?);
    if ext.None? {
      return Ok(None);
    }
    var shares := ext.value.shares;
    for i := 0 to |shares|
      invariant FirstX25519(shares) == FirstX25519(shares[i..])
    {
      if shares[i].group == X25519 {
        if |shares[i].key| != X25519_LEN {
          return Err(Abort(ILLEGAL_PARAMETER));
        }
        return Ok(Some(shares[i].key));
      }
    }
    return Ok(None);
  }

  /** `decide_kex`. */
  method ChooseKex(exts: seq<ClientExt>, dhe: bool, retried: bool) returns (r: Result<Decision, TlsError>)
    ensures r == DecideKex(exts, dhe, retried)
  {
    var ext := First(exts, (e: ClientExt) => e.PskModes?);
    if ext.None? {
      return Err(Abort(MISSING_EXTENSION));
    }
    var ke, dheKe := 0 in ext.value.modes, 1 in ext.value.modes;
    if dheKe && dhe {
      var found := FindX25519Share(exts);
      if found.Err? {
        return Err(found.error);
      }
      if found.value.Some? {
        return Ok(Use(PskDheKe(found.value.value)));
      }
      if ke {
        return Ok(Use(PskKe));
      }
      return if !retried && SupportsX25519(exts) then Ok(Retry) else Err(Abort(HANDSHAKE_FAILURE));
    }
    return if ke then Ok(Use(PskKe)) else Err(Abort(HANDSHAKE_FAILURE));
  }

  /** The message inside a client Finished record, read with the cursor. */
  method ParseFinished(inner: bytes) returns (r: Option<bytes>)
    ensures r == FinishedVerify(inner)
  {
    var p := new ParseBuffer(inner);
    var kind := p.ReadU8();
    if kind.Err? || kind.value != FINISHED {
      return None;
    }
    var n := p.ReadU24();
    if n.Err? || n.value != HASH_LEN {
      return None;
    }
    var verify := p.Slice(HASH_LEN);
    if verify.Err? || p.pos != |inner| {
      return None;
    }
    assert inner[4..] == inner[4..|inner|];
    return Some(verify.value);
  }

  /** The reply's bytes are what was left at the front of the caller's buffer. */
  predicate InBuffer(out: bytes, reply: Result<Reply, TlsError>) {
    reply.Ok? ==>
      match reply.value
      case FirstFlight(b) => b <= out
      case HelloRetryRequest(b) => b <= out
      case Protected(b) => b <= out
      case AppData(b) => b <= out
      case Complete => true
      case PeerAlert(_, _) => true
  }

  /** Header, content and marker written into the buffer, then sealed in place. */
  method WriteProtected(c: Crypto, t: Traffic, inner: bytes, out: array<byte>, log: SealLog)
    requires 5 + |inner| + TAG_LEN <= out.Length
    modifies out, log
    ensures log.seals == old(log.seals) + [SealOf(t, inner)]
    ensures out[..5 + |inner| + TAG_LEN] == SealedRecord(c, t, inner)
  {
    CopyInto(out, 0, [APPLICATION_DATA, 3, 3] + U16(|inner| + TAG_LEN) + inner);
    assert out[..3] == [APPLICATION_DATA, 3, 3] && out[5..5 + |inner|] == inner;
    SealRecord(c, out, 0, |inner|, t, log);
    assert [] + SealedRecord(c, t, inner) == SealedRecord(c, t, inner);
  }

  /** One more call of a run. */
  lemma {:induction false} RunExtends(step: Stepper, calls: seq<Call>, call: Call)
    ensures var o := step(After(step, NEW_SESSION, calls), call);
            && After(step, NEW_SESSION, calls + [call]) == o.session
            && Log(step, NEW_SESSION, calls + [call]) == Log(step, NEW_SESSION, calls) + o.seals
  {
    assert (calls + [call])[..|calls|] == calls;
  }

  class TlsServerSession {
    const ks: KeySchedule
    /** What this session has sealed. */
    const log: SealLog
    var sent: bool
    var ch1Random: bytes
    var ch1SessionId: bytes
    /** Every call made so far. */
    ghost var calls: seq<Call>

    constructor (c: Crypto)
      ensures Valid() && calls == [] && ks.c == c && fresh(ks) && fresh(log)
    {
      ks := new KeySchedule(c);
      log := new SealLog();
      sent, ch1Random, ch1SessionId := false, Zeros(32), [];
      calls := [];
    }

    /** The session has become, and has sealed, what the specification says of the calls made. */
    ghost predicate Valid()
      reads this, ks, log
    {
      Now() == After(Server(ks.c), NEW_SESSION, calls) && log.seals == Log(Server(ks.c), NEW_SESSION, calls)
    }

    function Now(): Session
      reads this, ks
    {
      Session(ks.Now(), if sent then Some(Snapshot(ch1Random, ch1SessionId)) else None)
    }

    /** The session, the reply and the seals are those of the specification. */
    ghost predicate Did(before: seq<Seal>, o: Outcome, r: Result<Reply, TlsError>)
      reads this, ks, log
    {
      Now() == o.session && r == o.reply && log.seals == before + o.seals
    }

    /** The checks made before the key schedule is touched. */
    method CheckHello(m: bytes, cfg: ServerConfig) returns (r: Result<Admitted, TlsError>)
      ensures r == Admit(Now(), m, cfg)
    {
      var parsed := ClientHellos.Parse(m);
      if parsed.Err? {
        return Err(parsed.error);
      }
      if parsed.value.rest != [] {
        return Err(InvalidHandshake);
      }
      var hello := parsed.value.v;
      var versions := CheckVersions(hello.exts);
      if versions.Some? {
        return Err(versions.value);
      }
      var suites := CheckSuites(hello.fields.suites);
      if suites.Some? {
        return Err(suites.value);
      }
      if sent && (hello.fields.random != ch1Random || hello.fields.sessionId != ch1SessionId) {
        return Err(Abort(ILLEGAL_PARAMETER));
      }
      var decision := ChooseKex(hello.exts, cfg.dhe.Some?, sent);
      if decision.Err? {
        return Err(decision.error);
      }
      var located := Locate(hello.exts, cfg.identity);
      if located.Err? {
        return Err(located.error);
      }
      return Ok(Admitted(hello, decision.value, located.value.0, located.value.1));
    }

    /** Derives the early secret on a first ClientHello only, then checks the binder. */
    method CheckBinder(m: bytes, cfg: ServerConfig, a: Admitted) returns (r: Result<bool, TlsError>)
      requires a.hello.bindersAt <= |m|
      modifies ks
      ensures ks.Now() == BinderSchedule(ks.c, old(Now()), cfg)
      ensures match ks.binderKey
              case None => r == Err(CryptoError)
              case Some(key) =>
                r == Ok(BinderMatches(ks.c, key, BinderInput(old(Now()), m, a.hello.bindersAt), a.binder))
    {
      var prefix: bytes := [];
      if sent {
        prefix := ks.transcript;
      } else {
        var early := ks.InitializeEarlySecret(Some(cfg.psk));
      }
      var verified := ks.VerifyPskBinder(prefix + m[..a.hello.bindersAt], a.binder);
      r := verified.MapErr(CryptoError);
    }

    /** Emits a HelloRetryRequest and remembers the ClientHello it answers. */
    method SendHelloRetry(m: bytes, a: Admitted, out: array<byte>) returns (r: Result<Reply, TlsError>)
      requires |a.hello.fields.sessionId| <= 32 && !sent
      modifies `sent, `ch1Random, `ch1SessionId, ks, out
      ensures var o := SendRetry(ks.c, old(Now()), m, a, out.Length); Did(old(log.seals), o, r)
      ensures InBuffer(out[..], r)
    {
      var w := new OutWriter(out);
      var written := WriteRetry(w, a.hello.fields.sessionId, m, ks);
      if written.Err? {
        return Err(written.error);
      }
      sent, ch1Random, ch1SessionId := true, a.hello.fields.random, a.hello.fields.sessionId;
      r := Ok(HelloRetryRequest(out[..w.pos]));
    }

    /** The shared secret, or zeros without one, becomes the handshake secret. */
    method EnterHandshake(cfg: ServerConfig, kex: Kex) returns (r: Result<(), TlsError>)
      requires kex.PskDheKe? ==> cfg.dhe.Some?
      modifies ks
      ensures if kex.PskDheKe? && Ikm(ks.c, cfg, kex) == Zeros(X25519_LEN)
              then r == Err(Abort(ILLEGAL_PARAMETER)) && ks.Now() == old(ks.Now())
              else r.Ok? && ks.Now() == old(ks.Now()).Handshake(ks.c, Ikm(ks.c, cfg, kex))
    {
      match kex
      case PskKe =>
        r := ks.InitializeHandshakeSecret(Zeros(HASH_LEN));
      case PskDheKe(share) =>
        var shared := ks.c.x25519(cfg.dhe.value.secret, share);
        if forall i :: 0 <= i < |shared| ==> shared[i] == 0 {
          assert shared == Zeros(X25519_LEN);
          return Err(Abort(ILLEGAL_PARAMETER));
        }
        ghost var i :| 0 <= i < |shared| && shared[i] != 0;
        assert Zeros(X25519_LEN)[i] == 0;
        r := ks.InitializeHandshakeSecret(shared);
    }

    /** EncryptedExtensions and Finished, after the ServerHello already written. */
    method SendEncrypted(w: OutWriter) returns (r: Result<Reply, TlsError>)
      requires w.Valid() && ks.server.secret.Some? && ks.server.counter == 0
      modifies ks, w, w.buf, log
      ensures var o := SealFlight(ks.c, old(Now()), old(ks.Now()), old(w.Written()), w.buf.Length);
              Did(old(log.seals), o, r)
      ensures InBuffer(w.buf[..], r)
    {
      var ee := WriteEncrypted(w, ks, Encrypted.Extensions, log);
      if ee.Err? {
        return Err(ee.error);
      }
      var finished := WriteEncrypted(w, ks, ServerFinished, log);
      if finished.Err? {
        return Err(finished.error);
      }
      r := Ok(FirstFlight(w.buf[..w.pos]));
    }

    /** ServerHello, EncryptedExtensions and Finished. */
    method SendFirstFlight(m: bytes, a: Admitted, cfg: ServerConfig, out: array<byte>)
      returns (r: Result<Reply, TlsError>)
      requires a.decision.Use? && (a.decision.kex.PskDheKe? ==> cfg.dhe.Some?) && |a.hello.fields.sessionId| <= 32
      modifies ks, out, log
      ensures var o := SendFlight(ks.c, old(Now()), m, a, cfg, out.Length); Did(old(log.seals), o, r)
      ensures InBuffer(out[..], r)
    {
      var kex := a.decision.kex;
      ks.UpdateTranscript(m);
      var w := new OutWriter(out);
      var hello := WriteServerHello(w, cfg, a.hello.fields.sessionId, a.index, kex, ks);
      if hello.Err? {
        return Err(hello.error);
      }
      var entered := EnterHandshake(cfg, kex);
      if entered.Err? {
        return Err(entered.error);
      }
      r := SendEncrypted(w);
    }

    /** An admitted ClientHello: check the binder, then retry or send the flight. */
    method AnswerHello(m: bytes, cfg: ServerConfig, a: Admitted, out: array<byte>) returns (r: Result<Reply, TlsError>)
      requires Admissible(Now(), m, cfg, a)
      modifies `sent, `ch1Random, `ch1SessionId, ks, out, log
      ensures Did(old(log.seals), Answer(ks.c, old(Now()), m, cfg, out.Length, a), r)
      ensures InBuffer(out[..], r)
    {
      var verified := CheckBinder(m, cfg, a);
      if verified.Err? {
        return Err(verified.error);
      }
      if !verified.value {
        return Err(Abort(DECRYPT_ERROR));
      }
      if a.decision.Retry? {
        r := SendHelloRetry(m, a, out);
      } else {
        r := SendFirstFlight(m, a, cfg, out);
      }
    }

    method ServeHello(m: bytes, cfg: ServerConfig, out: array<byte>) returns (r: Result<Reply, TlsError>)
      modifies `sent, `ch1Random, `ch1SessionId, ks, out, log
      ensures Did(old(log.seals), ProcessHello(ks.c, old(Now()), m, cfg, out.Length), r)
      ensures InBuffer(out[..], r)
    {
      var checked := CheckHello(m, cfg);
      if checked.Err? {
        return Err(checked.error);
      }
      r := AnswerHello(m, cfg, checked.value, out);
    }

    /** Framing checks and in-place decryption under the client's key. */
    method OpenInto(record: bytes, buf: array<byte>) returns (r: Result<nat, TlsError>)
      modifies ks`client, buf
      ensures var result := OpenRecord(ks.c, old(ks.Now()), record, buf.Length);
              && ks.Now() == result.0
              && (result.1.Err? ==> r == Err(result.1.error))
              && (result.1.Ok? ==>
                    r == Ok(|result.1.value|) && r.value <= buf.Length && buf[..r.value] == result.1.value)
    {
      if |record| < 5 {
        return Err(InvalidRecord);
      }
      if record[0] != APPLICATION_DATA {
        return Err(InvalidRecord);
      }
      var n: nat := FromU16(record[3], record[4]);
      if 5 + n != |record| {
        return Err(InvalidRecord);
      }
      if buf.Length < n {
        return Err(NoSpace);
      }
      CopyInto(buf, 0, record[5..]);
      var t := ks.client;
      var nonce := GetNonce(ks.c.val(t.iv), t.counter);
      assert buf[..n] == record[5..];
      var plain := ks.c.open(t.key, nonce, record[..5], buf[..n]);
      if plain.None? {
        return Err(CryptoError);
      }
      CopyInto(buf, 0, plain.value);
      if t.counter + 1 >= COUNTER_LIMIT {
        return Err(CounterExhausted);
      }
      ks.client := Advanced(t);
      assert plain.value == buf[..|plain.value|];
      r := Ok(|plain.value|);
    }

    /** What follows decryption: the marker, the message, its MAC, then the master secret. */
    method FinishHandshake(plain: bytes, messages: bytes) returns (r: Result<Reply, TlsError>)
      requires messages == ks.transcript
      modifies ks
      ensures var o := Finish(ks.c, old(Now()), old(ks.Now()), plain); Did(old(log.seals), o, r)
    {
      var end := LastNonZero(plain);
      if end.None? || plain[end.value] != HANDSHAKE {
        return Err(InvalidRecord);
      }
      var inner := plain[..end.value];
      var verify := ParseFinished(inner);
      if verify.None? {
        return Err(InvalidHandshake);
      }
      var verified := ks.VerifyClientFinished(verify.value, messages);
      if verified.Err? {
        return Err(CryptoError);
      }
      if !verified.value {
        return Err(Abort(DECRYPT_ERROR));
      }
      var master := ks.InitializeMasterSecret();
      ks.UpdateTranscript(inner);
      r := Ok(Complete);
    }

    method ServeFinished(record: bytes) returns (r: Result<Reply, TlsError>)
      modifies ks
      ensures var o := ProcessFinished(ks.c, old(Now()), record); Did(old(log.seals), o, r)
    {
      ghost var before := Now();
      var messages := ks.transcript;
      var buf := new byte[FINISHED_BUFFER](_ => 0);
      var result := OpenInto(record, buf);
      if result.Err? {
        return Err(result.error);
      }
      FinishAfterOpen(ks.c, before, record, ks.Now(), buf[..result.value]);
      r := FinishHandshake(buf[..result.value], messages);
    }

    /** Header, content and marker written, then sealed in place. */
    method Encrypt(inner: bytes, out: array<byte>) returns (r: Result<Reply, TlsError>)
      modifies ks`server, out, log
      ensures var o := Protect(ks.c, old(Now()), inner, out.Length); Did(old(log.seals), o, r)
      ensures InBuffer(out[..], r)
    {
      if out.Length < 5 + |inner| + TAG_LEN || |inner| + TAG_LEN >= 65536 {
        return Err(NoSpace);
      }
      if !CanAdvance(ks.server) {
        return Err(CounterExhausted);
      }
      WriteProtected(ks.c, ks.server, inner, out, log);
      ks.server := Advanced(ks.server);
      r := Ok(Protected(out[..5 + |inner| + TAG_LEN]));
    }

    method OpenData(record: bytes, buf: array<byte>) returns (r: Result<Reply, TlsError>)
      modifies ks`client, buf
      ensures var o := ReceiveData(ks.c, old(Now()), record, buf.Length); Did(old(log.seals), o, r)
      ensures InBuffer(buf[..], r)
    {
      var result := OpenInto(record, buf);
      if result.Err? {
        return Err(result.error);
      }
      var end := LastNonZero(buf[..result.value]);
      if end.None? || buf[end.value] != APPLICATION_DATA {
        return Err(InvalidRecord);
      }
      assert buf[..end.value] == buf[..result.value][..end.value];
      r := Ok(AppData(buf[..end.value]));
    }

    method OpenAny(record: bytes, buf: array<byte>) returns (r: Result<Reply, TlsError>)
      modifies ks`client, buf
      ensures var o := ReceiveAny(ks.c, old(Now()), record, buf.Length); Did(old(log.seals), o, r)
      ensures InBuffer(buf[..], r)
    {
      var result := OpenInto(record, buf);
      if result.Err? {
        return Err(result.error);
      }
      var end := LastNonZero(buf[..result.value]);
      if end.None? {
        return Err(InvalidRecord);
      }
      if buf[end.value] == APPLICATION_DATA {
        assert buf[..end.value] == buf[..result.value][..end.value];
        return Ok(AppData(buf[..end.value]));
      }
      if buf[end.value] != ALERT || end.value != 2 {
        return Err(InvalidRecord);
      }
      if !(1 <= buf[0] <= 2) || !KnownAlert(buf[1]) {
        return Err(DecodeError);
      }
      return Ok(PeerAlert(buf[0], buf[1]));
    }

    /**
     * Whatever calls were made: no key was used twice with one nonce; and the key read with was sealed under
     * exactly if there are no keys yet and it is the all-zero one.
     */
    lemma {:induction false} KeysUsedOnce(i: nat, j: nat)
      requires Valid() && i < |log.seals| && j < |log.seals|
      ensures i != j && log.seals[i].key == log.seals[j].key ==>
        SealNonce(ks.c, log.seals[i]) != SealNonce(ks.c, log.seals[j])
      ensures log.seals[i].key == ks.client.key <==> ks.client.secret.None? && log.seals[i].key == Zero(KEY_LEN)
    {
      if i < j {
        NoncesNeverRepeat(ks.c, calls, i, j);
      } else if j < i {
        NoncesNeverRepeat(ks.c, calls, j, i);
      }
      assert calls[..|calls|] == calls;
      OnlyZeroShared(ks.c, calls, |calls|, i);
    }

    // --- The calls ---

    /** Notes a call that took the session from `was` to the outcome of `step`. */
    ghost method Note(step: Stepper, call: Call, was: Session, seals: seq<Seal>)
      requires Now() == step(was, call).session && log.seals == seals + step(was, call).seals
      modifies this`calls
      ensures calls == old(calls) + [call]
      ensures was == After(step, NEW_SESSION, old(calls)) && seals == Log(step, NEW_SESSION, old(calls)) ==>
        Now() == After(step, NEW_SESSION, calls) && log.seals == Log(step, NEW_SESSION, calls)
    {
      RunExtends(step, calls, call);
      calls := calls + [call];
    }

    /** `process_client_hello` */
    method ProcessClientHello(m: bytes, cfg: ServerConfig, out: array<byte>) returns (r: Result<Reply, TlsError>)
      modifies this, ks, out, log
      ensures Did(old(log.seals), Step(ks.c, old(Now()), ClientHello(m, cfg, out.Length)), r)
      ensures InBuffer(out[..], r)
      ensures calls == old(calls) + [ClientHello(m, cfg, out.Length)] && (old(Valid()) ==> Valid())
    {
      ghost var was, seals := Now(), log.seals;
      r := ServeHello(m, cfg, out);
      Note(Server(ks.c), ClientHello(m, cfg, out.Length), was, seals);
    }

    /** `process_client_finished` */
    method ProcessClientFinished(record: bytes) returns (r: Result<Reply, TlsError>)
      modifies this`calls, ks
      ensures Did(old(log.seals), Step(ks.c, old(Now()), ClientFinished(record)), r)
      ensures calls == old(calls) + [ClientFinished(record)] && (old(Valid()) ==> Valid())
    {
      ghost var was, seals := Now(), log.seals;
      r := ServeFinished(record);
      Note(Server(ks.c), ClientFinished(record), was, seals);
    }

    /** `encrypt_application_data` */
    method EncryptAppData(payload: bytes, out: array<byte>) returns (r: Result<Reply, TlsError>)
      modifies this`calls, ks`server, out, log
      ensures Did(old(log.seals), Step(ks.c, old(Now()), EncryptData(payload, out.Length)), r)
      ensures InBuffer(out[..], r)
      ensures calls == old(calls) + [EncryptData(payload, out.Length)] && (old(Valid()) ==> Valid())
    {
      ghost var was, seals := Now(), log.seals;
      r := Encrypt(payload + [APPLICATION_DATA], out);
      Note(Server(ks.c), EncryptData(payload, out.Length), was, seals);
    }

    /** `encrypt_alert_record` */
    method EncryptAlertRecord(level: byte, description: byte, out: array<byte>) returns (r: Result<Reply, TlsError>)
      modifies this`calls, ks`server, out, log
      ensures Did(old(log.seals), Step(ks.c, old(Now()), EncryptAlert(level, description, out.Length)), r)
      ensures InBuffer(out[..], r)
      ensures calls == old(calls) + [EncryptAlert(level, description, out.Length)] && (old(Valid()) ==> Valid())
    {
      ghost var was, seals := Now(), log.seals;
      r := Encrypt([level, description, ALERT], out);
      Note(Server(ks.c), EncryptAlert(level, description, out.Length), was, seals);
    }

    /** `decrypt_application_data` */
    method DecryptAppData(record: bytes, buf: array<byte>) returns (r: Result<Reply, TlsError>)
      modifies this`calls, ks`client, buf
      ensures Did(old(log.seals), Step(ks.c, old(Now()), DecryptData(record, buf.Length)), r)
      ensures InBuffer(buf[..], r)
      ensures calls == old(calls) + [DecryptData(record, buf.Length)] && (old(Valid()) ==> Valid())
    {
      ghost var was, seals := Now(), log.seals;
      r := OpenData(record, buf);
      Note(Server(ks.c), DecryptData(record, buf.Length), was, seals);
    }

    /** `decrypt_app_data_or_alert` */
    method DecryptAppDataOrAlert(record: bytes, buf: array<byte>) returns (r: Result<Reply, TlsError>)
      modifies this`calls, ks`client, buf
      ensures Did(old(log.seals), Step(ks.c, old(Now()), DecryptAny(record, buf.Length)), r)
      ensures InBuffer(buf[..], r)
      ensures calls == old(calls) + [DecryptAny(record, buf.Length)] && (old(Valid()) ==> Valid())
    {
      ghost var was, seals := Now(), log.seals;
      r := OpenAny(record, buf);
      Note(Server(ks.c), DecryptAny(record, buf.Length), was, seals);
    }
  }
}
