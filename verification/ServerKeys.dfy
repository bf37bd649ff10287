/** Handshake and application keys against section 7.1 of RFC 8446, and the flight's exact bytes. */
module ServerKeys {
  import opened Basics
  import opened Crypto
  import opened KeySchedules
  import opened Rfc8446
  import opened Extensions
  import opened ServerHellos
  import opened ServerSpec
  import opened RetryRuns

  /** Record number `n` under a traffic secret (section 5.2 of RFC 8446), written from the standard. */
  function RfcRecord(c: Crypto, secret: Term, n: nat, inner: bytes): bytes {
    var header := [23, 3, 3] + U16(|inner| + 16);
    header + c.val(Sealed(TrafficKey(secret), Nonce(c.val(TrafficIv(secret)), n), header, inner))
  }

  /** The server's Finished over the messages through EncryptedExtensions. */
  function RfcFinished(c: Crypto, secret: Term, messages: bytes): bytes {
    Message(20, c.val(Mac(ExpandLabel(secret, Ascii("finished"), [], 32), c.val(Hash(messages)))))
  }

  /** The messages of a handshake through the server's Finished, `hello` being all through the ClientHello. */
  function ThroughServerFinished(c: Crypto, psk: bytes, dhe: bytes, hello: bytes, sh: bytes): bytes {
    var secret := ServerHandshakeSecret(c, psk, dhe, hello + sh);
    var ee := Message(8, [0, 0]);
    hello + sh + ee + RfcFinished(c, secret, hello + sh + ee)
  }

  /** The three records of a flight: ServerHello, then EncryptedExtensions and Finished at counters 0 and 1. */
  function RfcFlight(c: Crypto, psk: bytes, dhe: bytes, hello: bytes, sh: bytes): bytes {
    var secret := ServerHandshakeSecret(c, psk, dhe, hello + sh);
    var ee := Message(8, [0, 0]);
    Record(22, sh) + RfcRecord(c, secret, 0, ee + [22])
    + RfcRecord(c, secret, 1, RfcFinished(c, secret, hello + sh + ee) + [22])
  }

  /** The schedule holds the handshake keys of section 7.1, two records having been sent. */
  predicate HasHandshakeKeys(c: Crypto, ks: Schedule, psk: bytes, dhe: bytes, hello: bytes, sh: bytes) {
    && Runs(ks.client, ClientHandshakeSecret(c, psk, dhe, hello + sh), 0)
    && Runs(ks.server, ServerHandshakeSecret(c, psk, dhe, hello + sh), 2)
    && ks.secret == DeriveSecret(c, HandshakeSecret(c, psk, dhe), Ascii("derived"), [])
    && ks.transcript == ThroughServerFinished(c, psk, dhe, hello, sh)
  }

  /** The schedule holds the application keys of section 7.1 over CH..server Finished. */
  predicate HasApplicationKeys(c: Crypto, ks: Schedule, psk: bytes, dhe: bytes, messages: bytes) {
    && Runs(ks.client, ClientApplicationSecret(c, psk, dhe, messages), 0)
    && Runs(ks.server, ServerApplicationSecret(c, psk, dhe, messages), 0)
  }

  /** The secret chain after the early secret of `psk`, and nothing else. */
  predicate HasEarlySecret(c: Crypto, ks: Schedule, psk: bytes) {
    && ks.secret == DeriveSecret(c, EarlySecret(psk), Ascii("derived"), [])
    && ks.binderKey == Some(BinderKey(c, psk))
  }

  function HelloSent(cfg: ServerConfig, a: Admitted): bytes
    requires a.decision.Use? && (a.decision.kex.PskDheKe? ==> cfg.dhe.Some?)
  {
    FlightHello(cfg.random, a.hello.fields.sessionId, ShareOf(cfg, a.decision.kex), a.index)
  }

  lemma {:induction false} FlightIsRfc(
    c: Crypto, s: Session, m: bytes, a: Admitted, cfg: ServerConfig, cap: nat, psk: bytes)
    requires a.decision.Use? && (a.decision.kex.PskDheKe? ==> cfg.dhe.Some?)
    requires HasEarlySecret(c, s.ks, psk)
    requires SentFlight(SendFlight(c, s, m, a, cfg, cap))
    ensures var o := SendFlight(c, s, m, a, cfg, cap);
            var dhe, hello, sh := Ikm(c, cfg, a.decision.kex), s.ks.transcript + m, HelloSent(cfg, a);
            && HasHandshakeKeys(c, o.session.ks, psk, dhe, hello, sh)
            && o.reply.value.bytes == RfcFlight(c, psk, dhe, hello, sh)
  {
  }

  /** The handshake is over: application keys over CH..server Finished, and then the client Finished hashed. */
  predicate Completed(c: Crypto, ks: Schedule, psk: bytes, dhe: bytes, hello: bytes, sh: bytes) {
    var messages := ThroughServerFinished(c, psk, dhe, hello, sh);
    && HasApplicationKeys(c, ks, psk, dhe, messages)
    && ks.transcript == messages + RfcFinished(c, ClientHandshakeSecret(c, psk, dhe, hello + sh), messages)
  }

  lemma {:induction false} FinishIsRfc(
    c: Crypto, s: Session, ks: Schedule, p: bytes, psk: bytes, dhe: bytes, hello: bytes, sh: bytes)
    requires ks.secret == DeriveSecret(c, HandshakeSecret(c, psk, dhe), Ascii("derived"), [])
    requires ks.transcript == ThroughServerFinished(c, psk, dhe, hello, sh)
    requires ks.client.secret == Some(ClientHandshakeSecret(c, psk, dhe, hello + sh))
    requires Finish(c, s, ks, p).reply.Ok?
    ensures Completed(c, Finish(c, s, ks, p).session.ks, psk, dhe, hello, sh)
  {
  }

  /**
   * After a flight, a client Finished is accepted only if it is the MAC over CH..server
   * Finished, and then both directions run the application keys over exactly those
   * messages: the client's own Finished is hashed only afterwards.
   */
  lemma {:induction false} FinishedIsRfc(
    c: Crypto, s: Session, record: bytes, psk: bytes, dhe: bytes, hello: bytes, sh: bytes)
    requires HasHandshakeKeys(c, s.ks, psk, dhe, hello, sh)
    requires ProcessFinished(c, s, record).reply.Ok?
    ensures Completed(c, ProcessFinished(c, s, record).session.ks, psk, dhe, hello, sh)
  {
    var (ks, plain) := OpenRecord(c, s.ks, record, FINISHED_BUFFER);
    FinishIsRfc(c, s, ks, plain.value, psk, dhe, hello, sh);
  }

  /** A flight answers an admitted ClientHello whose binder matched. */
  lemma {:induction false} FlightAnswers(c: Crypto, s: Session, m: bytes, cfg: ServerConfig, cap: nat, psk: bytes)
    requires SentFlight(ProcessHello(c, s, m, cfg, cap))
    requires HasEarlySecret(c, BinderSchedule(c, s, cfg), psk)
    ensures Admit(s, m, cfg).Ok? && Admit(s, m, cfg).value.decision.Use?
    ensures var a := Admit(s, m, cfg).value;
            var o := ProcessHello(c, s, m, cfg, cap);
            var dhe, hello := Ikm(c, cfg, a.decision.kex), BinderSchedule(c, s, cfg).transcript + m;
            && HasHandshakeKeys(c, o.session.ks, psk, dhe, hello, HelloSent(cfg, a))
            && o.reply.value.bytes == RfcFlight(c, psk, dhe, hello, HelloSent(cfg, a))
  {
    var a := Admit(s, m, cfg).value;
    var s1 := s.(ks := BinderSchedule(c, s, cfg));
    assert a.decision.Use?;
    FlightIsRfc(c, s1, m, a, cfg, cap, psk);
  }

  // --- Whole handshakes ---

  lemma {:induction false} FirstHelloHasEarlySecret(c: Crypto, cfg: ServerConfig)
    ensures HasEarlySecret(c, BinderSchedule(c, NEW_SESSION, cfg), cfg.psk)
    ensures BinderSchedule(c, NEW_SESSION, cfg).transcript == []
  {
  }

  /** CH, then client Finished: every key is the one section 7.1 prescribes for these messages. */
  lemma {:induction false} DirectHandshake(c: Crypto, m: bytes, cfg: ServerConfig, cap: nat, record: bytes)
    requires SentFlight(ProcessHello(c, NEW_SESSION, m, cfg, cap))
    requires ProcessFinished(c, ProcessHello(c, NEW_SESSION, m, cfg, cap).session, record).reply.Ok?
    ensures Admit(NEW_SESSION, m, cfg).Ok? && Admit(NEW_SESSION, m, cfg).value.decision.Use?
    ensures var a := Admit(NEW_SESSION, m, cfg).value;
            var o1 := ProcessHello(c, NEW_SESSION, m, cfg, cap);
            var o2 := ProcessFinished(c, o1.session, record);
            var dhe, sh := Ikm(c, cfg, a.decision.kex), HelloSent(cfg, a);
            && o1.reply.value.bytes == RfcFlight(c, cfg.psk, dhe, m, sh)
            && HasHandshakeKeys(c, o1.session.ks, cfg.psk, dhe, m, sh)
            && HasApplicationKeys(c, o2.session.ks, cfg.psk, dhe, ThroughServerFinished(c, cfg.psk, dhe, m, sh))
  {
    FirstHelloHasEarlySecret(c, cfg);
    FlightAnswers(c, NEW_SESSION, m, cfg, cap, cfg.psk);
    var a, o1 := Admit(NEW_SESSION, m, cfg).value, ProcessHello(c, NEW_SESSION, m, cfg, cap);
    assert [] + m == m;
    FinishedIsRfc(c, o1.session, record, cfg.psk, Ikm(c, cfg, a.decision.kex), m, HelloSent(cfg, a));
  }

  /** The session a HelloRetryRequest leaves: early secret of the first PSK, transcript rewritten. */
  lemma {:induction false} RetryLeaves(c: Crypto, m: bytes, cfg: ServerConfig, cap: nat)
    requires SentRetry(ProcessHello(c, NEW_SESSION, m, cfg, cap))
    ensures Admit(NEW_SESSION, m, cfg).Ok?
    ensures var o := ProcessHello(c, NEW_SESSION, m, cfg, cap);
            var f := Admit(NEW_SESSION, m, cfg).value.hello.fields;
            var hrr := RetryMessage(f.sessionId, X25519);
            && o.reply.value.bytes == Record(22, hrr)
            && HasEarlySecret(c, o.session.ks, cfg.psk)
            && o.session.ks.transcript == RetryTranscript(c, m, hrr)
            && o.session.retry == Some(Snapshot(f.random, f.sessionId))
  {
    FirstHelloHasEarlySecret(c, cfg);
  }

  /**
   * CH1, retry, any number of rejected second ClientHellos, CH2, client Finished: the keys
   * are those of section 7.1 with CH1 replaced by its hash (section 4.4.1 of RFC 8446).
   */
  lemma {:induction false} RetriedHandshake(
    c: Crypto, m1: bytes, cfg1: ServerConfig, cap1: nat, rejected: seq<Call>,
    m2: bytes, cfg2: ServerConfig, cap2: nat, record: bytes)
    requires SentRetry(ProcessHello(c, NEW_SESSION, m1, cfg1, cap1))
    requires var s1 := ProcessHello(c, NEW_SESSION, m1, cfg1, cap1).session;
             && (forall i :: 0 <= i < |rejected| ==> Rejected(c, s1, rejected[i]))
             && SentFlight(ProcessHello(c, After(Server(c), s1, rejected), m2, cfg2, cap2))
             && var o2 := ProcessHello(c, After(Server(c), s1, rejected), m2, cfg2, cap2);
                ProcessFinished(c, o2.session, record).reply.Ok?
    ensures var s1 := ProcessHello(c, NEW_SESSION, m1, cfg1, cap1).session;
            && Admit(NEW_SESSION, m1, cfg1).Ok? && Admit(s1, m2, cfg2).Ok? && Admit(s1, m2, cfg2).value.decision.Use?
            && var f1, a := Admit(NEW_SESSION, m1, cfg1).value.hello.fields, Admit(s1, m2, cfg2).value;
               var hello := RetryTranscript(c, m1, RetryMessage(f1.sessionId, X25519)) + m2;
               var dhe, sh := Ikm(c, cfg2, a.decision.kex), HelloSent(cfg2, a);
               var o2 := ProcessHello(c, After(Server(c), s1, rejected), m2, cfg2, cap2);
               var o3 := ProcessFinished(c, o2.session, record);
               && o2.reply.value.bytes == RfcFlight(c, cfg1.psk, dhe, hello, sh)
               && HasHandshakeKeys(c, o2.session.ks, cfg1.psk, dhe, hello, sh)
               && HasApplicationKeys(c, o3.session.ks, cfg1.psk, dhe,
                                     ThroughServerFinished(c, cfg1.psk, dhe, hello, sh))
  {
    RetryLeaves(c, m1, cfg1, cap1);
    var s1 := ProcessHello(c, NEW_SESSION, m1, cfg1, cap1).session;
    RejectionsKeepSession(c, s1, rejected);
    FlightAnswers(c, s1, m2, cfg2, cap2, cfg1.psk);
    var a, o2 := Admit(s1, m2, cfg2).value, ProcessHello(c, s1, m2, cfg2, cap2);
    var hello := s1.ks.transcript + m2;
    FinishedIsRfc(c, o2.session, record, cfg1.psk, Ikm(c, cfg2, a.decision.kex), hello, HelloSent(cfg2, a));
  }
}
