/** What a first flight looks like on the wire. */
module Flights {
  import opened Basics
  import opened Crypto
  import opened KeySchedules
  import opened Rfc8446
  import opened ParseBuffers
  import opened Extensions
  import opened ServerHellos
  import opened ServerSpec
  import opened Framing
  import opened ServerKeys

  lemma {:induction false} FlightHelloSize(random: bytes, sid: bytes, share: Option<bytes>, index: nat)
    requires |random| == 32 && |sid| <= 32 && (share.Some? ==> |share.value| == X25519_LEN)
    ensures |FlightHello(random, sid, share, index)| == 44 + |sid| + if share.Some? then 52 else 12
  {
    FlightExtsLen(share, index);
    var body := ServerHelloBody(random, sid, AES_128_GCM_SHA256, FlightExts(share, index));
    assert |body| == 40 + |sid| + if share.Some? then 52 else 12;
  }

  lemma {:induction false} ThreeFrames(a: Frame, b: Frame, d: Frame)
    requires WireFrame(a) && WireFrame(b) && WireFrame(d)
    ensures Frames(EncodeFrame(a) + EncodeFrame(b) + EncodeFrame(d)) == Got([a, b, d], [])
  {
    var fs := [a, b, d];
    assert fs[1..] == [b, d] && fs[1..][1..] == [d] && fs[1..][1..][1..] == [];
    assert EncodeFrame(d) + [] == EncodeFrame(d);
    assert EncodeAll(EncodeFrame, [d]) == EncodeFrame(d);
    assert EncodeAll(EncodeFrame, [b, d]) == EncodeFrame(b) + EncodeFrame(d);
    Assoc(EncodeFrame(a), EncodeFrame(b), EncodeFrame(d));
    FramesOfEncoded(fs);
  }

  /** The frame decrypts, as record `n` under `secret`, to `inner`. */
  predicate OpensTo(c: Crypto, secret: Term, n: nat, f: Frame, inner: bytes) {
    c.open(TrafficKey(secret), Nonce(c.val(TrafficIv(secret)), n), f.header, f.body) == Some(inner)
  }

  /** The sealed record as a frame: its header is its own additional data. */
  lemma {:induction false} RfcRecordIsFrame(c: Crypto, secret: Term, n: nat, inner: bytes) returns (f: Frame)
    requires |inner| + 16 < 65536
    ensures WireFrame(f) && f.header[0] == APPLICATION_DATA && EncodeFrame(f) == RfcRecord(c, secret, n, inner)
    ensures OpensTo(c, secret, n, f, inner)
  {
    var header := [23, 3, 3] + U16(|inner| + 16);
    U16Read(|inner| + 16);
    f := Frame(header, c.val(Sealed(TrafficKey(secret), Nonce(c.val(TrafficIv(secret)), n), header, inner)));
  }

  /** The three records of a flight of section 7.1, whatever its ServerHello. */
  lemma {:induction false} RfcFlightFrames(c: Crypto, psk: bytes, dhe: bytes, hello: bytes, sh: bytes)
    returns (second: Frame, third: Frame)
    requires |sh| < 65536
    ensures var secret, ee := ServerHandshakeSecret(c, psk, dhe, hello + sh), Message(8, [0, 0]);
            && WireFrame(RecordFrame(HANDSHAKE, sh)) && WireFrame(second) && WireFrame(third)
            && Frames(RfcFlight(c, psk, dhe, hello, sh)) == Got([RecordFrame(HANDSHAKE, sh), second, third], [])
            && second.header[0] == third.header[0] == APPLICATION_DATA
            && OpensTo(c, secret, 0, second, ee + [HANDSHAKE])
            && OpensTo(c, secret, 1, third, RfcFinished(c, secret, hello + sh + ee) + [HANDSHAKE])
  {
    var secret, ee := ServerHandshakeSecret(c, psk, dhe, hello + sh), Message(8, [0, 0]);
    RecordIsFrame(HANDSHAKE, sh);
    second := RfcRecordIsFrame(c, secret, 0, ee + [22]);
    third := RfcRecordIsFrame(c, secret, 1, RfcFinished(c, secret, hello + sh + ee) + [22]);
    ThreeFrames(RecordFrame(HANDSHAKE, sh), second, third);
  }

  // --- What the server really sends ---

  /** The frame decrypts, as record `n` of the direction `t`, to `inner`. */
  predicate OpensAt(c: Crypto, t: Traffic, n: nat, f: Frame, inner: bytes) {
    c.open(t.key, Nonce(c.val(t.iv), n), f.header, f.body) == Some(inner)
  }

  /** A sealed record as a frame. */
  lemma {:induction false} SealedIsFrame(c: Crypto, t: Traffic, inner: bytes) returns (f: Frame)
    requires |inner| + TAG_LEN < 65536
    ensures WireFrame(f) && f.header[0] == APPLICATION_DATA && EncodeFrame(f) == SealedRecord(c, t, inner)
    ensures OpensAt(c, t, t.counter, f, inner)
  {
    var header := Aad(|inner| + TAG_LEN);
    U16Read(|inner| + TAG_LEN);
    f := Frame(header, c.val(Sealed(t.key, NonceOf(c, t), header, inner)));
  }

  /** A Finished over `messages` as the owner of `t` makes it. */
  function FinishedOver(c: Crypto, t: Traffic, messages: bytes): bytes
    requires t.secret.Some?
  {
    Message(FINISHED, FinishedMac(c, t.secret.value, messages))
  }

  /**
   * Three records: the given ServerHello, then EncryptedExtensions and Finished, sealed at counters 0 and 1
   * under the keys the session now sends with; the Finished covers all that was hashed before it.
   */
  predicate ThreeRecords(c: Crypto, o: Outcome, before: bytes, sh: bytes, first: Frame, second: Frame, third: Frame) {
    var server, ee := o.session.ks.server, EMPTY_EXTENSIONS;
    && SentFlight(o) && Frames(o.reply.value.bytes) == Got([first, second, third], [])
    && WireFrame(first) && WireFrame(second) && WireFrame(third)
    && first == RecordFrame(HANDSHAKE, sh)
    && second.header[0] == third.header[0] == APPLICATION_DATA
    && server.secret.Some? && server.counter == 2
    && OpensAt(c, server, 0, second, ee + [HANDSHAKE])
    && OpensAt(c, server, 1, third, FinishedOver(c, server, before + sh + ee) + [HANDSHAKE])
    && o.session.ks.transcript == before + sh + ee + FinishedOver(c, server, before + sh + ee)
  }

  lemma {:induction false} SealedThree(c: Crypto, s: Session, ks: Schedule, before: bytes, sh: bytes, cap: nat)
    returns (first: Frame, second: Frame, third: Frame)
    requires ks.server.secret.Some? && ks.server.counter == 0 && ks.transcript == before + sh && |sh| < 65536
    requires SentFlight(SealFlight(c, s, ks, Record(HANDSHAKE, sh), cap))
    ensures ThreeRecords(c, SealFlight(c, s, ks, Record(HANDSHAKE, sh), cap), before, sh, first, second, third)
  {
    RecordIsFrame(HANDSHAKE, sh);
    first := RecordFrame(HANDSHAKE, sh);
    second := SealedIsFrame(c, ks.server, EMPTY_EXTENSIONS + [HANDSHAKE]);
    var ks1 := Sent(ks.Absorb(EMPTY_EXTENSIONS));
    third := SealedIsFrame(c, ks1.server, FinishedOver(c, ks.server, before + sh + EMPTY_EXTENSIONS) + [HANDSHAKE]);
    ThreeFrames(first, second, third);
  }

  lemma {:induction false} SendsThreeRecords(c: Crypto, s: Session, m: bytes, a: Admitted, cfg: ServerConfig, cap: nat)
    returns (first: Frame, second: Frame, third: Frame)
    requires a.decision.Use? && (a.decision.kex.PskDheKe? ==> cfg.dhe.Some?) && |a.hello.fields.sessionId| <= 32
    requires SentFlight(SendFlight(c, s, m, a, cfg, cap))
    ensures ThreeRecords(c, SendFlight(c, s, m, a, cfg, cap), s.ks.transcript + m, HelloSent(cfg, a),
                         first, second, third)
  {
    var sh := HelloSent(cfg, a);
    FlightHelloSize(cfg.random, a.hello.fields.sessionId, ShareOf(cfg, a.decision.kex), a.index);
    first, second, third := SealedThree(c, s, s.ks.Absorb(m).Absorb(sh).Handshake(c, Ikm(c, cfg, a.decision.kex)),
                                        s.ks.transcript + m, sh, cap);
  }

  lemma {:induction false} AnswerIsThreeRecords(
    c: Crypto, s: Session, m: bytes, cfg: ServerConfig, cap: nat, a: Admitted)
    returns (first: Frame, second: Frame, third: Frame)
    requires Admissible(s, m, cfg, a) && SentFlight(Answer(c, s, m, cfg, cap, a))
    ensures a.decision.Use?
    ensures ThreeRecords(c, Answer(c, s, m, cfg, cap, a), BinderSchedule(c, s, cfg).transcript + m, HelloSent(cfg, a),
                         first, second, third)
    ensures GetServerHello(HelloSent(cfg, a)[4..]) == Ok(Got(FlightExts(ShareOf(cfg, a.decision.kex), a.index), []))
  {
    first, second, third := SendsThreeRecords(c, s.(ks := BinderSchedule(c, s, cfg)), m, a, cfg, cap);
    FlightHelloParses(cfg.random, a.hello.fields.sessionId, ShareOf(cfg, a.decision.kex), a.index);
  }

  /**
   * Every first flight, on whatever session, frames into exactly three records. The ServerHello parses to
   * version 1.3, the key share exactly in DHE mode and the chosen identity.
   */
  lemma {:induction false} FlightIsThreeRecords(c: Crypto, s: Session, m: bytes, cfg: ServerConfig, cap: nat)
    returns (first: Frame, second: Frame, third: Frame)
    requires SentFlight(ProcessHello(c, s, m, cfg, cap))
    ensures Admit(s, m, cfg).Ok? && Admit(s, m, cfg).value.decision.Use?
    ensures var a, o := Admit(s, m, cfg).value, ProcessHello(c, s, m, cfg, cap);
            && ThreeRecords(c, o, BinderSchedule(c, s, cfg).transcript + m, HelloSent(cfg, a), first, second, third)
            && GetServerHello(HelloSent(cfg, a)[4..]) == Ok(Got(FlightExts(ShareOf(cfg, a.decision.kex), a.index), []))
  {
    first, second, third := AnswerIsThreeRecords(c, s, m, cfg, cap, Admit(s, m, cfg).value);
  }
}
