/**
 * What becomes of a ClientHello that passes the server's checks: an answer exactly when its binder is right and
 * the answer can be sent. `Admission` says which ClientHellos pass.
 */
module HonestClient {
  import opened Basics
  import opened Crypto
  import opened KeySchedules
  import opened Rfc8446
  import opened PreSharedKeys
  import opened Extensions
  import opened ClientHellos
  import opened ClientBinders
  import opened ServerHellos
  import opened ServerSpec
  import opened RetryRuns
  import opened ServerKeys

  /** Bytes of a first flight. */
  function FlightSize(cfg: ServerConfig, a: Admitted): nat
    requires a.decision.Use? && (a.decision.kex.PskDheKe? ==> cfg.dhe.Some?)
  {
    5 + |HelloSent(cfg, a)| + EE_RECORD + FINISHED_RECORD
  }

  /** Once the binder is accepted, only space and an all-zero shared secret stand in the way. */
  lemma {:induction false} FlightSentExactlyWhen(
    c: Crypto, s: Session, m: bytes, a: Admitted, cfg: ServerConfig, cap: nat)
    requires a.decision.Use? && (a.decision.kex.PskDheKe? ==> cfg.dhe.Some?)
    ensures SentFlight(SendFlight(c, s, m, a, cfg, cap)) <==>
      && FlightSize(cfg, a) <= cap
      && !(a.decision.kex.PskDheKe? && Ikm(c, cfg, a.decision.kex) == Zeros(X25519_LEN))
  {
  }

  /**
   * A ClientHello is answered with a flight exactly when it is admitted, its binder matches, and the flight
   * can be sent.
   */
  lemma {:induction false} HelloAnsweredExactlyWhen(c: Crypto, s: Session, m: bytes, cfg: ServerConfig, cap: nat)
    requires Admit(s, m, cfg).Ok? && Admit(s, m, cfg).value.decision.Use?
    requires BinderSchedule(c, s, cfg).binderKey.Some?
    ensures var a := Admit(s, m, cfg).value;
            SentFlight(ProcessHello(c, s, m, cfg, cap)) <==>
              && BinderMatches(c, BinderSchedule(c, s, cfg).binderKey.value, BinderInput(s, m, a.hello.bindersAt),
                               a.binder)
              && FlightSize(cfg, a) <= cap
              && !(a.decision.kex.PskDheKe? && Ikm(c, cfg, a.decision.kex) == Zeros(X25519_LEN))
  {
    var a := Admit(s, m, cfg).value;
    AnswerOf(c, s, m, cfg, cap, a);
    AnswerExactlyWhen(c, s, m, cfg, cap, a);
  }

  lemma {:induction false} AnswerExactlyWhen(
    c: Crypto, s: Session, m: bytes, cfg: ServerConfig, cap: nat, a: Admitted)
    requires Admissible(s, m, cfg, a) && a.decision.Use? && BinderSchedule(c, s, cfg).binderKey.Some?
    ensures SentFlight(Answer(c, s, m, cfg, cap, a)) <==>
              && BinderMatches(c, BinderSchedule(c, s, cfg).binderKey.value, BinderInput(s, m, a.hello.bindersAt),
                               a.binder)
              && FlightSize(cfg, a) <= cap
              && !(a.decision.kex.PskDheKe? && Ikm(c, cfg, a.decision.kex) == Zeros(X25519_LEN))
  {
    FlightSentExactlyWhen(c, s.(ks := BinderSchedule(c, s, cfg)), m, a, cfg, cap);
  }

  /** What a HelloRetryRequest sends and leaves: the echoed session id, the rewritten transcript, the pinned fields. */
  predicate Retries(c: Crypto, s: Session, m: bytes, a: Admitted, o: Outcome) {
    var hrr := RetryMessage(a.hello.fields.sessionId, X25519);
    && o.reply == Ok(HelloRetryRequest(Record(HANDSHAKE, hrr))) && o.seals == []
    && o.session.ks == s.ks.(transcript := Message(MESSAGE_HASH, c.val(Hash(m))) + hrr)
    && o.session.retry == Some(Snapshot(a.hello.fields.random, a.hello.fields.sessionId))
  }

  /** A ClientHello that has to be retried gets a HelloRetryRequest exactly when its binder matches and it fits. */
  lemma {:induction false} RetrySentExactlyWhen(
    c: Crypto, s: Session, m: bytes, cfg: ServerConfig, cap: nat, a: Admitted)
    requires Admit(s, m, cfg) == Ok(a) && a.decision == Retry
    ensures var s1, o := s.(ks := BinderSchedule(c, s, cfg)), ProcessHello(c, s, m, cfg, cap);
            if BinderMatches(c, s1.ks.binderKey.value, m[..a.hello.bindersAt], a.binder)
               && |Record(HANDSHAKE, RetryMessage(a.hello.fields.sessionId, X25519))| <= cap
            then Retries(c, s1, m, a, o) else o.reply.Err? && o.session == s1 && o.seals == []
  {
    AnswerOf(c, s, m, cfg, cap, a);
    assert [] + m[..a.hello.bindersAt] == m[..a.hello.bindersAt];
  }

  lemma {:induction false} FirstOfAppend(exts: seq<ClientExt>, e: ClientExt, want: ClientExt -> bool)
    requires want(e) && forall i :: 0 <= i < |exts| ==> !want(exts[i])
    ensures First(exts + [e], want) == Some(e)
  {
    if exts == [] {
      assert exts + [e] == [e];
    } else {
      assert (exts + [e])[1..] == exts[1..] + [e] && (exts + [e])[0] == exts[0];
      FirstOfAppend(exts[1..], e, want);
    }
  }

  /** The extensions the server parses from an offer. */
  function OfferExts(xs: seq<Raw>, ids: seq<bytes>, binder: bytes): seq<ClientExt>
    requires Collect(ClientBody, MAX_EXTENSIONS, xs).Ok? && |ids| <= MAX_PSKS
  {
    Collect(ClientBody, MAX_EXTENSIONS, xs).value + [PreSharedKey(Psks(ids, Repeat(binder, |ids|), HASH_LEN))]
  }

  /** Locating our identity in an offer finds one of its (equal) binders. */
  lemma {:induction false} OfferLocated(xs: seq<Raw>, ids: seq<bytes>, binder: bytes, identity: bytes)
    requires Collect(ClientBody, MAX_EXTENSIONS, xs).Ok? && |ids| <= MAX_PSKS
    requires var exts := Collect(ClientBody, MAX_EXTENSIONS, xs).value;
             forall i :: 0 <= i < |exts| ==> !exts[i].PreSharedKey?
    requires IndexOf(ids, identity).Some?
    ensures Locate(OfferExts(xs, ids, binder), identity) == Ok((IndexOf(ids, identity).value, binder))
  {
    var e := PreSharedKey(Psks(ids, Repeat(binder, |ids|), HASH_LEN));
    FirstOfAppend(Collect(ClientBody, MAX_EXTENSIONS, xs).value, e, (e: ClientExt) => e.PreSharedKey?);
  }

  /** What a server asks of an offer besides the binder: version, suite, pinned fields, a usable mode, our identity. */
  predicate Suits(s: Session, f: Fields, exts: seq<ClientExt>, ids: seq<bytes>, cfg: ServerConfig, kex: Kex) {
    && CheckVersions(exts).None?
    && OffersSuite(f.suites)
    && CheckUnchanged(f, s.retry).None?
    && DecideKex(exts, cfg.dhe.Some?, s.retry.Some?) == Ok(Use(kex))
    && IndexOf(ids, cfg.identity).Some?
  }

  lemma {:induction false} OfferAdmitted(
    s: Session, f: Fields, xs: seq<Raw>, ids: seq<bytes>, binder: bytes, cfg: ServerConfig, kex: Kex)
    requires CanOffer(f, xs, ids) && |binder| == HASH_LEN
    requires Suits(s, f, OfferExts(xs, ids, binder), ids, cfg, kex)
    ensures var m := HelloWithPsks(f, xs, ids, Repeat(binder, |ids|));
            Admit(s, m, cfg) == Ok(Admitted(Hello(f, OfferExts(xs, ids, binder), |Covered(f, xs, ids)|),
                                            Use(kex), IndexOf(ids, cfg.identity).value, binder))
  {
    OfferParses(f, xs, ids, binder);
    OfferLocated(xs, ids, binder, cfg.identity);
  }

  /** The binder an RFC-following client puts in: over what it has sent, with the PSK's binder key. */
  function HonestBinder(c: Crypto, s: Session, psk: bytes, f: Fields, xs: seq<Raw>, ids: seq<bytes>): (r: bytes)
    ensures |r| == HASH_LEN
  {
    var base := if s.retry.Some? then s.ks.transcript else [];
    FinishedMac(c, BinderKey(c, psk), base + Covered(f, xs, ids))
  }

  function HonestHello(c: Crypto, s: Session, psk: bytes, f: Fields, xs: seq<Raw>, ids: seq<bytes>): bytes {
    HelloWithPsks(f, xs, ids, Repeat(HonestBinder(c, s, psk, f, xs, ids), |ids|))
  }

  /** The server's checks pass and the binder is made with its PSK; output space and the shared secret are apart. */
  predicate Honest(
    c: Crypto, s: Session, psk: bytes, f: Fields, xs: seq<Raw>, ids: seq<bytes>, cfg: ServerConfig, kex: Kex)
  {
    && CanOffer(f, xs, ids)
    && HasEarlySecret(c, BinderSchedule(c, s, cfg), psk)
    && Suits(s, f, OfferExts(xs, ids, HonestBinder(c, s, psk, f, xs, ids)), ids, cfg, kex)
  }

  /** The ServerHello that answers the offer. */
  function HonestReply(cfg: ServerConfig, f: Fields, ids: seq<bytes>, kex: Kex): bytes
    requires IndexOf(ids, cfg.identity).Some? && (kex.PskDheKe? ==> cfg.dhe.Some?)
  {
    FlightHello(cfg.random, f.sessionId, ShareOf(cfg, kex), IndexOf(ids, cfg.identity).value)
  }

  /** Whether a flight that starts with this ServerHello fits the output buffer. */
  predicate RecordsFit(sh: bytes, cap: nat) { 5 + |sh| + EE_RECORD + FINISHED_RECORD <= cap }

  lemma {:induction false} HonestBinderMatches(
    c: Crypto, s: Session, psk: bytes, f: Fields, xs: seq<Raw>, ids: seq<bytes>)
    ensures var at := |Covered(f, xs, ids)|;
            && at <= |HonestHello(c, s, psk, f, xs, ids)|
            && BinderMatches(c, BinderKey(c, psk), BinderInput(s, HonestHello(c, s, psk, f, xs, ids), at),
                             HonestBinder(c, s, psk, f, xs, ids))
  {
    var binder := HonestBinder(c, s, psk, f, xs, ids);
    CoveredThenBinders(f, xs, ids, binder);
    assert HonestHello(c, s, psk, f, xs, ids)[..|Covered(f, xs, ids)|] == Covered(f, xs, ids);
  }

  lemma {:induction false} CoveredPrefix(f: Fields, xs: seq<Raw>, ids: seq<bytes>, binder: bytes)
    requires |binder| == HASH_LEN
    ensures var m, n := HelloWithPsks(f, xs, ids, Repeat(binder, |ids|)), |Covered(f, xs, ids)|;
            n <= |m| && m[..n] == Covered(f, xs, ids)
  {
    CoveredThenBinders(f, xs, ids, binder);
  }

  lemma {:induction false} AcceptedExactlyWhen(
    c: Crypto, s: Session, m: bytes, cfg: ServerConfig, cap: nat, a: Admitted, covered: bytes)
    requires Admit(s, m, cfg) == Ok(a) && a.decision.Use? && s.retry.None? && FlightSize(cfg, a) <= cap
    requires a.decision.kex.PskDheKe? ==> Ikm(c, cfg, a.decision.kex) != Zeros(X25519_LEN)
    requires a.hello.bindersAt == |covered| && m[..|covered|] == covered
    ensures SentFlight(ProcessHello(c, s, m, cfg, cap)) <==>
            a.binder == FinishedMac(c, BinderSchedule(c, s, cfg).binderKey.value, covered)
  {
    assert [] + covered == covered;
    AnswerOf(c, s, m, cfg, cap, a);
    AnswerExactlyWhen(c, s, m, cfg, cap, a);
  }

  /** On a session without a retry, an offer the server can use is answered exactly when its binder is the MAC. */
  lemma {:induction false} OfferAnsweredExactlyWhen(
    c: Crypto, s: Session, f: Fields, xs: seq<Raw>, ids: seq<bytes>, binder: bytes, cfg: ServerConfig, cap: nat,
    kex: Kex)
    requires CanOffer(f, xs, ids) && |binder| == HASH_LEN && s.retry.None?
    requires Suits(s, f, OfferExts(xs, ids, binder), ids, cfg, kex)
    requires kex.PskDheKe? ==> Ikm(c, cfg, kex) != Zeros(X25519_LEN)
    requires RecordsFit(HonestReply(cfg, f, ids, kex), cap)
    ensures SentFlight(ProcessHello(c, s, HelloWithPsks(f, xs, ids, Repeat(binder, |ids|)), cfg, cap)) <==>
            binder == FinishedMac(c, BinderSchedule(c, s, cfg).binderKey.value, Covered(f, xs, ids))
  {
    var m := HelloWithPsks(f, xs, ids, Repeat(binder, |ids|));
    var a := Admitted(Hello(f, OfferExts(xs, ids, binder), |Covered(f, xs, ids)|), Use(kex),
                      IndexOf(ids, cfg.identity).value, binder);
    OfferAdmitted(s, f, xs, ids, binder, cfg, kex);
    CoveredPrefix(f, xs, ids, binder);
    AcceptedExactlyWhen(c, s, m, cfg, cap, a, Covered(f, xs, ids));
  }

  /** A ClientHello that passes the checks with such a binder gets the first flight of section 7.1's keys. */
  lemma {:induction false} HonestHelloAnswered(
    c: Crypto, s: Session, psk: bytes, f: Fields, xs: seq<Raw>, ids: seq<bytes>, cfg: ServerConfig, cap: nat, kex: Kex)
    requires Honest(c, s, psk, f, xs, ids, cfg, kex)
    requires kex.PskDheKe? ==> Ikm(c, cfg, kex) != Zeros(X25519_LEN)
    requires RecordsFit(HonestReply(cfg, f, ids, kex), cap)
    ensures var m := HonestHello(c, s, psk, f, xs, ids);
            var sh := HonestReply(cfg, f, ids, kex);
            ProcessHello(c, s, m, cfg, cap).reply
            == Ok(FirstFlight(RfcFlight(c, psk, Ikm(c, cfg, kex), BinderSchedule(c, s, cfg).transcript + m, sh)))
  {
    var m, binder := HonestHello(c, s, psk, f, xs, ids), HonestBinder(c, s, psk, f, xs, ids);
    OfferAdmitted(s, f, xs, ids, binder, cfg, kex);
    HonestBinderMatches(c, s, psk, f, xs, ids);
    HelloAnsweredExactlyWhen(c, s, m, cfg, cap);
    FlightAnswers(c, s, m, cfg, cap, psk);
  }

  /**
   * After a retry, however many second ClientHellos were rejected at or before the binder
   * check, one that passes the checks still gets the DHE flight, over message_hash, HRR and CH2.
   */
  lemma {:induction false} RetrySurvivesRejections(
    c: Crypto, m1: bytes, cfg1: ServerConfig, cap1: nat, s1: Session, rejected: seq<Call>,
    f: Fields, xs: seq<Raw>, ids: seq<bytes>, cfg2: ServerConfig, cap2: nat, share: bytes)
    requires SentRetry(ProcessHello(c, NEW_SESSION, m1, cfg1, cap1))
    requires s1 == ProcessHello(c, NEW_SESSION, m1, cfg1, cap1).session
    requires forall i :: 0 <= i < |rejected| ==> Rejected(c, s1, rejected[i])
    requires cfg2.dhe.Some? && IndexOf(ids, cfg2.identity).Some?
    requires Honest(c, s1, cfg1.psk, f, xs, ids, cfg2, PskDheKe(share))
    requires Ikm(c, cfg2, PskDheKe(share)) != Zeros(X25519_LEN)
    requires RecordsFit(HonestReply(cfg2, f, ids, PskDheKe(share)), cap2)
    ensures s1.retry.Some?
    ensures var m2 := HonestHello(c, s1, cfg1.psk, f, xs, ids);
            var hello := RetryTranscript(c, m1, RetryMessage(s1.retry.value.sessionId, X25519)) + m2;
            ProcessHello(c, After(Server(c), s1, rejected), m2, cfg2, cap2).reply
            == Ok(FirstFlight(RfcFlight(c, cfg1.psk, c.x25519(cfg2.dhe.value.secret, share), hello,
                                        HonestReply(cfg2, f, ids, PskDheKe(share)))))
  {
    RetryLeaves(c, m1, cfg1, cap1);
    RejectionsKeepSession(c, s1, rejected);
    HonestHelloAnswered(c, s1, cfg1.psk, f, xs, ids, cfg2, cap2, PskDheKe(share));
  }
}
