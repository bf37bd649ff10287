/** After a retry: exactly when a flight's keys start from the early secret section 7.1 prescribes. */
module RetriedChain {
  import opened Basics
  import opened Crypto
  import opened KeySchedules
  import opened Rfc8446
  import opened Extensions
  import opened ServerSpec
  import opened NonceUse
  import opened ServerKeys
  import opened Keying
  import opened FirstHello

  /** The secret chain only grows; after a retry and before keys, only entering the handshake moves it. */
  predicate SecretRule(s: Session, enters: bool, o: Outcome) {
    && (o.session.ks.secret == s.ks.secret || Depth(s.ks.secret) < Depth(o.session.ks.secret))
    && (enters ==> Depth(s.ks.secret) < Depth(o.session.ks.secret))
    && (s.retry.Some? ==> o.session.retry.Some?)
    && (s.retry.Some? && !HasKeys(s) && !enters ==> o.session.ks.secret == s.ks.secret)
  }

  lemma {:induction false} RekeyDepth(c: Crypto, ks: Schedule, ikm: bytes, cl: bytes, sl: bytes)
    ensures Depth(ks.Rekeyed(c, ikm, cl, sl).secret) == Depth(ks.secret) + 2
  {
  }

  lemma {:induction false} EarlyDepth(c: Crypto, ks: Schedule, psk: bytes)
    ensures Depth(ks.Early(c, psk).secret) == Depth(ks.secret) + 2
  {
  }

  lemma {:induction false} FlightSecret(c: Crypto, s: Session, m: bytes, a: Admitted, cfg: ServerConfig, cap: nat)
    requires a.decision.Use? && (a.decision.kex.PskDheKe? ==> cfg.dhe.Some?)
    ensures var enters := |Record(HANDSHAKE, HelloSent(cfg, a))| <= cap
                          && !(a.decision.kex.PskDheKe? && Ikm(c, cfg, a.decision.kex) == Zeros(X25519_LEN));
            var o := SendFlight(c, s, m, a, cfg, cap);
            && o.session.retry == s.retry
            && (if enters then Depth(s.ks.secret) < Depth(o.session.ks.secret)
                else o.session.ks.secret == s.ks.secret)
  {
    RekeyDepth(c, s.ks.Absorb(m).Absorb(HelloSent(cfg, a)), Ikm(c, cfg, a.decision.kex), C_HS, S_HS);
  }

  lemma {:induction false} NoFlightSecret(c: Crypto, s: Session, m: bytes, cfg: ServerConfig, cap: nat, a: Admitted)
    requires Admissible(s, m, cfg, a) && !(a.decision.Use? && Bound(c, s, m, cfg, a))
    ensures var o := Answer(c, s, m, cfg, cap, a);
            o.session.ks.secret == BinderSchedule(c, s, cfg).secret && (s.retry.Some? ==> o.session.retry.Some?)
  {
  }

  lemma {:induction false} AnswerSecret(c: Crypto, s: Session, m: bytes, cfg: ServerConfig, cap: nat, a: Admitted)
    requires Admissible(s, m, cfg, a)
    ensures SecretRule(s, EntersWith(c, s, m, cfg, cap, a), Answer(c, s, m, cfg, cap, a))
  {
    EarlyDepth(c, s.ks, cfg.psk);
    if a.decision.Use? && Bound(c, s, m, cfg, a) {
      FlightSecret(c, s.(ks := BinderSchedule(c, s, cfg)), m, a, cfg, cap);
    } else {
      NoFlightSecret(c, s, m, cfg, cap, a);
    }
  }

  lemma {:induction false} HelloSecret(c: Crypto, s: Session, m: bytes, cfg: ServerConfig, cap: nat)
    ensures SecretRule(s, Enters(c, s, ClientHello(m, cfg, cap)), ProcessHello(c, s, m, cfg, cap))
  {
    var admitted := Admit(s, m, cfg);
    if admitted.Ok? {
      AnswerOf(c, s, m, cfg, cap, admitted.value);
      AnswerSecret(c, s, m, cfg, cap, admitted.value);
    }
  }

  lemma {:induction false} FinishSecret(c: Crypto, s: Session, ks: Schedule, p: bytes)
    requires ks.secret == s.ks.secret && ks.client.secret == s.ks.client.secret
    ensures SecretRule(s, false, Finish(c, s, ks, p))
  {
    RekeyDepth(c, ks, Zeros(HASH_LEN), C_AP, S_AP);
  }

  lemma {:induction false} FinishedSecret(c: Crypto, s: Session, record: bytes)
    ensures SecretRule(s, false, ProcessFinished(c, s, record))
  {
    var (ks, plain) := OpenRecord(c, s.ks, record, FINISHED_BUFFER);
    if plain.Ok? {
      FinishSecret(c, s, ks, plain.value);
    }
  }

  lemma {:induction false} RecordSecret(c: Crypto, s: Session, record: bytes, inner: bytes, cap: nat)
    ensures SecretRule(s, false, ReceiveAny(c, s, record, cap))
    ensures SecretRule(s, false, ReceiveData(c, s, record, cap))
    ensures SecretRule(s, false, Protect(c, s, inner, cap))
  {
  }

  lemma {:induction false} StepSecret(c: Crypto, s: Session, call: Call)
    ensures SecretRule(s, Enters(c, s, call), Step(c, s, call))
  {
    match call {
      case ClientHello(m, cfg, cap) => HelloSecret(c, s, m, cfg, cap);
      case ClientFinished(record) => FinishedSecret(c, s, record);
      case EncryptData(payload, cap) => RecordSecret(c, s, [], payload + [APPLICATION_DATA], cap);
      case EncryptAlert(level, description, cap) => RecordSecret(c, s, [], [level, description, ALERT], cap);
      case DecryptData(record, cap) => RecordSecret(c, s, record, [], cap);
      case DecryptAny(record, cap) => RecordSecret(c, s, record, [], cap);
    }
  }

  /** The chain over a run: unmoved exactly when nothing entered, if there were no keys to begin with. */
  lemma {:induction false} RunSecret(step: Stepper, s: Session, enters: (Session, Call) -> bool, calls: seq<Call>)
    requires ZeroUntilKeyed(s.ks)
    requires forall s, call :: SecretRule(s, enters(s, call), step(s, call))
    requires forall s, call :: KeyingRule(s, enters(s, call), step(s, call))
    ensures var t := After(step, s, calls);
            && (t.ks.secret == s.ks.secret || Depth(s.ks.secret) < Depth(t.ks.secret))
            && (!Never(step, s, enters, calls) ==> Depth(s.ks.secret) < Depth(t.ks.secret))
            && (s.retry.Some? ==> t.retry.Some?)
            && (s.retry.Some? && !HasKeys(s) && Never(step, s, enters, calls) ==> t.ks.secret == s.ks.secret)
    decreases |calls|
  {
    if calls != [] {
      var before, call := calls[..|calls| - 1], calls[|calls| - 1];
      RunSecret(step, s, enters, before);
      RunKeying(step, s, enters, before);
      var t := After(step, s, before);
      assert SecretRule(t, enters(t, call), step(t, call));
      NeverLast(step, s, enters, before, call);
      assert before + [call] == calls;
    }
  }

  /** The chain of a run from a new session is the zero it started with, or derived. */
  lemma {:induction false} ZeroOrDerived(c: Crypto, calls: seq<Call>)
    ensures var ks := After(Server(c), NEW_SESSION, calls).ks; Pristine(ks) || Depth(ks.secret) > 0
  {
    ServerRun(c, NEW_SESSION, calls);
  }

  lemma {:induction false} ServerRun(c: Crypto, s: Session, calls: seq<Call>)
    requires ZeroUntilKeyed(s.ks)
    ensures var t, never := After(Server(c), s, calls), Never(Server(c), s, Entering(c), calls);
            && (t.ks.secret == s.ks.secret || Depth(s.ks.secret) < Depth(t.ks.secret))
            && (!never ==> Depth(s.ks.secret) < Depth(t.ks.secret))
            && (s.retry.Some? ==> t.retry.Some?)
            && (s.retry.Some? && !HasKeys(s) && never ==> t.ks.secret == s.ks.secret)
  {
    forall s, call
      ensures SecretRule(s, Entering(c)(s, call), Server(c)(s, call))
      ensures KeyingRule(s, Entering(c)(s, call), Server(c)(s, call))
    {
      StepSecret(c, s, call);
      StepKeying(c, s, call);
    }
    RunSecret(Server(c), s, Entering(c), calls);
  }

  /** The chain after the early secret of `psk` alone. */
  function Started(c: Crypto, psk: bytes): Term { DeriveSecret(c, EarlySecret(psk), Ascii("derived"), []) }

  lemma {:induction false} StartedExactlyWhen(c: Crypto, ks: Schedule, psk: bytes)
    ensures ks.Early(c, psk).secret == Started(c, psk) <==> Pristine(ks)
    ensures Depth(Started(c, psk)) == 2 && Depth(ks.Early(c, psk).secret) == Depth(ks.secret) + 2
  {
    EarlyDepth(c, ks, psk);
    assert Depth(EarlySecret(psk)) == 1;
  }

  /** What the retry at the end of a run leaves of the chain, and of the keys. */
  lemma {:induction false} RetryStarts(c: Crypto, s: Session, m: bytes, cfg: ServerConfig, cap: nat)
    requires SentRetry(ProcessHello(c, s, m, cfg, cap))
    ensures var t := ProcessHello(c, s, m, cfg, cap).session;
            && s.retry.None? && t.retry.Some? && t.ks.secret == s.ks.Early(c, cfg.psk).secret
            && t.ks.client == s.ks.client && t.ks.server == s.ks.server
  {
    var a := Admit(s, m, cfg).value;
    AnswerOf(c, s, m, cfg, cap, a);
    RetryStartsFrom(c, s, m, cfg, cap, a);
  }

  lemma {:induction false} RetryStartsFrom(c: Crypto, s: Session, m: bytes, cfg: ServerConfig, cap: nat, a: Admitted)
    requires Admissible(s, m, cfg, a) && SentRetry(Answer(c, s, m, cfg, cap, a))
    ensures var t := Answer(c, s, m, cfg, cap, a).session;
            && s.retry.None? && t.retry.Some? && t.ks.secret == s.ks.Early(c, cfg.psk).secret
            && t.ks.client == s.ks.client && t.ks.server == s.ks.server
  {
  }

  /** The secret of a flight on a session that has sent a retry, in terms of the session's chain. */
  lemma {:induction false} FlightFrom(
    c: Crypto, s: Session, m: bytes, cfg: ServerConfig, cap: nat, a: Admitted, psk: bytes)
    requires Admissible(s, m, cfg, a) && s.retry.Some? && a.decision.Use? && SentFlight(Answer(c, s, m, cfg, cap, a))
    ensures var secret := ServerHandshakeSecret(c, psk, Ikm(c, cfg, a.decision.kex),
                                                s.ks.transcript + m + HelloSent(cfg, a));
            Answer(c, s, m, cfg, cap, a).session.ks.server.secret == Some(secret) <==> s.ks.secret == Started(c, psk)
  {
  }

  /** The chain since a retry: its PSK's early secret exactly when it was clean before and nothing entered since. */
  lemma {:induction false} ChainExactlyWhen(c: Crypto, before: seq<Call>, retry: Call, since: seq<Call>)
    requires retry.ClientHello? && SentRetry(Step(c, After(Server(c), NEW_SESSION, before), retry))
    ensures var t := Step(c, After(Server(c), NEW_SESSION, before), retry).session;
            var s := After(Server(c), t, since);
            && s.retry.Some?
            && (s.ks.secret == Started(c, retry.config.psk) <==>
                  && Never(Server(c), NEW_SESSION, Admits, before)
                  && Never(Server(c), t, Entering(c), since))
  {
    var s0, psk := After(Server(c), NEW_SESSION, before), retry.config.psk;
    RetryStarts(c, s0, retry.message, retry.config, retry.cap);
    UntouchedExactlyWhen(c, before);
    ZeroOrDerived(c, before);
    KeysExactlyWhenEntered(c, before);
    StartedExactlyWhen(c, s0.ks, psk);
    var t := Step(c, s0, retry).session;
    ServerRun(c, t, since);
  }

  /**
   * On a session that has sent a HelloRetryRequest, a flight runs on the handshake keys of section 7.1 over the
   * session's transcript exactly when no call before the retry admitted a ClientHello and none since entered the
   * handshake.
   */
  lemma {:induction false} RetriedKeysExactlyWhen(
    c: Crypto, before: seq<Call>, retry: Call, since: seq<Call>, m: bytes, cfg: ServerConfig, cap: nat)
    requires retry.ClientHello? && SentRetry(Step(c, After(Server(c), NEW_SESSION, before), retry))
    requires var t := Step(c, After(Server(c), NEW_SESSION, before), retry).session;
             SentFlight(ProcessHello(c, After(Server(c), t, since), m, cfg, cap))
    ensures var t := Step(c, After(Server(c), NEW_SESSION, before), retry).session;
            var s := After(Server(c), t, since);
            && Admit(s, m, cfg).Ok? && Admit(s, m, cfg).value.decision.Use?
            && var a := Admit(s, m, cfg).value;
               var secret := ServerHandshakeSecret(c, retry.config.psk, Ikm(c, cfg, a.decision.kex),
                                                   s.ks.transcript + m + HelloSent(cfg, a));
               ProcessHello(c, s, m, cfg, cap).session.ks.server.secret == Some(secret) <==>
                 && Never(Server(c), NEW_SESSION, Admits, before)
                 && Never(Server(c), t, Entering(c), since)
  {
    ChainExactlyWhen(c, before, retry, since);
    var t := Step(c, After(Server(c), NEW_SESSION, before), retry).session;
    FlightAfter(c, After(Server(c), t, since), m, cfg, cap, retry.config.psk);
  }

  lemma {:induction false} FlightAfter(c: Crypto, s: Session, m: bytes, cfg: ServerConfig, cap: nat, psk: bytes)
    requires s.retry.Some? && SentFlight(ProcessHello(c, s, m, cfg, cap))
    ensures Admit(s, m, cfg).Ok? && Admit(s, m, cfg).value.decision.Use?
    ensures var a := Admit(s, m, cfg).value;
            var secret := ServerHandshakeSecret(c, psk, Ikm(c, cfg, a.decision.kex),
                                                s.ks.transcript + m + HelloSent(cfg, a));
            ProcessHello(c, s, m, cfg, cap).session.ks.server.secret == Some(secret) <==>
            s.ks.secret == Started(c, psk)
  {
    var a := Admit(s, m, cfg).value;
    AnswerOf(c, s, m, cfg, cap, a);
    FlightUses(c, s, m, cfg, cap, a);
    FlightFrom(c, s, m, cfg, cap, a, psk);
  }

  lemma {:induction false} FlightUses(c: Crypto, s: Session, m: bytes, cfg: ServerConfig, cap: nat, a: Admitted)
    requires Admissible(s, m, cfg, a) && SentFlight(Answer(c, s, m, cfg, cap, a))
    ensures a.decision.Use?
  {
  }
}
