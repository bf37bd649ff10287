/** A first ClientHello that fails still advances the early secret: exactly when that matters. */
module FirstHello {
  import opened Basics
  import opened Crypto
  import opened KeySchedules
  import opened Rfc8446
  import opened ServerSpec
  import opened ServerKeys
  import opened Keying

  /** Nothing has been extracted yet, so nothing has been hashed either. */
  predicate Pristine(ks: Schedule) { ks.secret == Zero(HASH_LEN) }

  predicate Consistent(s: Session) {
    && (Pristine(s.ks) ==> s.ks.transcript == [] && s.retry.None? && s.ks.client.secret.None?)
  }

  /** One call leaves the chain untouched exactly when it admits no ClientHello. */
  predicate ChainRule(s: Session, admits: bool, o: Outcome) {
    Consistent(s) ==> Consistent(o.session) && (Pristine(o.session.ks) <==> Pristine(s.ks) && !admits)
  }

  /** The call gets a ClientHello past the checks before the binder's. */
  predicate Admits(s: Session, call: Call) {
    call.ClientHello? && Admit(s, call.message, call.config).Ok?
  }

  lemma {:induction false} AnswerChain(c: Crypto, s: Session, m: bytes, cfg: ServerConfig, cap: nat, a: Admitted)
    requires Admissible(s, m, cfg, a)
    ensures ChainRule(s, true, Answer(c, s, m, cfg, cap, a))
  {
    var s1 := s.(ks := BinderSchedule(c, s, cfg));
    var o := Answer(c, s, m, cfg, cap, a);
    if Consistent(s) {
      if a.decision.Use? && Bound(c, s, m, cfg, a) {
        FlightMoved(c, s1, m, a, cfg, cap);
      } else {
        NoFlightMoved(c, s, m, cfg, cap, a);
      }
    }
  }

  predicate Moved(o: Outcome) { !Pristine(o.session.ks) }

  lemma {:induction false} FlightMoved(c: Crypto, s: Session, m: bytes, a: Admitted, cfg: ServerConfig, cap: nat)
    requires a.decision.Use? && (a.decision.kex.PskDheKe? ==> cfg.dhe.Some?) && !Pristine(s.ks)
    ensures Moved(SendFlight(c, s, m, a, cfg, cap))
  {
  }

  lemma {:induction false} NoFlightMoved(c: Crypto, s: Session, m: bytes, cfg: ServerConfig, cap: nat, a: Admitted)
    requires Admissible(s, m, cfg, a) && Consistent(s) && !(a.decision.Use? && Bound(c, s, m, cfg, a))
    ensures Moved(Answer(c, s, m, cfg, cap, a))
  {
  }

  lemma {:induction false} FinishChain(c: Crypto, s: Session, ks: Schedule, p: bytes)
    requires ks.secret == s.ks.secret && ks.client.secret == s.ks.client.secret && ks.transcript == s.ks.transcript
    ensures ChainRule(s, false, Finish(c, s, ks, p))
  {
  }

  lemma {:induction false} RecordChain(c: Crypto, s: Session, record: bytes, inner: bytes, cap: nat)
    ensures ChainRule(s, false, ReceiveAny(c, s, record, cap))
    ensures ChainRule(s, false, ReceiveData(c, s, record, cap))
    ensures ChainRule(s, false, Protect(c, s, inner, cap))
  {
  }

  lemma {:induction false} StepChain(c: Crypto, s: Session, call: Call)
    ensures ChainRule(s, Admits(s, call), Step(c, s, call))
  {
    match call {
      case ClientHello(m, cfg, cap) =>
        var admitted := Admit(s, m, cfg);
        if admitted.Ok? { AnswerChain(c, s, m, cfg, cap, admitted.value); }
      case ClientFinished(record) =>
        var (ks, plain) := OpenRecord(c, s.ks, record, FINISHED_BUFFER);
        if plain.Ok? { FinishChain(c, s, ks, plain.value); }
      case EncryptData(payload, cap) => RecordChain(c, s, [], payload + [APPLICATION_DATA], cap);
      case EncryptAlert(level, description, cap) => RecordChain(c, s, [], [level, description, ALERT], cap);
      case DecryptData(record, cap) => RecordChain(c, s, record, [], cap);
      case DecryptAny(record, cap) => RecordChain(c, s, record, [], cap);
    }
  }

  lemma {:induction false} RunChain(step: Stepper, s: Session, admits: (Session, Call) -> bool, calls: seq<Call>)
    requires Consistent(s) && forall s, call :: ChainRule(s, admits(s, call), step(s, call))
    ensures Consistent(After(step, s, calls))
    ensures Pristine(After(step, s, calls).ks) <==> Pristine(s.ks) && Never(step, s, admits, calls)
    decreases |calls|
  {
    if calls != [] {
      var before, call := calls[..|calls| - 1], calls[|calls| - 1];
      RunChain(step, s, admits, before);
      var t := After(step, s, before);
      assert ChainRule(t, admits(t, call), step(t, call));
      NeverLast(step, s, admits, before, call);
      assert before + [call] == calls;
    }
  }

  /** The chain of a run is untouched exactly when no call admitted a ClientHello. */
  lemma {:induction false} UntouchedExactlyWhen(c: Crypto, calls: seq<Call>)
    ensures var s := After(Server(c), NEW_SESSION, calls);
            Consistent(s) && (Pristine(s.ks) <==> Never(Server(c), NEW_SESSION, Admits, calls))
  {
    forall s, call ensures ChainRule(s, Admits(s, call), Server(c)(s, call)) {
      StepChain(c, s, call);
    }
    RunChain(Server(c), NEW_SESSION, Admits, calls);
  }

  /** The server handshake traffic secret section 7.1 prescribes for this ClientHello alone. */
  function RfcSecret(c: Crypto, m: bytes, a: Admitted, cfg: ServerConfig): Term
    requires a.decision.Use? && (a.decision.kex.PskDheKe? ==> cfg.dhe.Some?)
  {
    ServerHandshakeSecret(c, cfg.psk, Ikm(c, cfg, a.decision.kex), m + HelloSent(cfg, a))
  }

  lemma {:induction false} FlightSecretExactlyWhen(
    c: Crypto, s: Session, m: bytes, a: Admitted, cfg: ServerConfig, cap: nat)
    requires a.decision.Use? && (a.decision.kex.PskDheKe? ==> cfg.dhe.Some?)
    requires Consistent(s) && s.retry.None?
    requires var s1 := s.(ks := BinderSchedule(c, s, cfg)); SentFlight(SendFlight(c, s1, m, a, cfg, cap))
    ensures var ks := SendFlight(c, s.(ks := BinderSchedule(c, s, cfg)), m, a, cfg, cap).session.ks;
            ks.server.secret == Some(RfcSecret(c, m, a, cfg)) <==> Pristine(s.ks)
  {
    if Pristine(s.ks) {
      assert [] + m == m;
    }
  }

  /** The handshake secret of a flight is section 7.1's exactly when the chain was untouched. */
  lemma {:induction false} HelloSecretExactlyWhen(c: Crypto, s: Session, m: bytes, cfg: ServerConfig, cap: nat)
    requires Consistent(s) && s.retry.None? && SentFlight(ProcessHello(c, s, m, cfg, cap))
    ensures Admit(s, m, cfg).Ok? && Admit(s, m, cfg).value.decision.Use?
    ensures ProcessHello(c, s, m, cfg, cap).session.ks.server.secret
            == Some(RfcSecret(c, m, Admit(s, m, cfg).value, cfg))
            <==> Pristine(s.ks)
  {
    FlightSecretExactlyWhen(c, s, m, Admit(s, m, cfg).value, cfg, cap);
  }

  /**
   * On a session that sent no retry, a flight runs on the handshake keys of section 7.1
   * exactly when no earlier call of the run admitted a ClientHello: a rejected binder
   * or a full buffer before it has already moved the chain.
   */
  lemma {:induction false} KeysExactlyWhenNoneAdmitted(
    c: Crypto, calls: seq<Call>, s: Session, m: bytes, cfg: ServerConfig, cap: nat)
    requires s == After(Server(c), NEW_SESSION, calls)
    requires s.retry.None? && SentFlight(ProcessHello(c, s, m, cfg, cap))
    ensures Admit(s, m, cfg).Ok? && Admit(s, m, cfg).value.decision.Use?
    ensures ProcessHello(c, s, m, cfg, cap).session.ks.server.secret
            == Some(RfcSecret(c, m, Admit(s, m, cfg).value, cfg))
            <==> Never(Server(c), NEW_SESSION, Admits, calls)
  {
    UntouchedExactlyWhen(c, calls);
    HelloSecretExactlyWhen(c, s, m, cfg, cap);
  }

  lemma {:induction false} EarlyKeyExactlyWhen(c: Crypto, ks: Schedule, psk: bytes)
    ensures ks.Early(c, psk).binderKey == Some(BinderKey(c, psk)) <==> Pristine(ks)
  {
  }

  /**
   * On a run without a retry, the server checks binders against the key of section 7.1 exactly when
   * no call admitted a ClientHello.
   */
  lemma {:induction false} BinderKeyExactlyWhenNoneAdmitted(c: Crypto, calls: seq<Call>, s: Session, cfg: ServerConfig)
    requires s == After(Server(c), NEW_SESSION, calls) && s.retry.None?
    ensures BinderSchedule(c, s, cfg).binderKey == Some(BinderKey(c, cfg.psk))
            <==> Never(Server(c), NEW_SESSION, Admits, calls)
  {
    UntouchedExactlyWhen(c, calls);
    EarlyKeyExactlyWhen(c, s.ks, cfg.psk);
  }
}
