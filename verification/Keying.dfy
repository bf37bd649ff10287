/** When a session has traffic keys: what a call must do to get it there, over every run. */
module Keying {
  import opened Basics
  import opened Crypto
  import opened KeySchedules
  import opened Extensions
  import opened ServerSpec
  import opened ServerKeys

  predicate HasKeys(s: Session) { s.ks.client.secret.Some? }

  /** Without keys both directions have the same, all zero; with keys neither key is. */
  predicate ZeroUntilKeyed(ks: Schedule) {
    if ks.client.secret.None? then
      && ks.client.key == ks.server.key == Zero(KEY_LEN) && ks.client.iv == ks.server.iv == Zero(IV_LEN)
      && ks.server.secret.None?
    else ks.client.key.Expand? && ks.server.key.Expand? && ks.server.secret.Some?
  }

  /** The binder is the MAC the server computes. */
  predicate Bound(c: Crypto, s: Session, m: bytes, cfg: ServerConfig, a: Admitted)
    requires Admissible(s, m, cfg, a)
  {
    var binderKey := BinderSchedule(c, s, cfg).binderKey;
    && binderKey.Some? && BinderMatches(c, binderKey.value, BinderInput(s, m, a.hello.bindersAt), a.binder)
  }

  /** The ClientHello gets past its binder and its ServerHello is written. Space for the rest plays no part. */
  predicate EntersWith(c: Crypto, s: Session, m: bytes, cfg: ServerConfig, cap: nat, a: Admitted)
    requires Admissible(s, m, cfg, a)
  {
    && a.decision.Use? && Bound(c, s, m, cfg, a) && |Record(HANDSHAKE, HelloSent(cfg, a))| <= cap
    && !(a.decision.kex.PskDheKe? && Ikm(c, cfg, a.decision.kex) == Zeros(X25519_LEN))
  }

  predicate Enters(c: Crypto, s: Session, call: Call) {
    && call.ClientHello?
    && match Admit(s, call.message, call.config)
       case Err(_) => false
       case Ok(a) => EntersWith(c, s, call.message, call.config, call.cap, a)
  }

  function Entering(c: Crypto): (Session, Call) -> bool { (s: Session, call: Call) => Enters(c, s, call) }

  /** One call: keys are there afterwards exactly when they were before or the call entered the handshake. */
  predicate KeyingRule(s: Session, enters: bool, o: Outcome) {
    ZeroUntilKeyed(s.ks) ==> ZeroUntilKeyed(o.session.ks) && (HasKeys(o.session) <==> HasKeys(s) || enters)
  }

  lemma {:induction false} FlightKeying(c: Crypto, s: Session, m: bytes, a: Admitted, cfg: ServerConfig, cap: nat)
    requires a.decision.Use? && (a.decision.kex.PskDheKe? ==> cfg.dhe.Some?)
    ensures KeyingRule(s, |Record(HANDSHAKE, HelloSent(cfg, a))| <= cap
                          && !(a.decision.kex.PskDheKe? && Ikm(c, cfg, a.decision.kex) == Zeros(X25519_LEN)),
                       SendFlight(c, s, m, a, cfg, cap))
  {
  }

  lemma {:induction false} AnswerKeying(c: Crypto, s: Session, m: bytes, cfg: ServerConfig, cap: nat, a: Admitted)
    requires Admissible(s, m, cfg, a)
    ensures KeyingRule(s, EntersWith(c, s, m, cfg, cap, a), Answer(c, s, m, cfg, cap, a))
  {
    var s1 := s.(ks := BinderSchedule(c, s, cfg));
    var o := Answer(c, s, m, cfg, cap, a);
    if a.decision.Use? && Bound(c, s, m, cfg, a) {
      FlightKeying(c, s1, m, a, cfg, cap);
      FromEarly(s, s1, EntersWith(c, s, m, cfg, cap, a), o);
    } else {
      NotEntered(c, s, m, cfg, cap, a);
      FromEarly(s, s1, false, o);
    }
  }

  /** Deriving the early secret touches no traffic keys. */
  lemma {:induction false} FromEarly(s: Session, s1: Session, enters: bool, o: Outcome)
    requires s1.ks.client == s.ks.client && s1.ks.server == s.ks.server && KeyingRule(s1, enters, o)
    ensures KeyingRule(s, enters, o)
  {
  }

  lemma {:induction false} NotEntered(c: Crypto, s: Session, m: bytes, cfg: ServerConfig, cap: nat, a: Admitted)
    requires Admissible(s, m, cfg, a) && !(a.decision.Use? && Bound(c, s, m, cfg, a))
    ensures KeyingRule(s.(ks := BinderSchedule(c, s, cfg)), false, Answer(c, s, m, cfg, cap, a))
  {
  }

  lemma {:induction false} FinishKeying(c: Crypto, s: Session, ks: Schedule, p: bytes)
    requires ks == s.ks.(client := s.ks.client.(counter := ks.client.counter))
    ensures KeyingRule(s, false, Finish(c, s, ks, p))
  {
  }

  lemma {:induction false} HelloKeying(c: Crypto, s: Session, m: bytes, cfg: ServerConfig, cap: nat)
    ensures KeyingRule(s, Enters(c, s, ClientHello(m, cfg, cap)), ProcessHello(c, s, m, cfg, cap))
  {
    var admitted := Admit(s, m, cfg);
    if admitted.Ok? {
      AnswerOf(c, s, m, cfg, cap, admitted.value);
      AnswerKeying(c, s, m, cfg, cap, admitted.value);
    }
  }

  lemma {:induction false} FinishedKeying(c: Crypto, s: Session, record: bytes)
    ensures KeyingRule(s, false, ProcessFinished(c, s, record))
  {
    var (ks, plain) := OpenRecord(c, s.ks, record, FINISHED_BUFFER);
    if plain.Ok? {
      FinishKeying(c, s, ks, plain.value);
    }
  }

  lemma {:induction false} RecordKeying(c: Crypto, s: Session, record: bytes, inner: bytes, cap: nat)
    ensures KeyingRule(s, false, ReceiveAny(c, s, record, cap))
    ensures KeyingRule(s, false, ReceiveData(c, s, record, cap))
    ensures KeyingRule(s, false, Protect(c, s, inner, cap))
  {
  }

  lemma {:induction false} StepKeying(c: Crypto, s: Session, call: Call)
    ensures KeyingRule(s, Enters(c, s, call), Step(c, s, call))
  {
    match call {
      case ClientHello(m, cfg, cap) => HelloKeying(c, s, m, cfg, cap);
      case ClientFinished(record) => FinishedKeying(c, s, record);
      case EncryptData(payload, cap) => RecordKeying(c, s, [], payload + [APPLICATION_DATA], cap);
      case EncryptAlert(level, description, cap) => RecordKeying(c, s, [], [level, description, ALERT], cap);
      case DecryptData(record, cap) => RecordKeying(c, s, record, [], cap);
      case DecryptAny(record, cap) => RecordKeying(c, s, record, [], cap);
    }
  }

  lemma {:induction false} RunKeying(step: Stepper, s: Session, enters: (Session, Call) -> bool, calls: seq<Call>)
    requires ZeroUntilKeyed(s.ks) && forall s, call :: KeyingRule(s, enters(s, call), step(s, call))
    ensures ZeroUntilKeyed(After(step, s, calls).ks)
    ensures HasKeys(After(step, s, calls)) <==> HasKeys(s) || !Never(step, s, enters, calls)
    decreases |calls|
  {
    if calls != [] {
      var before, call := calls[..|calls| - 1], calls[|calls| - 1];
      RunKeying(step, s, enters, before);
      var t := After(step, s, before);
      assert KeyingRule(t, enters(t, call), step(t, call));
      NeverLast(step, s, enters, before, call);
      assert before + [call] == calls;
    }
  }

  /** Over every run: a session has keys exactly when one of its calls entered the handshake. */
  lemma {:induction false} KeysExactlyWhenEntered(c: Crypto, calls: seq<Call>)
    ensures var s := After(Server(c), NEW_SESSION, calls);
            ZeroUntilKeyed(s.ks) && (HasKeys(s) <==> !Never(Server(c), NEW_SESSION, Entering(c), calls))
  {
    forall s, call ensures KeyingRule(s, Entering(c)(s, call), Server(c)(s, call)) {
      StepKeying(c, s, call);
    }
    RunKeying(Server(c), NEW_SESSION, Entering(c), calls);
  }
}
