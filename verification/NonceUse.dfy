/** Over every sequence of session calls, no two records are sealed under one (key, nonce) pair. */
module NonceUse {
  import opened Basics
  import opened Crypto
  import opened KeySchedules
  import opened ServerSpec

  /** How many derivation steps made a term; it grows along the secret chain. */
  function Depth(t: Term): nat {
    match t
    case Extract(salt, _) => Depth(salt) + 1
    case Expand(prk, _, _) => Depth(prk) + 1
    case _ => 0
  }

  /** No two sealed records share both key and nonce. */
  ghost predicate Distinct(c: Crypto, log: seq<Seal>) {
    forall i, j :: 0 <= i < j < |log| ==>
      !(log[i].key == log[j].key && SealNonce(c, log[i]) == SealNonce(c, log[j]))
  }

  /** Every sealed record is either under `t`'s key below its counter, or under an older key. */
  ghost predicate Covers(log: seq<Seal>, t: Traffic) {
    forall i :: 0 <= i < |log| ==>
      || (log[i].key == t.key && log[i].iv == t.iv && log[i].counter < t.counter)
      || Depth(log[i].key) < Depth(t.key)
  }

  ghost predicate Fresh(c: Crypto, ks: Schedule, log: seq<Seal>) {
    && Depth(ks.server.key) <= Depth(ks.secret) + 1
    && Covers(log, ks.server)
    && Distinct(c, log)
  }

  lemma {:induction false} SealingIsFresh(c: Crypto, log: seq<Seal>, t: Traffic, inner: bytes)
    requires Covers(log, t) && Distinct(c, log) && CanAdvance(t)
    ensures Covers(log + [SealOf(t, inner)], Advanced(t))
    ensures Distinct(c, log + [SealOf(t, inner)])
  {
    var e := SealOf(t, inner);
    forall i | 0 <= i < |log| && log[i].key == e.key
      ensures SealNonce(c, log[i]) != SealNonce(c, e)
    {
      if SealNonce(c, log[i]) == SealNonce(c, e) {
        NonceInjective(c.val(t.iv), log[i].counter, t.counter);
      }
    }
  }

  lemma {:induction false} KeyDepth(secret: Term, ikm: bytes, name: bytes, context: bytes)
    ensures Depth(Keyed(ExpandLabel(Extract(secret, ikm), name, context, HASH_LEN)).key) == Depth(secret) + 3
  {
    var prk := Extract(secret, ikm);
    var traffic := ExpandLabel(prk, name, context, HASH_LEN);
    assert Depth(prk) == Depth(secret) + 1 && Depth(traffic) == Depth(prk) + 1;
  }

  /** Each rekeying extracts from the chain, so its keys are deeper than any before. */
  lemma {:induction false} RekeyIsFresh(c: Crypto, ks: Schedule, log: seq<Seal>, ikm: bytes, cl: bytes, sl: bytes)
    requires Fresh(c, ks, log)
    ensures Fresh(c, ks.Rekeyed(c, ikm, cl, sl), log)
  {
    var next := ks.Rekeyed(c, ikm, cl, sl);
    KeyDepth(ks.secret, ikm, sl, c.val(Hash(ks.transcript)));
    assert Depth(next.server.key) == Depth(ks.secret) + 3;
    assert Depth(next.secret) == Depth(ks.secret) + 2;
  }

  lemma {:induction false} EarlyIsFresh(c: Crypto, ks: Schedule, log: seq<Seal>, psk: bytes)
    requires Fresh(c, ks, log)
    ensures Fresh(c, ks.Early(c, psk), log)
  {
    assert Depth(ks.Early(c, psk).secret) == Depth(ks.secret) + 2;
  }

  lemma {:induction false} FlightIsFresh(
    c: Crypto, s: Session, m: bytes, a: Admitted, cfg: ServerConfig, cap: nat, log: seq<Seal>)
    requires a.decision.Use? && (a.decision.kex.PskDheKe? ==> cfg.dhe.Some?)
    requires Fresh(c, s.ks, log)
    ensures var o := SendFlight(c, s, m, a, cfg, cap); Fresh(c, o.session.ks, log + o.seals)
  {
    var o := SendFlight(c, s, m, a, cfg, cap);
    var sh := ServerHellos.FlightHello(cfg.random, a.hello.fields.sessionId, ShareOf(cfg, a.decision.kex), a.index);
    var ks2 := s.ks.Absorb(m).Absorb(sh);
    var ikm := Ikm(c, cfg, a.decision.kex);
    RekeyIsFresh(c, ks2, log, ikm, C_HS, S_HS);
    var ks3 := ks2.Handshake(c, ikm);
    var ee := EMPTY_EXTENSIONS + [HANDSHAKE];
    SealingIsFresh(c, log, ks3.server, ee);
    var ks4 := Sent(ks3.Absorb(EMPTY_EXTENSIONS));
    var fin := Message(FINISHED, FinishedMac(c, ks4.server.secret.value, ks4.transcript)) + [HANDSHAKE];
    var log1 := log + [SealOf(ks3.server, ee)];
    SealingIsFresh(c, log1, ks4.server, fin);
    assert log + [] == log;
    assert log + [SealOf(ks3.server, ee), SealOf(ks4.server, fin)] == log1 + [SealOf(ks4.server, fin)];
  }

  lemma {:induction false} AnswerIsFresh(
    c: Crypto, s: Session, m: bytes, cfg: ServerConfig, cap: nat, a: Admitted, log: seq<Seal>)
    requires Admissible(s, m, cfg, a) && Fresh(c, s.ks, log)
    ensures var o := Answer(c, s, m, cfg, cap, a); Fresh(c, o.session.ks, log + o.seals)
  {
    assert log + [] == log;
    EarlyIsFresh(c, s.ks, log, cfg.psk);
    if a.decision.Use? {
      FlightIsFresh(c, s.(ks := BinderSchedule(c, s, cfg)), m, a, cfg, cap, log);
    }
  }

  lemma {:induction false} FinishIsFresh(c: Crypto, s: Session, ks: Schedule, p: bytes, log: seq<Seal>)
    requires Fresh(c, ks, log)
    ensures Fresh(c, Finish(c, s, ks, p).session.ks, log)
  {
    RekeyIsFresh(c, ks, log, Zeros(HASH_LEN), C_AP, S_AP);
  }

  lemma {:induction false} ProtectIsFresh(c: Crypto, s: Session, inner: bytes, cap: nat, log: seq<Seal>)
    requires Fresh(c, s.ks, log)
    ensures var o := Protect(c, s, inner, cap); Fresh(c, o.session.ks, log + o.seals)
  {
    assert log + [] == log;
    if CanAdvance(s.ks.server) {
      SealingIsFresh(c, log, s.ks.server, inner);
    }
  }

  lemma {:induction false} StepIsFresh(c: Crypto, s: Session, call: Call, log: seq<Seal>)
    requires Fresh(c, s.ks, log)
    ensures var o := Step(c, s, call); Fresh(c, o.session.ks, log + o.seals)
  {
    assert log + [] == log;
    match call {
      case ClientHello(m, cfg, cap) =>
        var admitted := Admit(s, m, cfg);
        if admitted.Ok? { AnswerIsFresh(c, s, m, cfg, cap, admitted.value, log); }
      case ClientFinished(record) =>
        var (ks, plain) := OpenRecord(c, s.ks, record, FINISHED_BUFFER);
        if plain.Ok? { FinishIsFresh(c, s, ks, plain.value, log); }
      case EncryptData(payload, cap) => ProtectIsFresh(c, s, payload + [APPLICATION_DATA], cap, log);
      case EncryptAlert(level, description, cap) => ProtectIsFresh(c, s, [level, description, ALERT], cap, log);
      case DecryptData(record, cap) =>
      case DecryptAny(record, cap) =>
    }
  }

  lemma {:induction false} RunIsFresh(c: Crypto, step: Stepper, calls: seq<Call>)
    requires forall s: Session, call: Call, log: seq<Seal> :: Fresh(c, s.ks, log) ==>
      Fresh(c, step(s, call).session.ks, log + step(s, call).seals)
    ensures Fresh(c, After(step, NEW_SESSION, calls).ks, Log(step, NEW_SESSION, calls))
    decreases |calls|
  {
    if calls != [] {
      RunIsFresh(c, step, calls[..|calls| - 1]);
    }
  }

  /**
   * Whatever calls a session receives, in any order and however they end, no two of
   * the records it seals use the same key with the same nonce.
   */
  lemma {:induction false} NoncesNeverRepeat(c: Crypto, calls: seq<Call>, i: nat, j: nat)
    requires i < j < |Log(Server(c), NEW_SESSION, calls)|
    ensures var log := Log(Server(c), NEW_SESSION, calls);
            log[i].key == log[j].key ==> SealNonce(c, log[i]) != SealNonce(c, log[j])
  {
    forall s: Session, call: Call, log: seq<Seal> | Fresh(c, s.ks, log)
      ensures Fresh(c, Server(c)(s, call).session.ks, log + Server(c)(s, call).seals)
    {
      StepIsFresh(c, s, call, log);
    }
    RunIsFresh(c, Server(c), calls);
  }
}
