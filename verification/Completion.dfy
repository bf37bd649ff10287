/** When a handshake is complete, over every run, and with how little. */
module Completion {
  import opened Basics
  import opened Crypto
  import opened KeySchedules
  import opened Rfc8446
  import opened ServerSpec
  import opened ServerKeys
  import opened AppRecords
  import opened Agreement
  import opened Keying

  /** A record that opens under the session's client key to the Finished over its transcript. */
  ghost predicate Finishes(c: Crypto, ks: Schedule, record: bytes) {
    var plain := OpenRecord(c, ks, record, FINISHED_BUFFER).1;
    && plain.Ok? && ks.client.secret.Some?
    && HoldsFinished(plain.value, FinishedMac(c, ks.client.secret.value, ks.transcript))
  }

  lemma {:induction false} StepCompletes(c: Crypto, s: Session, call: Call)
    ensures Step(c, s, call).reply == Ok(Complete) <==> call.ClientFinished? && Finishes(c, s.ks, call.record)
  {
    match call {
      case ClientHello(m, cfg, cap) => HelloReplies(c, s, m, cfg, cap);
      case ClientFinished(record) => FinishedExactlyWhen(c, s, record);
      case EncryptData(payload, cap) =>
      case EncryptAlert(level, description, cap) =>
      case DecryptData(record, cap) =>
      case DecryptAny(record, cap) =>
    }
  }

  /**
   * Over every run, a call completes the handshake exactly when it brings the Finished for the session's client
   * secret and transcript, and some ClientHello before it entered the handshake. That it got its flight is not
   * asked.
   */
  lemma {:induction false} CompleteExactlyWhen(c: Crypto, calls: seq<Call>, j: nat)
    requires j < |calls|
    ensures var s := After(Server(c), NEW_SESSION, calls[..j]);
            Answered(Server(c), calls, j).reply == Ok(Complete) <==>
              && calls[j].ClientFinished? && Finishes(c, s.ks, calls[j].record)
              && !Never(Server(c), NEW_SESSION, Entering(c), calls[..j])
  {
    StepCompletes(c, After(Server(c), NEW_SESSION, calls[..j]), calls[j]);
    KeysExactlyWhenEntered(c, calls[..j]);
  }

  // --- A handshake without a flight ---

  lemma {:induction false} OutOfSpace(c: Crypto, s: Session, m: bytes, cfg: ServerConfig, cap: nat, a: Admitted)
    requires Admissible(s, m, cfg, a) && EntersWith(c, s, m, cfg, cap, a)
    requires cap < |Record(HANDSHAKE, HelloSent(cfg, a))| + EE_RECORD
    ensures var o, ks := Answer(c, s, m, cfg, cap, a), BinderSchedule(c, s, cfg);
            && o.reply == Err(NoSpace) && o.seals == []
            && o.session.ks == ks.Absorb(m).Absorb(HelloSent(cfg, a)).Handshake(c, Ikm(c, cfg, a.decision.kex))
  {
  }

  /**
   * A first ClientHello whose ServerHello fits but nothing after it is refused for lack of space, and yet the
   * client that computes the keys of section 7.1 over ClientHello and ServerHello completes with a Finished
   * over these two alone.
   */
  lemma {:induction false} CompletesWithoutFlight(c: Crypto, m: bytes, cfg: ServerConfig, cap: nat, a: Admitted)
    requires Admit(NEW_SESSION, m, cfg) == Ok(a) && EntersWith(c, NEW_SESSION, m, cfg, cap, a)
    requires cap < |Record(HANDSHAKE, HelloSent(cfg, a))| + EE_RECORD
    ensures var o := ProcessHello(c, NEW_SESSION, m, cfg, cap);
            var base := m + HelloSent(cfg, a);
            var client := Keyed(ClientHandshakeSecret(c, cfg.psk, Ikm(c, cfg, a.decision.kex), base));
            && o.reply == Err(NoSpace)
            && ProcessFinished(c, o.session, OwnFinished(c, client, base)).reply == Ok(Complete)
  {
    AnswerOf(c, NEW_SESSION, m, cfg, cap, a);
    OutOfSpace(c, NEW_SESSION, m, cfg, cap, a);
    var s := Answer(c, NEW_SESSION, m, cfg, cap, a).session;
    assert [] + m == m;
    ServerAccepts(c, s);
  }
}
