/** Different labels, different keys: once a session has keys, none of them is used in both directions. */
module KeySeparation {
  import opened Basics
  import opened Crypto
  import opened KeySchedules
  import opened ServerSpec
  import opened NonceUse
  import opened AppRecords
  import opened Keying

  // --- The labels ---

  const LABELS: seq<bytes> := [DERIVED, EXT_BINDER, FINISHED_LABEL, KEY, IV, C_HS, S_HS, C_AP, S_AP]

  lemma {:induction false} TrafficLabels()
    ensures C_HS != S_HS && C_AP != S_AP && C_HS != C_AP && C_HS != S_AP && S_HS != C_AP && S_HS != S_AP
  {
    assert C_HS[0] == 99 && S_HS[0] == 115 && C_AP[0] == 99 && S_AP[0] == 115;
    assert C_HS[2] == 104 && S_HS[2] == 104 && C_AP[2] == 97 && S_AP[2] == 97;
  }

  lemma {:induction false} LabelsDiffer()
    ensures forall i, j :: 0 <= i < j < |LABELS| ==> LABELS[i] != LABELS[j]
    ensures forall i :: 0 <= i < |LABELS| ==> |LABELS[i]| < 250
  {
    TrafficLabels();
    assert |DERIVED| == 7 && |EXT_BINDER| == 10 && |FINISHED_LABEL| == 8 && |KEY| == 3 && |IV| == 2;
    assert |C_HS| == |S_HS| == |C_AP| == |S_AP| == 12;
  }

  /** Two of the nine labels give two terms, whatever the contexts and lengths. */
  lemma {:induction false} LabelsSeparate(secret: Term, i: nat, c1: bytes, n1: nat, j: nat, c2: bytes, n2: nat)
    requires i < |LABELS| && j < |LABELS| && i != j && n1 < 65536 && n2 < 65536
    ensures ExpandLabel(secret, LABELS[i], c1, n1) != ExpandLabel(secret, LABELS[j], c2, n2)
  {
    LabelsDiffer();
    if HkdfLabel(n1, LABELS[i], c1) == HkdfLabel(n2, LABELS[j], c2) {
      HkdfLabelInjective(n1, LABELS[i], c1, n2, LABELS[j], c2);
    }
  }

  // --- The two directions ---

  /** Once keyed, the directions have keys of one epoch, and different ones. */
  predicate Paired(ks: Schedule) {
    ks.client.secret.Some? ==> Depth(ks.client.key) == Depth(ks.server.key) && ks.client.key != ks.server.key
  }

  predicate Ordered(ks: Schedule) { Depth(ks.server.key) <= Depth(ks.secret) + 1 && Paired(ks) }

  /** The key `later` is still `key`, or of a later epoch. */
  predicate NotBefore(key: Term, later: Term) { later == key || Depth(key) < Depth(later) }

  /** One call: the server's key stays or moves on, and everything sealed is sealed under it. */
  predicate KeyRule(s: Session, o: Outcome) {
    Ordered(s.ks) ==>
      && Ordered(o.session.ks) && NotBefore(s.ks.server.key, o.session.ks.server.key)
      && forall i :: 0 <= i < |o.seals| ==> o.seals[i].key == o.session.ks.server.key
  }

  lemma {:induction false} RekeyPairs(c: Crypto, ks: Schedule, ikm: bytes, i: nat, j: nat)
    requires Ordered(ks) && i < |LABELS| && j < |LABELS| && i != j
    ensures var next := ks.Rekeyed(c, ikm, LABELS[i], LABELS[j]);
            Ordered(next) && NotBefore(ks.server.key, next.server.key) && next.client.secret.Some?
  {
    var next := ks.Rekeyed(c, ikm, LABELS[i], LABELS[j]);
    var context := c.val(Hash(ks.transcript));
    LabelsSeparate(Extract(ks.secret, ikm), i, context, HASH_LEN, j, context, HASH_LEN);
    KeyDepth(ks.secret, ikm, LABELS[i], context);
    KeyDepth(ks.secret, ikm, LABELS[j], context);
    assert Depth(next.secret) == Depth(ks.secret) + 2;
  }

  lemma {:induction false} FlightKeys(c: Crypto, s: Session, m: bytes, a: Admitted, cfg: ServerConfig, cap: nat)
    requires a.decision.Use? && (a.decision.kex.PskDheKe? ==> cfg.dhe.Some?)
    ensures KeyRule(s, SendFlight(c, s, m, a, cfg, cap))
  {
    if Ordered(s.ks) {
      var sh := ServerHellos.FlightHello(cfg.random, a.hello.fields.sessionId, ShareOf(cfg, a.decision.kex), a.index);
      assert LABELS[5] == C_HS && LABELS[6] == S_HS;
      RekeyPairs(c, s.ks.Absorb(m).Absorb(sh), Ikm(c, cfg, a.decision.kex), 5, 6);
    }
  }

  lemma {:induction false} AnswerKeys(c: Crypto, s: Session, m: bytes, cfg: ServerConfig, cap: nat, a: Admitted)
    requires Admissible(s, m, cfg, a)
    ensures KeyRule(s, Answer(c, s, m, cfg, cap, a))
  {
    var s1 := s.(ks := BinderSchedule(c, s, cfg));
    if Ordered(s.ks) {
      EarlyKeys(c, s.ks, cfg.psk);
    }
    if a.decision.Use? {
      FlightKeys(c, s1, m, a, cfg, cap);
    }
  }

  lemma {:induction false} EarlyKeys(c: Crypto, ks: Schedule, psk: bytes)
    requires Ordered(ks)
    ensures Ordered(ks.Early(c, psk))
  {
    assert Depth(ks.Early(c, psk).secret) == Depth(ks.secret) + 2;
  }

  lemma {:induction false} FinishKeys(c: Crypto, s: Session, ks: Schedule, p: bytes)
    requires ks.secret == s.ks.secret && ks.server == s.ks.server
    requires ks.client.secret == s.ks.client.secret && ks.client.key == s.ks.client.key
    ensures KeyRule(s, Finish(c, s, ks, p))
  {
    if Ordered(ks) {
      assert LABELS[7] == C_AP && LABELS[8] == S_AP;
      RekeyPairs(c, ks, Zeros(HASH_LEN), 7, 8);
    }
  }

  lemma {:induction false} RecordKeys(c: Crypto, s: Session, record: bytes, inner: bytes, cap: nat)
    ensures KeyRule(s, ReceiveAny(c, s, record, cap))
    ensures KeyRule(s, ReceiveData(c, s, record, cap))
    ensures KeyRule(s, Protect(c, s, inner, cap))
  {
  }

  lemma {:induction false} StepKeys(c: Crypto, s: Session, call: Call)
    ensures KeyRule(s, Step(c, s, call))
  {
    match call {
      case ClientHello(m, cfg, cap) =>
        var admitted := Admit(s, m, cfg);
        if admitted.Ok? { AnswerKeys(c, s, m, cfg, cap, admitted.value); }
      case ClientFinished(record) =>
        var (ks, plain) := OpenRecord(c, s.ks, record, FINISHED_BUFFER);
        if plain.Ok? { FinishKeys(c, s, ks, plain.value); }
      case EncryptData(payload, cap) => RecordKeys(c, s, [], payload + [APPLICATION_DATA], cap);
      case EncryptAlert(level, description, cap) => RecordKeys(c, s, [], [level, description, ALERT], cap);
      case DecryptData(record, cap) => RecordKeys(c, s, record, [], cap);
      case DecryptAny(record, cap) => RecordKeys(c, s, record, [], cap);
    }
  }

  // --- Whole runs ---

  /** From an ordered session on, no record is sealed under a key of an earlier epoch. */
  lemma {:induction false} LaterSeals(step: Stepper, s: Session, calls: seq<Call>)
    requires Ordered(s.ks) && forall s, call :: KeyRule(s, step(s, call))
    ensures Ordered(After(step, s, calls).ks) && NotBefore(s.ks.server.key, After(step, s, calls).ks.server.key)
    ensures forall i :: 0 <= i < |Log(step, s, calls)| ==> NotBefore(s.ks.server.key, Log(step, s, calls)[i].key)
    decreases |calls|
  {
    if calls != [] {
      var before, call := calls[..|calls| - 1], calls[|calls| - 1];
      LaterSeals(step, s, before);
      assert KeyRule(After(step, s, before), step(After(step, s, before), call));
    }
  }

  lemma {:induction false} LogSplits(step: Stepper, s: Session, first: seq<Call>, more: seq<Call>)
    ensures After(step, s, first + more) == After(step, After(step, s, first), more)
    ensures Log(step, s, first + more) == Log(step, s, first) + Log(step, After(step, s, first), more)
    decreases |more|
  {
    if more == [] {
      assert first + more == first;
    } else {
      var before, call := more[..|more| - 1], more[|more| - 1];
      LogSplits(step, s, first, before);
      assert (first + more)[..|first + more| - 1] == first + before && (first + more)[|first + more| - 1] == call;
    }
  }

  lemma {:induction false} NeverReadUnder(step: Stepper, first: seq<Call>, more: seq<Call>, i: nat)
    requires forall s, call :: KeyRule(s, step(s, call))
    requires Covers(Log(step, NEW_SESSION, first), After(step, NEW_SESSION, first).ks.server)
    requires i < |Log(step, NEW_SESSION, first + more)|
    ensures var client := After(step, NEW_SESSION, first).ks.client;
            client.secret.Some? ==> Log(step, NEW_SESSION, first + more)[i].key != client.key
  {
    var s := After(step, NEW_SESSION, first);
    LaterSeals(step, NEW_SESSION, first);
    LaterSeals(step, s, more);
    LogSplits(step, NEW_SESSION, first, more);
  }

  /**
   * Whatever calls a session receives: no record it seals, before or after, is under a key it reads with
   * once it has keys. Before that there is one all-zero key for both directions.
   */
  lemma {:induction false} SealedNeverRead(c: Crypto, calls: seq<Call>, k: nat, i: nat)
    requires k <= |calls| && i < |Log(Server(c), NEW_SESSION, calls)|
    ensures var client := After(Server(c), NEW_SESSION, calls[..k]).ks.client;
            client.secret.Some? ==> Log(Server(c), NEW_SESSION, calls)[i].key != client.key
  {
    forall s, call ensures KeyRule(s, Server(c)(s, call)) {
      StepKeys(c, s, call);
    }
    EarlierSeals(c, calls[..k]);
    assert calls[..k] + calls[k..] == calls;
    NeverReadUnder(Server(c), calls[..k], calls[k..], i);
  }

  lemma {:induction false} EarlierSeals(c: Crypto, calls: seq<Call>)
    ensures Covers(Log(Server(c), NEW_SESSION, calls), After(Server(c), NEW_SESSION, calls).ks.server)
  {
    forall s: Session, call: Call, log: seq<Seal> | Fresh(c, s.ks, log)
      ensures Fresh(c, Server(c)(s, call).session.ks, log + Server(c)(s, call).seals)
    {
      StepIsFresh(c, s, call, log);
    }
    RunIsFresh(c, Server(c), calls);
  }

  /** Everything a call seals is sealed under the server's key it leaves. */
  lemma {:induction false} SealedByCall(c: Crypto, calls: seq<Call>, j: nat, i: nat)
    requires j < |calls|
    requires |Log(Server(c), NEW_SESSION, calls[..j])| <= i < |Log(Server(c), NEW_SESSION, calls[..j + 1])|
    ensures i < |Log(Server(c), NEW_SESSION, calls)|
    ensures Log(Server(c), NEW_SESSION, calls)[i].key == After(Server(c), NEW_SESSION, calls[..j + 1]).ks.server.key
  {
    var step := Server(c);
    forall s, call ensures KeyRule(s, step(s, call)) {
      StepKeys(c, s, call);
    }
    SealedByStep(step, calls, j, i);
  }

  lemma {:induction false} SealedByStep(step: Stepper, calls: seq<Call>, j: nat, i: nat)
    requires forall s, call :: KeyRule(s, step(s, call))
    requires j < |calls|
    requires |Log(step, NEW_SESSION, calls[..j])| <= i < |Log(step, NEW_SESSION, calls[..j + 1])|
    ensures i < |Log(step, NEW_SESSION, calls)|
    ensures Log(step, NEW_SESSION, calls)[i].key == After(step, NEW_SESSION, calls[..j + 1]).ks.server.key
  {
    var before := calls[..j];
    assert calls[..j + 1] == before + [calls[j]] && (before + [calls[j]])[..j] == before;
    LaterSeals(step, NEW_SESSION, before);
    var s := After(step, NEW_SESSION, before);
    assert KeyRule(s, step(s, calls[j]));
    assert calls == calls[..j + 1] + calls[j + 1..];
    LogSplits(step, NEW_SESSION, calls[..j + 1], calls[j + 1..]);
  }

  /**
   * A record sealed by call `j` is under the key the session reads with after `k` calls exactly when no call up to
   * either of them entered the handshake.
   */
  lemma {:induction false} KeysMeetExactlyWhen(c: Crypto, calls: seq<Call>, j: nat, i: nat, k: nat)
    requires j < |calls| && k <= |calls|
    requires |Log(Server(c), NEW_SESSION, calls[..j])| <= i < |Log(Server(c), NEW_SESSION, calls[..j + 1])|
    ensures i < |Log(Server(c), NEW_SESSION, calls)|
    ensures Log(Server(c), NEW_SESSION, calls)[i].key == After(Server(c), NEW_SESSION, calls[..k]).ks.client.key <==>
              && Never(Server(c), NEW_SESSION, Entering(c), calls[..k])
              && Never(Server(c), NEW_SESSION, Entering(c), calls[..j + 1])
  {
    SealedByCall(c, calls, j, i);
    SealedNeverRead(c, calls, k, i);
    KeysExactlyWhenEntered(c, calls[..k]);
    KeysExactlyWhenEntered(c, calls[..j + 1]);
  }

  /** The same by the key: only the all-zero one is ever shared. */
  lemma {:induction false} OnlyZeroShared(c: Crypto, calls: seq<Call>, k: nat, i: nat)
    requires k <= |calls| && i < |Log(Server(c), NEW_SESSION, calls)|
    ensures var client, key := After(Server(c), NEW_SESSION, calls[..k]).ks.client,
                               Log(Server(c), NEW_SESSION, calls)[i].key;
            key == client.key <==> client.secret.None? && key == Zero(KEY_LEN)
  {
    SealedNeverRead(c, calls, k, i);
    KeysExactlyWhenEntered(c, calls[..k]);
  }

  lemma {:induction false} ReadsBack(c: Crypto, s: Session, payload: bytes, cap: nat)
    requires |payload| + 1 + TAG_LEN <= cap && |payload| + 1 + TAG_LEN < 65536 && CanAdvance(s.ks.client)
    ensures ReceiveAny(c, s, SealedRecord(c, s.ks.client, payload + [APPLICATION_DATA]), cap).reply
         == Ok(AppData(payload))
  {
    var inner := payload + [APPLICATION_DATA];
    SealedRecordOpens(c, s.ks, inner, cap);
    MarkerFound(payload, APPLICATION_DATA, 0);
    assert inner == payload + [APPLICATION_DATA] + Zeros(0);
  }

  /**
   * A new session seals under the key, IV and counter it reads with, and takes its own record for the client's:
   * nothing asks whether the handshake has begun.
   */
  lemma {:induction false} UnkeyedReadsItself(c: Crypto, payload: bytes, cap: nat)
    requires 5 + |payload| + 1 + TAG_LEN <= cap && |payload| + 1 + TAG_LEN < 65536
    ensures var o := Protect(c, NEW_SESSION, payload + [APPLICATION_DATA], cap);
            var client := NEW_SESSION.ks.client;
            && Step(c, NEW_SESSION, EncryptData(payload, cap)) == o && o.reply.Ok? && o.reply.value.Protected?
            && o.seals == [SealEvent(client.key, client.iv, client.counter, payload + [APPLICATION_DATA])]
            && Step(c, o.session, DecryptAny(o.reply.value.bytes, cap)).reply == Ok(AppData(payload))
  {
    ReadsBack(c, Protect(c, NEW_SESSION, payload + [APPLICATION_DATA], cap).session, payload, cap);
  }
}
