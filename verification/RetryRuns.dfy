/** HelloRetryRequest over whole runs: sent at most once, never forgotten, never disturbed. */
module RetryRuns {
  import opened Basics
  import opened Crypto
  import opened KeySchedules
  import opened ClientHellos
  import opened ServerSpec

  /** The fields section 4.1.2 of RFC 8446 pins, as a received message carries them. */
  function Pinned(call: Call): Option<Snapshot> {
    if !call.ClientHello? then None
    else
      match GetHello(call.message)
      case Err(_) => None
      case Ok(Got(h, _)) => Some(Snapshot(h.fields.random, h.fields.sessionId))
  }

  /** One call: only a session without a retry sends one, recording the ClientHello; nothing else touches it. */
  predicate RetryRule(s: Session, pinned: Option<Snapshot>, o: Outcome) {
    && (SentRetry(o) ==> s.retry.None? && pinned.Some? && o.session.retry == pinned)
    && (!SentRetry(o) ==> o.session.retry == s.retry)
    && (SentFlight(o) && s.retry.Some? ==> s.retry == pinned)
  }

  lemma {:induction false} AnswerRule(c: Crypto, s: Session, m: bytes, cfg: ServerConfig, cap: nat, a: Admitted)
    requires Admissible(s, m, cfg, a)
    ensures RetryRule(s, Some(Snapshot(a.hello.fields.random, a.hello.fields.sessionId)), Answer(c, s, m, cfg, cap, a))
  {
  }

  lemma {:induction false} HelloRule(c: Crypto, s: Session, m: bytes, cfg: ServerConfig, cap: nat)
    ensures RetryRule(s, Pinned(ClientHello(m, cfg, cap)), ProcessHello(c, s, m, cfg, cap))
  {
    var admitted := Admit(s, m, cfg);
    if admitted.Ok? {
      AnswerRule(c, s, m, cfg, cap, admitted.value);
      assert Pinned(ClientHello(m, cfg, cap))
          == Some(Snapshot(admitted.value.hello.fields.random, admitted.value.hello.fields.sessionId));
    }
  }

  lemma {:induction false} FinishedRule(c: Crypto, s: Session, record: bytes)
    ensures RetryRule(s, None, ProcessFinished(c, s, record))
  {
  }

  lemma {:induction false} RecordRules(c: Crypto, s: Session, record: bytes, inner: bytes, cap: nat)
    ensures RetryRule(s, None, ReceiveAny(c, s, record, cap))
    ensures RetryRule(s, None, ReceiveData(c, s, record, cap))
    ensures RetryRule(s, None, Protect(c, s, inner, cap))
  {
  }

  lemma {:induction false} StepRule(c: Crypto, s: Session, call: Call)
    ensures RetryRule(s, Pinned(call), Step(c, s, call))
  {
    match call {
      case ClientHello(m, cfg, cap) => HelloRule(c, s, m, cfg, cap);
      case ClientFinished(record) => FinishedRule(c, s, record);
      case EncryptData(payload, cap) => RecordRules(c, s, [], payload + [APPLICATION_DATA], cap);
      case EncryptAlert(level, description, cap) => RecordRules(c, s, [], [level, description, ALERT], cap);
      case DecryptData(record, cap) => RecordRules(c, s, record, [], cap);
      case DecryptAny(record, cap) => RecordRules(c, s, record, [], cap);
    }
  }

  lemma {:induction false} RetryPersists(
    step: Stepper, pinned: Call -> Option<Snapshot>, calls: seq<Call>, i: nat, j: nat)
    requires forall s, call :: RetryRule(s, pinned(call), step(s, call))
    requires i < j <= |calls| && SentRetry(Answered(step, calls, i))
    ensures After(step, NEW_SESSION, calls[..j]).retry == pinned(calls[i])
    decreases j
  {
    assert calls[..j][..j - 1] == calls[..j - 1] && calls[..j][j - 1] == calls[j - 1];
    assert RetryRule(After(step, NEW_SESSION, calls[..i]), pinned(calls[i]), Answered(step, calls, i));
    if i < j - 1 {
      RetryPersists(step, pinned, calls, i, j - 1);
    }
  }

  /**
   * Sections 4.1.2 and 4.1.4 of RFC 8446: after a retry no later call of the run sends
   * another, the snapshot stays that of the first ClientHello, and any first flight
   * answers a ClientHello with the same random and session id.
   */
  lemma {:induction false} AtMostOneRetry(c: Crypto, calls: seq<Call>, i: nat, j: nat)
    requires i < j < |calls| && SentRetry(Answered(Server(c), calls, i))
    ensures !SentRetry(Answered(Server(c), calls, j))
    ensures Answered(Server(c), calls, j).session.retry == Pinned(calls[i])
    ensures SentFlight(Answered(Server(c), calls, j)) ==> Pinned(calls[j]) == Pinned(calls[i])
  {
    forall s, call ensures RetryRule(s, Pinned(call), Server(c)(s, call)) {
      StepRule(c, s, call);
    }
    RetryPersists(Server(c), Pinned, calls, i, j);
    assert RetryRule(After(Server(c), NEW_SESSION, calls[..i]), Pinned(calls[i]), Answered(Server(c), calls, i));
    assert RetryRule(After(Server(c), NEW_SESSION, calls[..j]), Pinned(calls[j]), Answered(Server(c), calls, j));
  }

  // --- A rejected second ClientHello changes nothing ---

  /** Rejected at or before the binder check. */
  predicate Rejected(c: Crypto, s: Session, call: Call) {
    && call.ClientHello?
    && var admitted := Admit(s, call.message, call.config);
       || admitted.Err?
       || s.ks.binderKey.None?
       || !BinderMatches(c, s.ks.binderKey.value,
                         BinderInput(s, call.message, admitted.value.hello.bindersAt), admitted.value.binder)
  }

  lemma {:induction false} RejectionKeepsSession(c: Crypto, s: Session, call: Call)
    requires s.retry.Some? && Rejected(c, s, call)
    ensures Step(c, s, call).session == s && Step(c, s, call).reply.Err?
  {
  }

  /** Any number of rejected second ClientHellos leaves the whole session as it was. */
  lemma {:induction false} RejectionsKeepSession(c: Crypto, s: Session, calls: seq<Call>)
    requires s.retry.Some? && forall i :: 0 <= i < |calls| ==> Rejected(c, s, calls[i])
    ensures After(Server(c), s, calls) == s
    decreases |calls|
  {
    if calls != [] {
      RejectionsKeepSession(c, s, calls[..|calls| - 1]);
      RejectionKeepsSession(c, s, calls[|calls| - 1]);
    }
  }
}
