/**
 * What the PSK server does (server.rs), as functions from a session and a call to
 * the next session, the reply and the records sealed on the way. The class
 * `TlsServerSession` carries these out on buffers.
 */
module ServerSpec {
  import opened Basics
  import opened Crypto
  import opened KeySchedules
  import opened ParseBuffers
  import opened PreSharedKeys
  import opened Extensions
  import opened ClientHellos
  import opened ServerHellos

  datatype KeyPair = KeyPair(secret: bytes, public: bytes)

  datatype Config = Config(identity: bytes, psk: bytes, random: bytes, dhe: Option<KeyPair>)

  type ServerConfig = c: Config | |c.random| == 32 && (c.dhe.Some? ==> |c.dhe.value.public| == X25519_LEN)
    witness Config([], [], Zeros(32), None)

  /** The first ClientHello's random and session id, kept once a retry has been sent. */
  datatype Snapshot = Snapshot(random: bytes, sessionId: bytes)

  datatype Session = Session(ks: Schedule, retry: Option<Snapshot>)

  const NEW_SESSION: Session := Session(NEW_SCHEDULE, None)

  datatype Kex = PskKe | PskDheKe(share: bytes)
  datatype Decision = Use(kex: Kex) | Retry

  /** One record sealed by the server: which key, IV and counter, over which inner plaintext. */
  datatype SealEvent = SealEvent(key: Term, iv: Term, counter: nat, inner: bytes)

  type Seal = e: SealEvent | Len(e.iv) == IV_LEN && e.counter < COUNTER_LIMIT
    witness SealEvent(UNKEYED.key, UNKEYED.iv, 0, [])

  datatype Reply =
    | FirstFlight(bytes: bytes)
    | HelloRetryRequest(bytes: bytes)
    | Complete
    | Protected(bytes: bytes)
    | AppData(payload: bytes)
    | PeerAlert(level: byte, description: byte)

  datatype Outcome = Outcome(session: Session, reply: Result<Reply, TlsError>, seals: seq<Seal>)

  predicate SentRetry(o: Outcome) { o.reply.Ok? && o.reply.value.HelloRetryRequest? }

  predicate SentFlight(o: Outcome) { o.reply.Ok? && o.reply.value.FirstFlight? }

  // --- Checks on a ClientHello (server.rs:563-797) ---

  /** `find_map` over the extensions. */
  function First(exts: seq<ClientExt>, want: ClientExt -> bool): (r: Option<ClientExt>)
    ensures r.Some? ==> want(r.value) && r.value in exts
    ensures r.None? ==> forall i :: 0 <= i < |exts| ==> !want(exts[i])
  {
    if exts == [] then None
    else if want(exts[0]) then Some(exts[0])
    else First(exts[1..], want)
  }

  function CheckVersions(exts: seq<ClientExt>): Option<TlsError> {
    match First(exts, (e: ClientExt) => e.SupportedVersions?)
    case None => Some(Abort(MISSING_EXTENSION))
    case Some(e) => if TLS13 in e.versions then None else Some(Abort(PROTOCOL_VERSION))
  }

  predicate OffersSuite(suites: bytes) {
    exists i :: 0 <= i < |suites| / 2 && suites[2 * i] == 0x13 && suites[2 * i + 1] == 0x01
  }

  function CheckSuites(suites: bytes): Option<TlsError> {
    if OffersSuite(suites) then None else Some(Abort(HANDSHAKE_FAILURE))
  }

  /** Section 4.1.2 of RFC 8446: after a retry, random and session id must not have changed. */
  function CheckUnchanged(f: Fields, retry: Option<Snapshot>): Option<TlsError> {
    if retry.Some? && (f.random != retry.value.random || f.sessionId != retry.value.sessionId)
    then Some(Abort(ILLEGAL_PARAMETER)) else None
  }

  /** The first X25519 share; it must be 32 bytes. */
  function FirstX25519(shares: seq<Share>): (r: Result<Option<bytes>, TlsError>)
    ensures r.Ok? && r.value.Some? ==> |r.value.value| == X25519_LEN
  {
    if shares == [] then Ok(None)
    else if shares[0].group != X25519 then FirstX25519(shares[1..])
    else if |shares[0].key| != X25519_LEN then Err(Abort(ILLEGAL_PARAMETER))
    else Ok(Some(shares[0].key))
  }

  function ClientShare(exts: seq<ClientExt>): (r: Result<Option<bytes>, TlsError>)
    ensures r.Ok? && r.value.Some? ==> |r.value.value| == X25519_LEN
  {
    match First(exts, (e: ClientExt) => e.KeyShare?)
    case None => Ok(None)
    case Some(e) => FirstX25519(e.shares)
  }

  predicate SupportsX25519(exts: seq<ClientExt>) {
    match First(exts, (e: ClientExt) => e.SupportedGroups?)
    case None => false
    case Some(e) => X25519 in e.groups
  }

  /** Never DHE without a key pair and a 32-byte share; never a second retry. */
  function DecideKex(exts: seq<ClientExt>, dhe: bool, retried: bool): (r: Result<Decision, TlsError>)
    ensures r.Ok? && r.value.Use? && r.value.kex.PskDheKe? ==> dhe && |r.value.kex.share| == X25519_LEN
    ensures r.Ok? && r.value.Retry? ==> dhe && !retried
  {
    match First(exts, (e: ClientExt) => e.PskModes?)
    case None => Err(Abort(MISSING_EXTENSION))
    case Some(e) =>
      var ke, dheKe := 0 in e.modes, 1 in e.modes;
      if dheKe && dhe then
        match ClientShare(exts)
        case Err(err) => Err(err)
        case Ok(Some(share)) => Ok(Use(PskDheKe(share)))
        case Ok(None) =>
          if ke then Ok(Use(PskKe))
          else if !retried && SupportsX25519(exts) then Ok(Retry)
          else Err(Abort(HANDSHAKE_FAILURE))
      else if ke then Ok(Use(PskKe))
      else Err(Abort(HANDSHAKE_FAILURE))
  }

  function IndexOf(ids: seq<bytes>, id: bytes): (r: Option<nat>)
    ensures r.Some? ==> r.value < |ids| && ids[r.value] == id
    ensures r.Some? ==> forall k :: 0 <= k < r.value ==> ids[k] != id
    ensures r.None? ==> forall k :: 0 <= k < |ids| ==> ids[k] != id
  {
    if ids == [] then None
    else if ids[0] == id then Some(0)
    else match IndexOf(ids[1..], id) case None => None case Some(k) => Some(k + 1)
  }

  /** `locate_our_identity`: the index of the configured identity and the binder at that index. */
  function Locate(exts: seq<ClientExt>, identity: bytes): (r: Result<(nat, bytes), TlsError>)
    ensures r.Ok? ==> r.value.0 < MAX_PSKS
  {
    match First(exts, (e: ClientExt) => e.PreSharedKey?)
    case None => Err(Abort(MISSING_EXTENSION))
    case Some(e) =>
      match IndexOf(e.psks.identities, identity)
      case None => Err(Abort(UNKNOWN_PSK_IDENTITY))
      case Some(k) => Ok((k, e.psks.binders[k]))
  }

  /** A ClientHello that passed every check before the binder's. */
  datatype Admitted = Admitted(hello: Hello, decision: Decision, index: nat, binder: bytes)

  /** What is known of every admitted ClientHello. */
  predicate Admissible(s: Session, m: bytes, cfg: ServerConfig, a: Admitted) {
    && a.hello.bindersAt <= |m| && a.index < MAX_PSKS && |a.hello.fields.sessionId| <= 32
    && (a.decision.Use? && a.decision.kex.PskDheKe? ==> cfg.dhe.Some? && |a.decision.kex.share| == X25519_LEN)
    && (a.decision.Retry? ==> s.retry.None?)
    && (s.retry.Some? ==> Snapshot(a.hello.fields.random, a.hello.fields.sessionId) == s.retry.value)
  }

  function Admit(s: Session, m: bytes, cfg: ServerConfig): (r: Result<Admitted, TlsError>)
    ensures r.Ok? ==> GetHello(m) == Ok(Got(r.value.hello, [])) && Admissible(s, m, cfg, r.value)
  {
    match GetHello(m)
    case Err(e) => Err(e)
    case Ok(Got(h, rest)) =>
      if rest != [] then Err(InvalidHandshake)
      else if CheckVersions(h.exts).Some? then Err(CheckVersions(h.exts).value)
      else if CheckSuites(h.fields.suites).Some? then Err(CheckSuites(h.fields.suites).value)
      else if CheckUnchanged(h.fields, s.retry).Some? then Err(CheckUnchanged(h.fields, s.retry).value)
      else
        match DecideKex(h.exts, cfg.dhe.Some?, s.retry.Some?)
        case Err(e) => Err(e)
        case Ok(decision) =>
          match Locate(h.exts, cfg.identity)
          case Err(e) => Err(e)
          case Ok((index, binder)) => Ok(Admitted(h, decision, index, binder))
  }

  // --- Sealing (server.rs:1020-1134) ---

  /** The additional data of a protected record: its own header. */
  function Aad(n: nat): (r: bytes)
    ensures |r| == 5
  {
    [APPLICATION_DATA, 3, 3] + U16(n)
  }

  /** The record that carries `inner` (content and type marker) under direction `t`. */
  function SealedRecord(c: Crypto, t: Traffic, inner: bytes): (r: bytes)
    ensures |r| == 5 + |inner| + TAG_LEN
  {
    Aad(|inner| + TAG_LEN) + c.val(Sealed(t.key, NonceOf(c, t), Aad(|inner| + TAG_LEN), inner))
  }

  function SealOf(t: Traffic, inner: bytes): Seal { SealEvent(t.key, t.iv, t.counter, inner) }

  function SealNonce(c: Crypto, e: Seal): bytes { Nonce(c.val(e.iv), e.counter) }

  /** The schedule after sending one record. */
  function Sent(ks: Schedule): Schedule
    requires CanAdvance(ks.server)
  {
    ks.(server := Advanced(ks.server))
  }

  const EMPTY_EXTENSIONS: bytes := Message(ENCRYPTED_EXTENSIONS, [0, 0])

  /** Sizes of the EncryptedExtensions and Finished records. */
  const EE_RECORD: nat := 28
  const FINISHED_RECORD: nat := 58

  function ShareOf(cfg: ServerConfig, kex: Kex): Option<bytes>
    requires kex.PskDheKe? ==> cfg.dhe.Some?
  {
    if kex.PskDheKe? then Some(cfg.dhe.value.public) else None
  }

  /** The input to the handshake secret: the X25519 result, or zeros without one. */
  function Ikm(c: Crypto, cfg: ServerConfig, kex: Kex): bytes
    requires kex.PskDheKe? ==> cfg.dhe.Some?
  {
    if kex.PskDheKe? then c.x25519(cfg.dhe.value.secret, kex.share) else Zeros(HASH_LEN)
  }

  /** EncryptedExtensions and Finished under the fresh handshake keys of `ks`, after the record `first`. */
  function SealFlight(c: Crypto, s: Session, ks: Schedule, first: bytes, cap: nat): (o: Outcome)
    requires ks.server.secret.Some? && ks.server.counter == 0
    ensures o.session.retry == s.retry && !SentRetry(o)
  {
    if |first| + EE_RECORD > cap then Outcome(s.(ks := ks), Err(NoSpace), [])
    else
      var ee := EMPTY_EXTENSIONS + [HANDSHAKE];
      var ks1 := Sent(ks.Absorb(EMPTY_EXTENSIONS));
      if |first| + EE_RECORD + FINISHED_RECORD > cap
      then Outcome(s.(ks := ks1), Err(NoSpace), [SealOf(ks.server, ee)])
      else
        var fin := Message(FINISHED, FinishedMac(c, ks1.server.secret.value, ks1.transcript));
        Outcome(s.(ks := Sent(ks1.Absorb(fin))),
                Ok(FirstFlight(first + SealedRecord(c, ks.server, ee)
                               + SealedRecord(c, ks1.server, fin + [HANDSHAKE]))),
                [SealOf(ks.server, ee), SealOf(ks1.server, fin + [HANDSHAKE])])
  }

  /** The flight from ServerHello on, once the binder has been accepted. */
  function SendFlight(c: Crypto, s: Session, m: bytes, a: Admitted, cfg: ServerConfig, cap: nat): (o: Outcome)
    requires a.decision.Use? && (a.decision.kex.PskDheKe? ==> cfg.dhe.Some?)
    ensures o.session.retry == s.retry && !SentRetry(o)
  {
    var kex := a.decision.kex;
    var sh := FlightHello(cfg.random, a.hello.fields.sessionId, ShareOf(cfg, kex), a.index);
    var first := Record(HANDSHAKE, sh);
    var ks1 := s.ks.Absorb(m);
    if |first| > cap then Outcome(s.(ks := ks1), Err(NoSpace), [])
    else
      var ks2 := ks1.Absorb(sh);
      if kex.PskDheKe? && Ikm(c, cfg, kex) == Zeros(X25519_LEN)
      then Outcome(s.(ks := ks2), Err(Abort(ILLEGAL_PARAMETER)), [])
      else
        var ks3 := ks2.Handshake(c, Ikm(c, cfg, kex));
        SealFlight(c, s, ks3, first, cap)
  }

  /** Sending a HelloRetryRequest: the transcript restarts with the hash of the first ClientHello. */
  function SendRetry(c: Crypto, s: Session, m: bytes, a: Admitted, cap: nat): (o: Outcome)
    ensures if SentRetry(o) then o.session.retry == Some(Snapshot(a.hello.fields.random, a.hello.fields.sessionId))
            else o.session == s && o.reply.Err?
  {
    var f := a.hello.fields;
    var hrr := RetryMessage(f.sessionId, X25519);
    if |Record(HANDSHAKE, hrr)| > cap then Outcome(s, Err(NoSpace), [])
    else
      Outcome(Session(s.ks.(transcript := Message(MESSAGE_HASH, c.val(Hash(m))) + hrr),
                      Some(Snapshot(f.random, f.sessionId))),
              Ok(HelloRetryRequest(Record(HANDSHAKE, hrr))), [])
  }

  /** The schedule the binder is checked against: only a first ClientHello derives the early secret. */
  function BinderSchedule(c: Crypto, s: Session, cfg: ServerConfig): (r: Schedule)
    ensures s.retry.None? ==> r.binderKey.Some?
  {
    if s.retry.Some? then s.ks else s.ks.Early(c, cfg.psk)
  }

  /** What the binder covers: the prefix, after the retry transcript if there was a retry. */
  function BinderInput(s: Session, m: bytes, at: nat): bytes
    requires at <= |m|
  {
    (if s.retry.Some? then s.ks.transcript else []) + m[..at]
  }

  /** The answer to an admitted ClientHello: check the binder, then retry or send the flight. */
  function Answer(c: Crypto, s: Session, m: bytes, cfg: ServerConfig, cap: nat, a: Admitted): Outcome
    requires Admissible(s, m, cfg, a)
  {
    var s1 := s.(ks := BinderSchedule(c, s, cfg));
    if s1.ks.binderKey.None? then Outcome(s1, Err(CryptoError), [])
    else if !BinderMatches(c, s1.ks.binderKey.value, BinderInput(s, m, a.hello.bindersAt), a.binder)
    then Outcome(s1, Err(Abort(DECRYPT_ERROR)), [])
    else if a.decision.Retry? then SendRetry(c, s1, m, a, cap)
    else SendFlight(c, s1, m, a, cfg, cap)
  }

  function ProcessHello(c: Crypto, s: Session, m: bytes, cfg: ServerConfig, cap: nat): Outcome {
    match Admit(s, m, cfg)
    case Err(e) => Outcome(s, Err(e), [])
    case Ok(a) => Answer(c, s, m, cfg, cap, a)
  }

  lemma {:induction false} AnswerOf(c: Crypto, s: Session, m: bytes, cfg: ServerConfig, cap: nat, a: Admitted)
    requires Admit(s, m, cfg) == Ok(a)
    ensures Admissible(s, m, cfg, a) && ProcessHello(c, s, m, cfg, cap) == Answer(c, s, m, cfg, cap, a)
  {
  }

  /** What a ClientHello can be answered with. */
  predicate Replies(o: Outcome) { o.reply.Ok? ==> SentFlight(o) || SentRetry(o) }

  lemma {:induction false} FlightReplies(c: Crypto, s: Session, m: bytes, a: Admitted, cfg: ServerConfig, cap: nat)
    requires a.decision.Use? && (a.decision.kex.PskDheKe? ==> cfg.dhe.Some?)
    ensures Replies(SendFlight(c, s, m, a, cfg, cap))
  {
  }

  lemma {:induction false} AnswerReplies(c: Crypto, s: Session, m: bytes, cfg: ServerConfig, cap: nat, a: Admitted)
    requires Admissible(s, m, cfg, a)
    ensures Replies(Answer(c, s, m, cfg, cap, a))
  {
    if a.decision.Use? {
      FlightReplies(c, s.(ks := BinderSchedule(c, s, cfg)), m, a, cfg, cap);
    }
  }

  lemma {:induction false} HelloReplies(c: Crypto, s: Session, m: bytes, cfg: ServerConfig, cap: nat)
    ensures Replies(ProcessHello(c, s, m, cfg, cap))
  {
    var admitted := Admit(s, m, cfg);
    if admitted.Ok? {
      AnswerOf(c, s, m, cfg, cap, admitted.value);
      AnswerReplies(c, s, m, cfg, cap, admitted.value);
    }
  }

  // --- Opening records ---

  /** Framing checks shared by every inbound record: whole record, application type, exact length. */
  function RecordBody(record: bytes): (r: Option<bytes>) {
    if |record| < 5 || record[0] != APPLICATION_DATA || 5 + FromU16(record[3], record[4]) != |record| then None
    else Some(record[5..])
  }

  /** Decrypts with the client's key; only a record that opens advances the counter. */
  function OpenRecord(c: Crypto, ks: Schedule, record: bytes, cap: nat): (r: (Schedule, Result<bytes, TlsError>))
    ensures r.1.Err? ==> r.0 == ks
    ensures r.1.Ok? ==> CanAdvance(ks.client) && r.0 == ks.(client := Advanced(ks.client))
  {
    match RecordBody(record)
    case None => (ks, Err(InvalidRecord))
    case Some(body) =>
      if |body| > cap then (ks, Err(NoSpace))
      else
        match c.open(ks.client.key, NonceOf(c, ks.client), record[..5], body)
        case None => (ks, Err(CryptoError))
        case Some(p) =>
          if !CanAdvance(ks.client) then (ks, Err(CounterExhausted))
          else (ks.(client := Advanced(ks.client)), Ok(p))
  }

  /** `rposition(|b| *b != 0)`. */
  function LastNonZero(p: bytes): (r: Option<nat>)
    ensures r.Some? ==> r.value < |p| && p[r.value] != 0 && forall i :: r.value < i < |p| ==> p[i] == 0
    ensures r.None? ==> forall i :: 0 <= i < |p| ==> p[i] == 0
  {
    if p == [] then None
    else if p[|p| - 1] != 0 then Some(|p| - 1)
    else LastNonZero(p[..|p| - 1])
  }

  const FINISHED_BUFFER: nat := 256

  /** The plaintext of a client Finished record: the message, and nothing else before the marker. */
  function FinishedVerify(inner: bytes): (r: Option<bytes>)
    ensures r.Some? ==> |r.value| == HASH_LEN && inner == Message(FINISHED, r.value)
    ensures forall v: bytes :: |v| == HASH_LEN && inner == Message(FINISHED, v) ==> r == Some(v)
  {
    if |inner| == 4 + HASH_LEN && inner[0] == FINISHED && FromU24(inner[1], inner[2], inner[3]) == HASH_LEN
    then
      assert inner == [inner[0]] + [inner[1], inner[2], inner[3]] + inner[4..];
      Some(inner[4..])
    else None
  }

  /** What a decrypted client Finished leads to, `ks` being the schedule after decryption. */
  function Finish(c: Crypto, s: Session, ks: Schedule, p: bytes): (o: Outcome)
    ensures o.session.retry == s.retry && (o.reply.Ok? ==> o.reply.value.Complete?) && o.seals == []
  {
    var s1 := s.(ks := ks);
    match LastNonZero(p)
    case None => Outcome(s1, Err(InvalidRecord), [])
    case Some(end) =>
      if p[end] != HANDSHAKE then Outcome(s1, Err(InvalidRecord), [])
      else
        match FinishedVerify(p[..end])
        case None => Outcome(s1, Err(InvalidHandshake), [])
        case Some(verify) =>
          if ks.client.secret.None? then Outcome(s1, Err(CryptoError), [])
          else if verify != FinishedMac(c, ks.client.secret.value, ks.transcript)
          then Outcome(s1, Err(Abort(DECRYPT_ERROR)), [])
          else Outcome(s.(ks := ks.Master(c).Absorb(p[..end])), Ok(Complete), [])
  }

  function ProcessFinished(c: Crypto, s: Session, record: bytes): Outcome {
    match OpenRecord(c, s.ks, record, FINISHED_BUFFER)
    case (_, Err(e)) => Outcome(s, Err(e), [])
    case (ks, Ok(p)) => Finish(c, s, ks, p)
  }

  /** Finishing does not look at the schedule from before decryption. */
  lemma {:induction false} FinishAfterOpen(c: Crypto, s: Session, record: bytes, ks: Schedule, p: bytes)
    requires OpenRecord(c, s.ks, record, FINISHED_BUFFER) == (ks, Ok(p))
    ensures ProcessFinished(c, s, record) == Finish(c, s.(ks := ks), ks, p)
  {
  }

  // --- Application data and alerts ---

  /** Seals `inner` under the server's key if the record fits the buffer and its length prefix. */
  function Protect(c: Crypto, s: Session, inner: bytes, cap: nat): Outcome {
    if |inner| + 5 + TAG_LEN > cap || |inner| + TAG_LEN >= 65536 then Outcome(s, Err(NoSpace), [])
    else if !CanAdvance(s.ks.server) then Outcome(s, Err(CounterExhausted), [])
    else Outcome(s.(ks := Sent(s.ks)), Ok(Protected(SealedRecord(c, s.ks.server, inner))),
                 [SealOf(s.ks.server, inner)])
  }

  predicate KnownAlert(b: byte) {
    || b == 0 || b == 10 || b == 20 || b == 22 || b == 40 || 42 <= b <= 51 || 70 <= b <= 71 || b == 80
    || b == 86 || b == 90 || 109 <= b <= 110 || 112 <= b <= 113 || 115 <= b <= 116 || b == 120
  }

  /** What a decrypted record means once padding and type marker are stripped. */
  function Interpret(p: bytes): (r: Result<Reply, TlsError>) {
    match LastNonZero(p)
    case None => Err(InvalidRecord)
    case Some(end) =>
      if p[end] == APPLICATION_DATA then Ok(AppData(p[..end]))
      else if p[end] != ALERT || end != 2 then Err(InvalidRecord)
      else if 1 <= p[0] <= 2 && KnownAlert(p[1]) then Ok(PeerAlert(p[0], p[1]))
      else Err(DecodeError)
  }

  function ReceiveAny(c: Crypto, s: Session, record: bytes, cap: nat): Outcome {
    match OpenRecord(c, s.ks, record, cap)
    case (_, Err(e)) => Outcome(s, Err(e), [])
    case (ks1, Ok(p)) => Outcome(s.(ks := ks1), Interpret(p), [])
  }

  /** `decrypt_application_data`: anything but application data is an invalid record. */
  function ReceiveData(c: Crypto, s: Session, record: bytes, cap: nat): Outcome {
    match OpenRecord(c, s.ks, record, cap)
    case (_, Err(e)) => Outcome(s, Err(e), [])
    case (ks1, Ok(p)) =>
      var meaning := Interpret(p);
      Outcome(s.(ks := ks1), if meaning.Ok? && meaning.value.AppData? then meaning else Err(InvalidRecord), [])
  }

  // --- Calls and runs ---

  datatype Call =
    | ClientHello(message: bytes, config: ServerConfig, cap: nat)
    | ClientFinished(record: bytes)
    | EncryptData(payload: bytes, cap: nat)
    | EncryptAlert(level: byte, description: byte, cap: nat)
    | DecryptData(record: bytes, cap: nat)
    | DecryptAny(record: bytes, cap: nat)

  function Step(c: Crypto, s: Session, call: Call): Outcome {
    match call
    case ClientHello(m, cfg, cap) => ProcessHello(c, s, m, cfg, cap)
    case ClientFinished(record) => ProcessFinished(c, s, record)
    case EncryptData(payload, cap) => Protect(c, s, payload + [APPLICATION_DATA], cap)
    case EncryptAlert(level, description, cap) => Protect(c, s, [level, description, ALERT], cap)
    case DecryptData(record, cap) => ReceiveData(c, s, record, cap)
    case DecryptAny(record, cap) => ReceiveAny(c, s, record, cap)
  }

  /** How a session answers calls. */
  type Stepper = (Session, Call) -> Outcome

  function Server(c: Crypto): Stepper { (s: Session, call: Call) => Step(c, s, call) }

  /** The session after a sequence of calls, whatever they returned. */
  function After(step: Stepper, s: Session, calls: seq<Call>): Session {
    if calls == [] then s
    else step(After(step, s, calls[..|calls| - 1]), calls[|calls| - 1]).session
  }

  /** Every record sealed during those calls, in order. */
  function Log(step: Stepper, s: Session, calls: seq<Call>): seq<Seal> {
    if calls == [] then []
    else
      var before := calls[..|calls| - 1];
      Log(step, s, before) + step(After(step, s, before), calls[|calls| - 1]).seals
  }

  /** No call of the run from `s` met `what` when it was made. */
  ghost predicate Never(step: Stepper, s: Session, what: (Session, Call) -> bool, calls: seq<Call>) {
    forall i :: 0 <= i < |calls| ==> !what(After(step, s, calls[..i]), calls[i])
  }

  lemma {:induction false} NeverLast(
    step: Stepper, s: Session, what: (Session, Call) -> bool, before: seq<Call>, call: Call)
    ensures Never(step, s, what, before + [call]) <==>
            Never(step, s, what, before) && !what(After(step, s, before), call)
  {
    var calls := before + [call];
    assert calls[..|before|] == before && calls[|before|] == call;
    forall i | 0 <= i < |before| ensures calls[..i] == before[..i] && calls[i] == before[i] {
    }
  }

  /** The answer to call `i` of a run that started on a new session. */
  function Answered(step: Stepper, calls: seq<Call>, i: nat): Outcome
    requires i < |calls|
  {
    step(After(step, NEW_SESSION, calls[..i]), calls[i])
  }
}
