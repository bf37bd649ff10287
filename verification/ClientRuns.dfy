/** What every run of the client's handshake keeps, and what it has when it is done. */
module ClientRuns {
  import opened Basics
  import opened Crypto
  import opened KeySchedules
  import opened Rfc8446
  import opened Framing
  import opened WriteBuffers
  import opened ServerMessages
  import opened Decrypts
  import opened ClientSpec

  /** The transcript holds, at `at`, a Finished whose MAC covers exactly what precedes it. */
  predicate FinishedIn(c: Crypto, secret: Term, transcript: bytes, at: nat) {
    && at + FINISHED_LEN <= |transcript| && transcript[at] == FINISHED
    && transcript[at + 4..at + FINISHED_LEN] == FinishedMac(c, secret, transcript[..at])
  }

  lemma {:induction false} FinishedStays(c: Crypto, secret: Term, transcript: bytes, more: bytes, at: nat)
    requires FinishedIn(c, secret, transcript, at)
    ensures FinishedIn(c, secret, transcript + more, at)
    ensures (transcript + more)[..at + FINISHED_LEN] == transcript[..at + FINISHED_LEN]
  {
    var t := transcript + more;
    assert t[..at] == transcript[..at];
    assert t[at + 4..at + FINISHED_LEN] == transcript[at + 4..at + FINISHED_LEN];
  }

  lemma {:induction false} FinishedPrefix(c: Crypto, secret: Term, transcript: bytes, n: nat, at: nat)
    requires FinishedIn(c, secret, transcript, at) && at + FINISHED_LEN <= n <= |transcript|
    ensures FinishedIn(c, secret, transcript[..n], at)
  {
    var t := transcript[..n];
    assert t[..at] == transcript[..at];
    assert t[at + 4..at + FINISHED_LEN] == transcript[at + 4..at + FINISHED_LEN];
  }

  /** What reading a Finished takes and carries. */
  lemma {:induction false} FinishedTaken(c: Crypto, env: Env, digest: bytes, s: bytes)
    requires var r := ReadMessage(c, env.read, digest, s); r.Ok? && r.value.v.message.body.Finished?
    ensures var part := ReadMessage(c, env.read, digest, s).value.v;
            && |part.taken| == FINISHED_LEN && part.taken[0] == FINISHED
            && part.taken[4..] == part.message.body.verify
            && part.message.hash == Some(c.val(Hash(digest)))
  {
    assert ReadsFinished(s, env.read(s));
  }

  // --- Within one record ---

  /** `from` is where ServerHello ended. */
  predicate Progress(c: Crypto, secret: Term, from: nat, v: Verifying, digest: bytes) {
    && from <= |digest|
    && (v.state == ServerVerify || v.state == ClientCert || v.state == State.ClientFinished)
    && (v.state == ServerVerify <==> v.finishedAt.None?)
    && (v.finishedAt.Some? ==> from <= v.finishedAt.value && FinishedIn(c, secret, digest, v.finishedAt.value))
    && (v.state == ClientCert ==> v.request.Some?)
    && (v.state == State.ClientFinished ==> v.snapshot == Some(digest[..v.finishedAt.value + FINISHED_LEN]))
  }

  lemma {:induction false} ProgressStays(c: Crypto, secret: Term, from: nat, v: Verifying, digest: bytes, more: bytes)
    requires Progress(c, secret, from, v, digest)
    ensures Progress(c, secret, from, v, digest + more)
  {
    if v.finishedAt.Some? { FinishedStays(c, secret, digest, more, v.finishedAt.value); }
  }

  lemma {:induction false} VerifiedFinished(
    c: Crypto, secret: Term, from: nat, v: Verifying, digest: bytes, taken: bytes, verify: bytes)
    requires from <= |digest| && |taken| == FINISHED_LEN && taken[0] == FINISHED && taken[4..] == verify
    requires CheckFinished(c, Some(secret), v, digest + taken, verify, c.val(Hash(digest))).Ok?
    ensures var next := CheckFinished(c, Some(secret), v, digest + taken, verify, c.val(Hash(digest))).value;
            Progress(c, secret, from, next, digest + taken)
  {
    var t := digest + taken;
    assert t[..|digest|] == digest && t[|digest|] == taken[0];
    assert t[|digest| + 4..|digest| + FINISHED_LEN] == taken[4..];
    assert t[..|digest| + FINISHED_LEN] == t;
  }

  lemma {:induction false} MessageKeepsProgress(
    c: Crypto, env: Env, secret: Term, from: nat, v: Verifying, digest: bytes, s: bytes)
    requires Progress(c, secret, from, v, digest)
    requires ReadMessage(c, env.read, digest, s).Ok?
    requires var part := ReadMessage(c, env.read, digest, s).value.v;
             CheckMessage(c, env, Some(secret), v, digest + part.taken, part.message).Ok?
    ensures var part := ReadMessage(c, env.read, digest, s).value.v;
            Progress(c, secret, from, CheckMessage(c, env, Some(secret), v, digest + part.taken, part.message).value,
                     digest + part.taken)
  {
    var part := ReadMessage(c, env.read, digest, s).value.v;
    if part.message.body.Finished? {
      FinishedTaken(c, env, digest, s);
      VerifiedFinished(c, secret, from, v, digest, part.taken, part.message.body.verify);
    } else {
      ProgressStays(c, secret, from, v, digest, part.taken);
    }
  }

  lemma {:induction false} RecordKeepsProgress(
    c: Crypto, env: Env, secret: Term, from: nat, v: Verifying, digest: bytes, p: bytes)
    requires Progress(c, secret, from, v, digest)
    requires ReadCoalesced(c, env.read, Checks(c, env, Some(secret)), v, digest, p).Ok?
    ensures var r := ReadCoalesced(c, env.read, Checks(c, env, Some(secret)), v, digest, p).value;
            Progress(c, secret, from, r.state, r.digest) && r.digest == digest + p
    decreases |p|
  {
    var cb := Checks(c, env, Some(secret));
    TranscriptGrowsByRecord(c, env.read, cb, v, digest, p);
    if p != [] {
      var Got(part, rest) := ReadMessage(c, env.read, digest, p).value;
      assert cb(v, digest + part.taken, part.message)
             == CheckMessage(c, env, Some(secret), v, digest + part.taken, part.message);
      MessageKeepsProgress(c, env, secret, from, v, digest, p);
      RecordKeepsProgress(c, env, secret, from, cb(v, digest + part.taken, part.message).value, digest + part.taken,
                          rest);
    }
  }

  // --- Across records ---

  function ServerSecret(c: Crypto, env: Env, cl: Client): Term
    requires cl.log.helloEnd <= |cl.ks.transcript|
  {
    ServerHandshakeSecret(c, Psk(env), cl.log.dhe, cl.ks.transcript[..cl.log.helloEnd])
  }

  /** The transcript starts with the ClientHello and, up to `helloEnd`, the ServerHello. */
  predicate Rooted(c: Crypto, env: Env, cl: Client) {
    |FinalHello(c, env)| <= cl.log.helloEnd <= |cl.ks.transcript| && FinalHello(c, env) <= cl.ks.transcript
  }

  /** Section 7.1: both directions run under the handshake secrets over ClientHello and ServerHello. */
  predicate HandshakeKeys(c: Crypto, env: Env, cl: Client) {
    && Rooted(c, env, cl)
    && var m := cl.ks.transcript[..cl.log.helloEnd];
    && Runs(cl.ks.client, ClientHandshakeSecret(c, Psk(env), cl.log.dhe, m), cl.ks.client.counter)
    && Runs(cl.ks.server, ServerHandshakeSecret(c, Psk(env), cl.log.dhe, m), cl.ks.server.counter)
    && cl.ks.secret == DeriveSecret(c, HandshakeSecret(c, Psk(env), cl.log.dhe), DERIVED, [])
  }

  /** A server Finished after ServerHello has been verified. */
  predicate ServerVerified(c: Crypto, env: Env, cl: Client)
    requires Rooted(c, env, cl)
  {
    && cl.log.finishedAt.Some? && cl.log.helloEnd <= cl.log.finishedAt.value
    && FinishedIn(c, ServerSecret(c, env, cl), cl.ks.transcript, cl.log.finishedAt.value)
  }

  /** How long the snapshot is: through the Finished, plus what followed it on the certificate path. */
  function SnapshotLen(cl: Client): nat
    requires cl.log.finishedAt.Some?
  {
    cl.log.finishedAt.value + FINISHED_LEN + if cl.log.certPath then cl.log.trailing else 0
  }

  predicate SnapshotTaken(cl: Client)
    requires cl.log.finishedAt.Some?
  {
    SnapshotLen(cl) <= |cl.ks.transcript| && cl.snapshot == Some(cl.ks.transcript[..SnapshotLen(cl)])
  }

  /** Section 7.1: the application secrets, over the transcript that is left. */
  predicate ApplicationKeys(c: Crypto, env: Env, cl: Client) {
    && Runs(cl.ks.client, ClientApplicationSecret(c, Psk(env), cl.log.dhe, cl.ks.transcript), 0)
    && Runs(cl.ks.server, ServerApplicationSecret(c, Psk(env), cl.log.dhe, cl.ks.transcript), 0)
  }

  predicate Kept(c: Crypto, env: Env, cl: Client) {
    match cl.state
    case ClientHello => cl == NEW_CLIENT
    case ServerHello =>
      && cl.secret.Some? && cl.ks.transcript == FinalHello(c, env) && !cl.log.certPath
      && cl.ks.secret == DeriveSecret(c, EarlySecret(Psk(env)), DERIVED, [])
    case ServerVerify => HandshakeKeys(c, env, cl) && !cl.log.certPath
    case ClientCert =>
      && HandshakeKeys(c, env, cl) && ServerVerified(c, env, cl) && cl.request.Some? && !cl.log.certPath
      && |cl.ks.transcript| == cl.log.finishedAt.value + FINISHED_LEN + cl.log.trailing
    case ClientCertVerify => HandshakeKeys(c, env, cl) && ServerVerified(c, env, cl) && SnapshotTaken(cl)
    case ClientFinished => HandshakeKeys(c, env, cl) && ServerVerified(c, env, cl) && SnapshotTaken(cl)
    case ApplicationData =>
      && Rooted(c, env, cl) && ServerVerified(c, env, cl) && ApplicationKeys(c, env, cl)
      && |cl.ks.transcript| == SnapshotLen(cl)
  }

  /** Extending the transcript and moving counters disturbs nothing established so far. */
  lemma {:induction false} ExtendKeeps(c: Crypto, env: Env, cl: Client, next: Client, more: bytes)
    requires HandshakeKeys(c, env, cl)
    requires next.ks.transcript == cl.ks.transcript + more && next.ks.secret == cl.ks.secret
    requires next.ks.client == cl.ks.client.(counter := next.ks.client.counter)
    requires next.ks.server == cl.ks.server.(counter := next.ks.server.counter)
    requires next.log.dhe == cl.log.dhe && next.log.helloEnd == cl.log.helloEnd
    ensures HandshakeKeys(c, env, next)
    ensures next.log.finishedAt == cl.log.finishedAt && ServerVerified(c, env, cl) ==> ServerVerified(c, env, next)
  {
    assert next.ks.transcript[..cl.log.helloEnd] == cl.ks.transcript[..cl.log.helloEnd];
    if ServerVerified(c, env, cl) {
      FinishedStays(c, ServerSecret(c, env, cl), cl.ks.transcript, more, cl.log.finishedAt.value);
    }
  }

  lemma {:induction false} StartKeeps(c: Crypto, env: Env, cl: Client, room: nat)
    requires cl == NEW_CLIENT && StartHandshake(c, env, cl, room).Ok?
    ensures Kept(c, env, StartHandshake(c, env, cl, room).value)
  {
    assert [] + FinalHello(c, env) == FinalHello(c, env);
  }

  lemma {:induction false} HelloKeeps(c: Crypto, env: Env, cl: Client, part: Part)
    requires cl.state == State.ServerHello && Kept(c, env, cl) && AcceptHello(c, env, cl, part).Ok?
    ensures Kept(c, env, AcceptHello(c, env, cl, part).value)
  {
    var next := AcceptHello(c, env, cl, part).value;
    assert next.ks.transcript[..|next.ks.transcript|] == next.ks.transcript;
  }

  /** Whatever the messages of a record were, the state they lead to has what it needs. */
  lemma {:induction false} ConcludedKept(c: Crypto, env: Env, cl: Client, v: Verifying, more: bytes, server: Traffic)
    requires cl.state == ServerVerify && Kept(c, env, cl)
    requires Progress(c, ServerSecret(c, env, cl), cl.log.helloEnd, v, cl.ks.transcript + more)
    requires server == cl.ks.server.(counter := server.counter)
    ensures var cl1 := Concluded(cl, v, cl.ks.transcript + more);
            Kept(c, env, cl1.(ks := cl1.ks.(server := server)))
  {
    var cl1 := Concluded(cl, v, cl.ks.transcript + more);
    var next := cl1.(ks := cl1.ks.(server := server));
    ExtendKeeps(c, env, cl, next, more);
    assert next.ks.transcript[..cl.log.helloEnd] == cl.ks.transcript[..cl.log.helloEnd];
  }

  lemma {:induction false} ProtectedKeeps(c: Crypto, env: Env, cl: Client, f: Frame)
    requires cl.state == ServerVerify && Kept(c, env, cl) && ReceiveProtected(c, env, cl, f).Ok?
    ensures Kept(c, env, ReceiveProtected(c, env, cl, f).value)
  {
    var content := OpenFrame(c, cl.ks.server, f).value.1;
    var secret := ServerSecret(c, env, cl);
    RecordKeepsProgress(c, env, secret, cl.log.helloEnd, StartVerifying(cl), cl.ks.transcript, content);
    var r := ReadCoalesced(c, env.read, Checks(c, env, Some(secret)), StartVerifying(cl), cl.ks.transcript, content);
    ConcludedKept(c, env, cl, r.value.state, content, Advanced(cl.ks.server));
  }

  lemma {:induction false} UnprotectedKeeps(c: Crypto, env: Env, cl: Client, kind: byte, body: bytes)
    requires cl.state == ServerVerify && Kept(c, env, cl) && ReceiveUnprotected(c, env, cl, kind, body).Ok?
    ensures Kept(c, env, ReceiveUnprotected(c, env, cl, kind, body).value)
  {
    if kind == HANDSHAKE {
      var part := ReadMessage(c, env.read, cl.ks.transcript, body).value.v;
      var secret := ServerSecret(c, env, cl);
      MessageKeepsProgress(c, env, secret, cl.log.helloEnd, StartVerifying(cl), cl.ks.transcript, body);
      var digest := cl.ks.transcript + part.taken;
      var v := CheckMessage(c, env, Some(secret), StartVerifying(cl), digest, part.message).value;
      ConcludedKept(c, env, cl, v, part.taken, cl.ks.server);
    }
  }

  lemma {:induction false} CertificateKeeps(c: Crypto, env: Env, cl: Client, room: nat)
    requires cl.state == ClientCert && Kept(c, env, cl) && SendCertificate(env, cl, room).Ok?
    ensures var next := SendCertificate(env, cl, room).value;
            (next.state == ClientCertVerify || next.state == State.ClientFinished) && Kept(c, env, next)
  {
    var next := SendCertificate(env, cl, room).value;
    ExtendKeeps(c, env, cl, next, CertificateMessage(cl.request.value, env.certificate));
    assert next.ks.transcript[..SnapshotLen(next)] == cl.ks.transcript;
  }

  /** Sending on once the snapshot is taken leaves it as it is. */
  lemma {:induction false} SendKeeps(c: Crypto, env: Env, cl: Client, m: bytes, room: nat)
    requires cl.state == ClientCertVerify || cl.state == State.ClientFinished
    requires Kept(c, env, cl) && Send(cl, HandshakeHeader(true), m, State.ClientFinished, room).Ok?
    ensures var next := Send(cl, HandshakeHeader(true), m, State.ClientFinished, room).value;
            next.state == State.ClientFinished && Kept(c, env, next)
  {
    SentKept(c, env, cl, m, Advanced(cl.ks.client));
  }

  lemma {:induction false} SentKept(c: Crypto, env: Env, cl: Client, m: bytes, client: Traffic)
    requires HandshakeKeys(c, env, cl) && ServerVerified(c, env, cl) && SnapshotTaken(cl)
    requires client == cl.ks.client.(counter := client.counter)
    ensures Kept(c, env, cl.(ks := cl.ks.Absorb(m).(client := client), state := State.ClientFinished))
  {
    var next := cl.(ks := cl.ks.Absorb(m).(client := client), state := State.ClientFinished);
    ExtendKeeps(c, env, cl, next, m);
    assert next.ks.transcript[..SnapshotLen(next)] == cl.ks.transcript[..SnapshotLen(cl)];
  }

  lemma {:induction false} VerifyKeeps(c: Crypto, env: Env, cl: Client, room: nat)
    requires cl.state == ClientCertVerify && Kept(c, env, cl) && SendCertificateVerify(c, env, cl, room).Ok?
    ensures var next := SendCertificateVerify(c, env, cl, room).value;
            next.state == State.ClientFinished && Kept(c, env, next)
  {
    var (scheme, signature) := env.sign(SignatureInput(c.val(Hash(cl.ks.transcript)))).value;
    SendKeeps(c, env, cl, VerifyMessage(scheme, signature), room);
  }

  lemma {:induction false} MasterKeys(c: Crypto, env: Env, cl: Client, next: Client)
    requires cl.ks.secret == DeriveSecret(c, HandshakeSecret(c, Psk(env), cl.log.dhe), DERIVED, [])
    requires next.ks == cl.ks.Master(c) && next.log == cl.log
    ensures ApplicationKeys(c, env, next)
  {
  }

  lemma {:induction false} TruncateKeeps(c: Crypto, env: Env, cl: Client, next: Client, n: nat)
    requires Rooted(c, env, cl) && ServerVerified(c, env, cl)
    requires cl.log.finishedAt.value + FINISHED_LEN <= n <= |cl.ks.transcript|
    requires next.ks.transcript == cl.ks.transcript[..n] && next.log == cl.log
    ensures Rooted(c, env, next) && ServerVerified(c, env, next)
  {
    FinishedPrefix(c, ServerSecret(c, env, cl), cl.ks.transcript, n, cl.log.finishedAt.value);
    assert next.ks.transcript[..cl.log.helloEnd] == cl.ks.transcript[..cl.log.helloEnd];
  }

  /** Whatever the client hashed after the snapshot is not part of what the application keys cover. */
  lemma {:induction false} FinalizeKeeps(c: Crypto, env: Env, cl: Client)
    requires cl.state == State.ClientFinished && Kept(c, env, cl) && Finalize(c, cl).Ok?
    ensures Kept(c, env, Finalize(c, cl).value)
  {
    var next, n := Finalize(c, cl).value, SnapshotLen(cl);
    MasterKeys(c, env, cl.(ks := cl.ks.(transcript := cl.ks.transcript[..n])), next);
    TruncateKeeps(c, env, cl, next, n);
  }

  lemma {:induction false} FinishedKeeps(c: Crypto, env: Env, cl: Client, room: nat)
    requires cl.state == State.ClientFinished && Kept(c, env, cl) && SendFinished(c, cl, room).Ok?
    ensures SendFinished(c, cl, room).value.state == ApplicationData && Kept(c, env, SendFinished(c, cl, room).value)
  {
    var m := Message(FINISHED, FinishedMac(c, cl.ks.client.secret.value, cl.ks.transcript));
    SendKeeps(c, env, cl, m, room);
    FinalizeKeeps(c, env, Send(cl, HandshakeHeader(true), m, State.ClientFinished, room).value);
  }

  lemma {:induction false} HelloRead(c: Crypto, env: Env, cl: Client, f: WireRecord) returns (part: Part)
    requires ReceiveHello(c, env, cl, f).Ok?
    ensures ReceiveHello(c, env, cl, f) == AcceptHello(c, env, cl, part)
  {
    part := ReadMessage(c, env.read, cl.ks.transcript, f.body).value.v;
  }

  lemma {:induction false} ServerHelloKeeps(c: Crypto, env: Env, cl: Client, f: WireRecord)
    requires cl.state == State.ServerHello && Kept(c, env, cl) && ReceiveHello(c, env, cl, f).Ok?
    ensures Kept(c, env, ReceiveHello(c, env, cl, f).value)
  {
    var part := HelloRead(c, env, cl, f);
    HelloKeeps(c, env, cl, part);
  }

  lemma {:induction false} FlightKeeps(c: Crypto, env: Env, cl: Client, f: WireRecord)
    requires cl.state == ServerVerify && Kept(c, env, cl) && ReceiveFlight(c, env, cl, f).Ok?
    ensures Kept(c, env, ReceiveFlight(c, env, cl, f).value)
  {
    if f.header[0] == APPLICATION_DATA {
      ProtectedKeeps(c, env, cl, f);
    } else {
      UnprotectedKeeps(c, env, cl, f.header[0], f.body);
    }
  }

  lemma {:induction false} StepKeeps(c: Crypto, env: Env, room: nat, cl: Client, f: WireRecord)
    requires Kept(c, env, cl) && Step(c, env, room, cl, f).Ok?
    ensures Kept(c, env, Step(c, env, room, cl, f).value)
  {
    match cl.state {
      case ClientHello => StartKeeps(c, env, cl, room);
      case ServerHello => ServerHelloKeeps(c, env, cl, f);
      case ServerVerify => FlightKeeps(c, env, cl, f);
      case ClientCert => CertificateKeeps(c, env, cl, room);
      case ClientCertVerify => VerifyKeeps(c, env, cl, room);
      case ClientFinished => FinishedKeeps(c, env, cl, room);
      case ApplicationData =>
    }
  }

  lemma {:induction false} RunKeeps(c: Crypto, env: Env, room: nat, records: seq<WireRecord>)
    requires Run(Process(c, env, room), records).Ok?
    ensures Kept(c, env, Run(Process(c, env, room), records).value)
    decreases |records|
  {
    if records != [] {
      var before := records[..|records| - 1];
      RunKeeps(c, env, room, before);
      StepKeeps(c, env, room, Run(Process(c, env, room), before).value, records[|records| - 1]);
    }
  }

  // --- What a run gives ---

  lemma {:induction false} RunOne(step: Stepper, records: seq<WireRecord>, f: WireRecord, cl: Client)
    requires Run(step, records) == Ok(cl)
    ensures Run(step, records + [f]) == step(cl, f)
  {
    assert (records + [f])[..|records|] == records;
  }

  /** Whatever a state takes has been put there: the errors for missing fields cannot occur. */
  lemma {:induction false} FieldsPopulated(c: Crypto, env: Env, room: nat, records: seq<WireRecord>)
    requires Run(Process(c, env, room), records).Ok?
    ensures var cl := Run(Process(c, env, room), records).value;
            && (cl.state == State.ServerHello ==> cl.secret.Some?)
            && (cl.state == ServerVerify ==> cl.ks.server.secret.Some?)
            && (cl.state == ClientCert ==> cl.request.Some?)
            && (cl.state == State.ClientFinished ==> cl.snapshot.Some? && cl.ks.client.secret.Some?)
  {
    RunKeeps(c, env, room, records);
  }

  /**
   * Every run that reaches application data has verified a server Finished against the transcript
   * just before it, under the server's handshake secret of section 7.1 of RFC 8446; its keys in both
   * directions are the application secrets over the remaining transcript; and that transcript is
   * ClientHello through server Finished exactly when no client certificate was asked for or the
   * Finished ended its record.
   */
  lemma {:induction false} ApplicationDataOnlyAfterVerification(
    c: Crypto, env: Env, room: nat, records: seq<WireRecord>)
    requires Run(Process(c, env, room), records).Ok?
             && Run(Process(c, env, room), records).value.state == ApplicationData
    ensures var cl := Run(Process(c, env, room), records).value;
            && Rooted(c, env, cl) && ServerVerified(c, env, cl) && ApplicationKeys(c, env, cl)
            && (cl.ks.transcript == cl.ks.transcript[..cl.log.finishedAt.value + FINISHED_LEN]
                <==> !cl.log.certPath || cl.log.trailing == 0)
  {
    var cl := Run(Process(c, env, room), records).value;
    RunKeeps(c, env, room, records);
    assert cl.ks.transcript[..|cl.ks.transcript|] == cl.ks.transcript;
  }
}
