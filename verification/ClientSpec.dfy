/**
 * The client's handshake (src/connection.rs:130-636) as a state machine. `Env` is everything
 * the configuration, the random source, the verifier and the signer supply.
 */
module ClientSpec {
  import opened Basics
  import opened Crypto
  import opened KeySchedules
  import opened Extensions
  import opened ClientOffers
  import opened ServerSpec
  import opened Framing
  import opened WriteBuffers
  import opened ServerMessages
  import opened Decrypts

  datatype State =
    | ClientHello
    | ServerHello
    | ServerVerify
    | ClientCert
    | ClientCertVerify
    | ClientFinished
    | ApplicationData

  /** A P-256 point is read from its SEC1 encoding: 33 bytes compressed, 65 uncompressed, nothing else. */
  ghost predicate Sec1(agree: (bytes, bytes) -> Option<bytes>) {
    forall secret, share :: agree(secret, share).Some? ==> |share| == 33 || |share| == P256_LEN
  }

  type KeyAgreement = f: (bytes, bytes) -> Option<bytes> | Sec1(f) witness (secret, share) => None

  datatype Environment = Env(
    config: ClientConfig,
    random: bytes,
    suite: nat,                                              // the code point of the cipher suite
    secret: bytes,                                           // the ephemeral secret
    public: bytes,                                           // and its public value
    read: MessageReader,                                     // the reader of handshake messages
    agree: KeyAgreement,                                     // Diffie-Hellman with the server's share
    rejectCertificate: (bytes, bytes) -> Option<TlsError>,   // given the transcript and the certificate
    rejectSignature: bytes -> Option<TlsError>,
    certificate: Option<bytes>,                              // the client's own, if it has one
    sign: bytes -> Result<(nat, bytes), TlsError>)           // the scheme and the signature

  type Env = e: Environment | |e.random| == 32 && e.suite < 65536 && |e.public| == P256_LEN
    witness Env(Settings(None, None, None, [], [], None), Zeros(32), 0, [], Zeros(P256_LEN), s => Err(Unimplemented),
                (a, b) => None, (a, b) => None, a => None, None, a => Err(Unimplemented))

  /**
   * Not kept by the program: the Diffie-Hellman result, where ServerHello ended in the transcript,
   * where the last Finished began, how much of its record followed it, and whether the certificate
   * path was taken.
   */
  datatype Log = Log(dhe: bytes, helloEnd: nat, finishedAt: Option<nat>, trailing: nat, certPath: bool)

  datatype Client = Client(
    state: State,
    ks: Schedule,
    secret: Option<bytes>,
    request: Option<bytes>,
    snapshot: Option<bytes>,
    log: Log)

  const NEW_CLIENT: Client :=
    Client(State.ClientHello, NEW_SCHEDULE, None, None, None, Log([], 0, None, 0, false))

  function Psk(env: Env): bytes { if env.config.psk.Some? then env.config.psk.value.0 else Zeros(HASH_LEN) }

  /** The ClientHello as it is sent. */
  function FinalHello(c: Crypto, env: Env): bytes { SentHello(c, env.config, env.random, env.suite, env.public) }

  // --- Sending ---

  /** Hash a message, seal or frame it, and count the record (`write_record` and `respond`). */
  function Send(cl: Client, h: ClientRecordHeader, m: bytes, next: State, room: nat): Result<Client, TlsError> {
    if 5 + |m| + (if IsEncrypted(h) then 1 + TAG_LEN else 0) > room then Err(NoSpace)
    else if !CanAdvance(cl.ks.client) then Err(CounterExhausted)
    else Ok(cl.(ks := cl.ks.Absorb(m).(client := Advanced(cl.ks.client)), state := next))
  }

  function StartHandshake(c: Crypto, env: Env, cl: Client, room: nat): Result<Client, TlsError> {
    Send(cl.(ks := cl.ks.Early(c, Psk(env)), secret := Some(env.secret)), HandshakeHeader(false), FinalHello(c, env),
         ServerHello, room)
  }

  /** A Certificate message with at most one certificate, for the context of the request. */
  function CertificateMessage(context: bytes, certificate: Option<bytes>): bytes {
    var entries := if certificate.Some? then U24(|certificate.value|) + certificate.value + U16(0) else [];
    Message(CERTIFICATE, [|context| % 256] + context + U24(|entries|) + entries)
  }

  function SendCertificate(env: Env, cl: Client, room: nat): Result<Client, TlsError> {
    var cl1 := cl.(snapshot := Some(cl.ks.transcript), log := cl.log.(certPath := true));
    if cl.request.None? then Err(InvalidHandshake)
    else
      Send(cl1, HandshakeHeader(true), CertificateMessage(cl.request.value, env.certificate),
           if env.certificate.Some? then ClientCertVerify else State.ClientFinished, room)
  }

  /**
   * What a client signs: 64 spaces, the context string, a zero byte, and the transcript hash (section 4.4.3
   * of RFC 8446).
   */
  function SignatureInput(hash: bytes): bytes {
    seq(64, _ => 32) + Ascii("TLS 1.3, client CertificateVerify") + [0] + hash
  }

  function VerifyMessage(scheme: nat, signature: bytes): bytes {
    Message(CERTIFICATE_VERIFY, U16(scheme) + U16(|signature|) + signature)
  }

  /** Without a signing key an alert goes out instead, and the handshake fails. */
  function SendCertificateVerify(c: Crypto, env: Env, cl: Client, room: nat): Result<Client, TlsError> {
    match env.sign(SignatureInput(c.val(Hash(cl.ks.transcript))))
    case Err(e) =>
      var alert := Send(cl, AlertHeader(true), CLOSE_NOTIFY, cl.state, room);
      if alert.Err? then alert else Err(e)
    case Ok((scheme, signature)) =>
      Send(cl, HandshakeHeader(true), VerifyMessage(scheme, signature), State.ClientFinished, room)
  }

  /** `client_finished_finalize`: the application keys are derived over the snapshot. */
  function Finalize(c: Crypto, cl: Client): Result<Client, TlsError> {
    if cl.snapshot.None? then Err(InvalidHandshake)
    else
      Ok(cl.(ks := cl.ks.(transcript := cl.snapshot.value).Master(c), snapshot := None, state := ApplicationData))
  }

  /** Finished covers the whole transcript so far. */
  function SendFinished(c: Crypto, cl: Client, room: nat): Result<Client, TlsError> {
    if cl.ks.client.secret.None? then Err(InvalidHandshake)
    else
      var m := Message(FINISHED, FinishedMac(c, cl.ks.client.secret.value, cl.ks.transcript));
      match Send(cl, HandshakeHeader(true), m, State.ClientFinished, room)
      case Err(e) => Err(e)
      case Ok(cl1) => Finalize(c, cl1)
  }

  // --- Receiving ---

  /** `key_share`: the first share among the extensions. */
  function ServerKeyShare(exts: seq<ServerExt>): Option<bytes> {
    if exts == [] then None
    else if exts[0].ServerShare? then Some(exts[0].share.key)
    else ServerKeyShare(exts[1..])
  }

  function AlertParsed(body: bytes): Result<byte, TlsError> {
    if |body| < 2 then Err(ParseFailure(InsufficientBytes))
    else if !(1 <= body[0] <= 2) || !KnownAlert(body[1]) then Err(DecodeError)
    else Ok(body[1])
  }

  /** `process_server_hello`, the record's one message being `part`. */
  function AcceptHello(c: Crypto, env: Env, cl: Client, part: Part): Result<Client, TlsError> {
    if !part.message.body.Hello? || cl.secret.None? then Err(InvalidHandshake)
    else
      match ServerKeyShare(part.message.body.exts)
      case None => Err(InvalidKeyShare)
      case Some(share) =>
        match env.agree(cl.secret.value, share)
        case None => Err(InvalidKeyShare)
        case Some(dhe) =>
          var ks := cl.ks.Absorb(part.taken);
          Ok(cl.(state := ServerVerify, secret := None, ks := ks.Handshake(c, dhe),
                 log := cl.log.(dhe := dhe, helloEnd := |ks.transcript|)))
  }

  function ReceiveHello(c: Crypto, env: Env, cl: Client, f: WireRecord): Result<Client, TlsError> {
    if f.header[0] == HANDSHAKE then
      match ReadMessage(c, env.read, cl.ks.transcript, f.body)
      case Err(e) => Err(e)
      case Ok(Got(part, _)) => AcceptHello(c, env, cl, part)
    else if f.header[0] == ALERT then
      match AlertParsed(f.body) case Err(e) => Err(e) case Ok(d) => Err(HandshakeAborted(d))
    else if f.header[0] == 0 then Err(Unimplemented)
    else Err(InvalidRecord)
  }

  /** What the messages of one record change. */
  datatype Verifying = Verifying(state: State, request: Option<bytes>, snapshot: Option<bytes>, finishedAt: Option<nat>)

  /** A Finished must carry the MAC over the hash it came with. */
  function CheckFinished(c: Crypto, secret: Option<Term>, v: Verifying, digest: bytes, verify: bytes, hash: bytes)
    : Result<Verifying, TlsError>
  {
    if secret.None? then Err(InternalError)
    else if verify != c.val(Mac(ExpandLabel(secret.value, FINISHED_LABEL, [], HASH_LEN), hash))
    then Err(InvalidSignature)
    else
      var at: int := |digest| - FINISHED_LEN;
      var v1 := v.(finishedAt := Some(if at < 0 then 0 else at));
      if v.request.Some? then Ok(v1.(state := ClientCert))
      else Ok(v1.(snapshot := Some(digest), state := State.ClientFinished))
  }

  /** The callback of `process_server_verify`; `digest` already includes the message. */
  function CheckMessage(c: Crypto, env: Env, secret: Option<Term>, v: Verifying, digest: bytes, m: Incoming)
    : Result<Verifying, TlsError>
  {
    match m.body
    case EncryptedExts => Ok(v)
    case Certificate(content) =>
      var rejected := env.rejectCertificate(digest, content);
      if rejected.Some? then Err(rejected.value) else Ok(v)
    case CertificateVerify(content) =>
      var rejected := env.rejectSignature(content);
      if rejected.Some? then Err(rejected.value) else Ok(v)
    case CertificateRequest(context) => Ok(v.(request := Some(context)))
    case Finished(verify) =>
      if m.hash.None? then Err(InternalError) else CheckFinished(c, secret, v, digest, verify, m.hash.value)
    case Hello(_) => Err(InvalidHandshake)
    case Ticket => Err(InvalidHandshake)
  }

  function Checks(c: Crypto, env: Env, secret: Option<Term>): Callback<Verifying> {
    (v: Verifying, digest: bytes, m: Incoming) => CheckMessage(c, env, secret, v, digest, m)
  }

  function StartVerifying(cl: Client): Verifying { Verifying(ServerVerify, cl.request, cl.snapshot, None) }

  /** Back into the client: `digest` is the transcript now, and `trailing` of it came after the last Finished. */
  function Concluded(cl: Client, v: Verifying, digest: bytes): Client {
    var after: int := if v.finishedAt.Some? then |digest| - (v.finishedAt.value + FINISHED_LEN) else 0;
    Client(v.state, cl.ks.(transcript := digest), cl.secret, v.request, v.snapshot,
           cl.log.(finishedAt := v.finishedAt, trailing := if after < 0 then 0 else after))
  }

  /** The content of a protected record; only an accepted one is counted. */
  function ReceiveContent(c: Crypto, env: Env, cl: Client, kind: byte, content: bytes): Result<Client, TlsError> {
    if kind == HANDSHAKE then
      match ReadCoalesced(c, env.read, Checks(c, env, cl.ks.server.secret), StartVerifying(cl), cl.ks.transcript,
                          content)
      case Err(e) => Err(e)
      case Ok(reading) =>
        if !CanAdvance(cl.ks.server) then Err(CounterExhausted)
        else
          var cl1 := Concluded(cl, reading.state, reading.digest);
          Ok(cl1.(ks := cl1.ks.(server := Advanced(cl.ks.server))))
    else if kind == APPLICATION_DATA then Err(InvalidRecord)
    else if kind == ALERT then
      match AlertParsed(content) case Err(e) => Err(e) case Ok(_) => Err(InvalidRecord)
    else Err(Unimplemented)
  }

  function ReceiveProtected(c: Crypto, env: Env, cl: Client, f: Frame): Result<Client, TlsError> {
    match OpenFrame(c, cl.ks.server, f)
    case Err(e) => Err(e)
    case Ok((kind, content)) => ReceiveContent(c, env, cl, kind, content)
  }

  /** An unprotected record holds at most one message that counts. */
  function ReceiveUnprotected(c: Crypto, env: Env, cl: Client, kind: byte, body: bytes)
    : Result<Client, TlsError>
  {
    if kind == CHANGE_CIPHER_SPEC then Ok(cl)
    else if kind == HANDSHAKE then
      match ReadMessage(c, env.read, cl.ks.transcript, body)
      case Err(e) => Err(e)
      case Ok(Got(part, _)) =>
        var digest := cl.ks.transcript + part.taken;
        match CheckMessage(c, env, cl.ks.server.secret, StartVerifying(cl), digest, part.message)
        case Err(e) => Err(e)
        case Ok(v) => Ok(Concluded(cl, v, digest))
    else if kind == ALERT then
      match AlertParsed(body) case Err(e) => Err(e) case Ok(_) => Err(InvalidRecord)
    else Err(Unimplemented)
  }

  /** `process_server_verify`. */
  function ReceiveFlight(c: Crypto, env: Env, cl: Client, f: WireRecord): Result<Client, TlsError> {
    if f.header[0] == APPLICATION_DATA then ReceiveProtected(c, env, cl, f)
    else ReceiveUnprotected(c, env, cl, f.header[0], f.body)
  }

  /**
   * The alert that goes out when handling the record fails with an abort; an abort while a
   * plaintext message is still being parsed is not answered (src/connection.rs:299-320).
   */
  function AlertFor(c: Crypto, env: Env, cl: Client, f: WireRecord): Option<byte> {
    if cl.state == ServerVerify && ReceiveFlight(c, env, cl, f).Err? && ReceiveFlight(c, env, cl, f).error.Abort?
       && (f.header[0] == HANDSHAKE ==> ReadMessage(c, env.read, cl.ks.transcript, f.body).Ok?)
    then Some(ReceiveFlight(c, env, cl, f).error.description) else None
  }

  // --- Steps and runs ---

  /** One call of `process`; the states that send ignore the record. */
  function Step(c: Crypto, env: Env, room: nat, cl: Client, f: WireRecord): Result<Client, TlsError> {
    match cl.state
    case ClientHello => StartHandshake(c, env, cl, room)
    case ServerHello => ReceiveHello(c, env, cl, f)
    case ServerVerify => ReceiveFlight(c, env, cl, f)
    case ClientCert => SendCertificate(env, cl, room)
    case ClientCertVerify => SendCertificateVerify(c, env, cl, room)
    case ClientFinished => SendFinished(c, cl, room)
    case ApplicationData => Ok(cl)
  }

  /** How a client goes on when a record comes in. */
  type Stepper = (Client, WireRecord) -> Result<Client, TlsError>

  function Process(c: Crypto, env: Env, room: nat): Stepper {
    (cl: Client, f: WireRecord) => Step(c, env, room, cl, f)
  }

  // What a step is, state by state.

  lemma {:induction false} StartStep(c: Crypto, env: Env, room: nat, cl: Client, f: WireRecord)
    requires cl.state == State.ClientHello
    ensures Process(c, env, room)(cl, f) == StartHandshake(c, env, cl, room)
  {
  }

  lemma {:induction false} HelloStep(c: Crypto, env: Env, room: nat, cl: Client, f: WireRecord)
    requires cl.state == State.ServerHello
    ensures Process(c, env, room)(cl, f) == ReceiveHello(c, env, cl, f)
  {
  }

  lemma {:induction false} FlightStep(c: Crypto, env: Env, room: nat, cl: Client, f: WireRecord)
    requires cl.state == ServerVerify
    ensures Process(c, env, room)(cl, f) == ReceiveFlight(c, env, cl, f)
  {
  }

  lemma {:induction false} CertificateStep(c: Crypto, env: Env, room: nat, cl: Client, f: WireRecord)
    requires cl.state == ClientCert
    ensures Process(c, env, room)(cl, f) == SendCertificate(env, cl, room)
  {
  }

  lemma {:induction false} FinishedStep(c: Crypto, env: Env, room: nat, cl: Client, f: WireRecord)
    requires cl.state == State.ClientFinished
    ensures Process(c, env, room)(cl, f) == SendFinished(c, cl, room)
  {
  }

  /** A run from a new connection, one record per step. */
  function Run(step: Stepper, records: seq<WireRecord>): Result<Client, TlsError> {
    if records == [] then Ok(NEW_CLIENT)
    else
      match Run(step, records[..|records| - 1])
      case Err(e) => Err(e)
      case Ok(cl) => step(cl, records[|records| - 1])
  }
}
