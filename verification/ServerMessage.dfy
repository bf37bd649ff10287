/**
 * The handshake messages a client reads and what they add to its transcript
 * (src/handshake/mod.rs:185-241, src/connection.rs:69-77).
 */
module ServerMessages {
  import opened Basics
  import opened Crypto
  import opened ParseBuffers
  import opened Extensions
  import opened ServerHellos

  const NEW_SESSION_TICKET: byte := 4
  const CERTIFICATE: byte := 11
  const CERTIFICATE_REQUEST: byte := 13
  const CERTIFICATE_VERIFY: byte := 15

  datatype Body =
    | Hello(exts: seq<ServerExt>)
    | EncryptedExts
    | Ticket
    | Certificate(content: bytes)
    | CertificateRequest(context: bytes)
    | CertificateVerify(content: bytes)
    | Finished(verify: bytes)

  /** A parser takes a prefix of what it is given. */
  predicate TakesPrefix<T>(s: bytes, r: Result<Got<T>, TlsError>) {
    r.Ok? ==> |r.value.rest| <= |s| && s[|s| - |r.value.rest|..] == r.value.rest
  }

  /** The bodies left to other parsers are neither ServerHello nor Finished. */
  ghost predicate ParsesOthers(parse: (byte, bytes) -> Result<Got<Body>, TlsError>) {
    forall kind, s :: TakesPrefix(s, parse(kind, s)) &&
      (parse(kind, s).Ok? ==> !parse(kind, s).value.v.Hello? && !parse(kind, s).value.v.Finished?)
  }

  /** Whatever parses the bodies that are discarded or handed to a verifier. */
  type BodyParser = p: (byte, bytes) -> Result<Got<Body>, TlsError> | ParsesOthers(p)
    witness (kind, s) => Err(Unimplemented)

  const FINISHED_LEN: nat := 4 + HASH_LEN

  /** A Finished is its type, an unused length, and the verify data. */
  predicate ReadsFinished(s: bytes, r: Result<Got<Body>, TlsError>) {
    r.Ok? && r.value.v.Finished? ==>
      && FINISHED_LEN <= |s| && s[0] == FINISHED && r.value.v.verify == s[4..FINISHED_LEN]
      && r.value.rest == s[FINISHED_LEN..]
  }

  /** A reader of whole messages: it takes a non-empty prefix. */
  ghost predicate Advances(get: bytes -> Result<Got<Body>, TlsError>) {
    forall s :: TakesPrefix(s, get(s)) && (get(s).Ok? ==> |get(s).value.rest| < |s|) && ReadsFinished(s, get(s))
  }

  type MessageReader = g: bytes -> Result<Got<Body>, TlsError> | Advances(g)
    witness s => Err(Unimplemented)

  lemma {:induction false} HelloTakesPrefix(s: bytes)
    ensures TakesPrefix(s, GetServerHello(s))
  {
    var r := GetServerHello(s);
    if r.Ok? {
      var p := 38 + s[34] as int;
      var v := s[p..];
      var end := 2 + FromU16(v[0], v[1]);
      assert r.value.rest == v[end..] == s[p + end..];
    }
  }

  /** EncryptedExtensions are checked for shape and dropped (src/extensions/messages.rs:56-68). */
  function EncryptedBody(t: nat, data: bytes): Result<(), TlsError> {
    if !KnownType(t) then Err(UnknownExtensionType)
    else if t == SERVER_NAME then if data == [] then Ok(()) else Err(DecodeError)
    else if t == SUPPORTED_GROUPS then if U16List(GetGroup, 13, data).Ok? then Ok(()) else Err(DecodeError)
    else if t == MAX_FRAGMENT_LENGTH || t == ALPN then if OtherAccepted(t, data) then Ok(()) else Err(DecodeError)
    else if t == 14 || t == 15 || t == 19 || t == 20 || t == 42 then Ok(())
    else Err(Abort(ILLEGAL_PARAMETER))
  }

  /** So are the extensions of a CertificateRequest (src/extensions/messages.rs:71-81). */
  function RequestBody(t: nat, data: bytes): Result<(), TlsError> {
    if !KnownType(t) then Err(UnknownExtensionType)
    else if t == SIGNATURE_ALGORITHMS then if OtherAccepted(t, data) then Ok(()) else Err(DecodeError)
    else if t == 5 || t == 18 || t == 27 || t == 47 || t == 48 || t == 50 then Ok(())
    else Err(Abort(ILLEGAL_PARAMETER))
  }

  lemma {:induction false} VectorTakesPrefix<E>(body: (nat, bytes) -> Result<E, TlsError>, room: nat, s: bytes)
    ensures TakesPrefix(s, GetVector(body, room, s))
  {
  }

  /** `EncryptedExtensions::parse`. */
  function GetEncrypted(s: bytes): (r: Result<Got<Body>, TlsError>)
    ensures TakesPrefix(s, r)
  {
    VectorTakesPrefix(EncryptedBody, 16, s);
    match GetVector(EncryptedBody, 16, s)
    case Err(e) => Err(e)
    case Ok(g) => Ok(Got(EncryptedExts, g.rest))
  }

  /** `CertificateRequestRef::parse`. */
  function GetRequest(s: bytes): (r: Result<Got<Body>, TlsError>)
    ensures TakesPrefix(s, r)
  {
    if |s| < 1 || |s| < 1 + s[0] as int then Err(InvalidCertificateRequest)
    else
      var p := 1 + s[0] as int;
      VectorTakesPrefix(RequestBody, 6, s[p..]);
      match GetVector(RequestBody, 6, s[p..])
      case Err(e) => Err(e)
      case Ok(g) => Ok(Got(CertificateRequest(s[1..p]), g.rest))
  }

  /** The body of a message of type `kind`, from the front of `s`. */
  function GetBody(parse: BodyParser, kind: byte, s: bytes): (r: Result<Got<Body>, TlsError>)
    ensures TakesPrefix(s, r)
    ensures r.Ok? && r.value.v.Finished? ==>
      kind == FINISHED && HASH_LEN <= |s| && r.value.v.verify == s[..HASH_LEN] && r.value.rest == s[HASH_LEN..]
  {
    if kind == SERVER_HELLO then
      HelloTakesPrefix(s);
      match GetServerHello(s)
      case Err(e) => Err(e)
      case Ok(Got(exts, rest)) => Ok(Got(Hello(exts), rest))
    else if kind == FINISHED then
      if |s| < HASH_LEN then Err(ParseFailure(InsufficientBytes))
      else Ok(Got(Finished(s[..HASH_LEN]), s[HASH_LEN..]))
    else if kind == ENCRYPTED_EXTENSIONS then GetEncrypted(s)
    else if kind == CERTIFICATE_REQUEST then GetRequest(s)
    else if kind == NEW_SESSION_TICKET || kind == CERTIFICATE || kind == CERTIFICATE_VERIFY then
      assert TakesPrefix(s, parse(kind, s));
      parse(kind, s)
    else if kind == CLIENT_HELLO || kind == 5 || kind == 24 || kind == MESSAGE_HASH then Err(Unimplemented)
    else Err(InvalidHandshake)
  }

  /** What holds of the body holds of the message around it. */
  lemma {:induction false} BodyInMessage(s: bytes, r: Result<Got<Body>, TlsError>)
    requires |s| >= 4 && TakesPrefix(s[4..], r)
    requires r.Ok? && r.value.v.Finished? ==>
      && s[0] == FINISHED && HASH_LEN <= |s[4..]|
      && r.value.v.verify == s[4..][..HASH_LEN] && r.value.rest == s[4..][HASH_LEN..]
    ensures TakesPrefix(s, r) && (r.Ok? ==> |r.value.rest| < |s|) && ReadsFinished(s, r)
  {
    if r.Ok? {
      SliceOfTail(s, 4, |s| - 4 - |r.value.rest|, |s| - 4);
      if r.value.v.Finished? {
        SliceOfTail(s, 4, 0, HASH_LEN);
      }
    }
  }

  /** `ServerHandshake::parse`. The announced length is read but not used. */
  function GetMessage(parse: BodyParser, s: bytes): (r: Result<Got<Body>, TlsError>)
    ensures TakesPrefix(s, r) && (r.Ok? ==> |r.value.rest| < |s|)
    ensures ReadsFinished(s, r)
  {
    if |s| < 4 then Err(InvalidHandshake)
    else
      BodyInMessage(s, GetBody(parse, s[0], s[4..]));
      GetBody(parse, s[0], s[4..])
  }

  function Messages(parse: BodyParser): MessageReader {
    (s: bytes) => GetMessage(parse, s)
  }

  /** A message as the callback sees it: a Finished comes with the transcript hash it is checked against. */
  datatype Incoming = Incoming(body: Body, hash: Option<bytes>)

  /** A message, the bytes it took, and what follows. */
  datatype Part = Part(taken: bytes, message: Incoming)

  /** The hash a message comes with, `before` being the transcript it is added to. */
  function HashFor(c: Crypto, body: Body, before: bytes): Option<bytes> {
    if body.Finished? then Some(c.val(Hash(before))) else None
  }

  /** `ServerHandshake::read`: the hash is taken before the message itself is absorbed. */
  function ReadMessage(c: Crypto, get: MessageReader, digest: bytes, s: bytes): (r: Result<Got<Part>, TlsError>)
    ensures r.Ok? ==> s == r.value.v.taken + r.value.rest && |r.value.rest| < |s|
  {
    assert TakesPrefix(s, get(s));
    match get(s)
    case Err(e) => Err(e)
    case Ok(Got(body, rest)) =>
      Ok(Got(Part(s[..|s| - |rest|], Incoming(body, HashFor(c, body, digest))), rest))
  }

  /** What is done with each message, given the transcript that now includes it. */
  type Callback<!S> = (S, bytes, Incoming) -> Result<S, TlsError>

  datatype Reading<S> = Reading(state: S, digest: bytes)

  /** The messages of one record, handled in order. */
  function ReadCoalesced<S>(c: Crypto, get: MessageReader, cb: Callback<S>, state: S, digest: bytes, p: bytes)
    : Result<Reading<S>, TlsError>
    decreases |p|
  {
    if p == [] then Ok(Reading(state, digest))
    else
      match ReadMessage(c, get, digest, p)
      case Err(e) => Err(e)
      case Ok(Got(part, rest)) =>
        match cb(state, digest + part.taken, part.message)
        case Err(e) => Err(e)
        case Ok(next) => ReadCoalesced(c, get, cb, next, digest + part.taken, rest)
  }

  /** The loop over coalesced messages in `decrypt_record`. */
  method DecodeCoalesced<S>(c: Crypto, get: MessageReader, cb: Callback<S>, state: S, digest: bytes, p: bytes)
    returns (r: Result<Reading<S>, TlsError>)
    ensures r == ReadCoalesced(c, get, cb, state, digest, p)
  {
    var at, now, hashed := 0, state, digest;
    while at < |p|
      invariant at <= |p|
      invariant ReadCoalesced(c, get, cb, state, digest, p) == ReadCoalesced(c, get, cb, now, hashed, p[at..])
    {
      var got := ReadMessage(c, get, hashed, p[at..]);
      if got.Err? {
        return Err(got.error);
      }
      var end := |p| - |got.value.rest|;
      assert p[at..][|p[at..]| - |got.value.rest|..] == p[end..];
      hashed := hashed + got.value.v.taken;
      var handled := cb(now, hashed, got.value.v.message);
      if handled.Err? {
        return Err(handled.error);
      }
      at, now := end, handled.value;
    }
    r := Ok(Reading(now, hashed));
  }

  // --- What the transcript gains ---

  /** The record split into its messages. */
  function Parts(c: Crypto, get: MessageReader, digest: bytes, p: bytes): Result<seq<Part>, TlsError>
    decreases |p|
  {
    if p == [] then Ok([])
    else
      match ReadMessage(c, get, digest, p)
      case Err(e) => Err(e)
      case Ok(Got(part, rest)) =>
        match Parts(c, get, digest + part.taken, rest)
        case Err(e) => Err(e)
        case Ok(more) => Ok([part] + more)
  }

  /** The bytes of the first `i` messages. */
  function Taken(parts: seq<Part>, i: nat): bytes
    requires i <= |parts|
  {
    if i == 0 then [] else Taken(parts, i - 1) + parts[i - 1].taken
  }

  lemma {:induction false} TakenTail(parts: seq<Part>, i: nat)
    requires 0 < i <= |parts|
    ensures Taken(parts, i) == parts[0].taken + Taken(parts[1..], i - 1)
  {
    if i > 1 {
      TakenTail(parts, i - 1);
      Assoc(parts[0].taken, Taken(parts[1..], i - 2), parts[i - 1].taken);
    }
  }

  /** The messages tile the record: no gap and no overlap. */
  lemma {:induction false} PartsTile(c: Crypto, get: MessageReader, digest: bytes, p: bytes)
    requires Parts(c, get, digest, p).Ok?
    ensures var parts := Parts(c, get, digest, p).value; Taken(parts, |parts|) == p
    decreases |p|
  {
    if p != [] {
      var Got(part, rest) := ReadMessage(c, get, digest, p).value;
      var parts := Parts(c, get, digest, p).value;
      PartsTile(c, get, digest + part.taken, rest);
      assert parts[1..] == Parts(c, get, digest + part.taken, rest).value;
      TakenTail(parts, |parts|);
    }
  }

  /** Each Finished comes with the hash of everything before it. */
  lemma {:induction false} FinishedHash(c: Crypto, get: MessageReader, digest: bytes, p: bytes, i: nat)
    requires Parts(c, get, digest, p).Ok? && i < |Parts(c, get, digest, p).value|
    ensures var parts := Parts(c, get, digest, p).value;
            parts[i].message.hash == HashFor(c, parts[i].message.body, digest + Taken(parts, i))
    decreases |p|
  {
    var Got(part, rest) := ReadMessage(c, get, digest, p).value;
    var parts := Parts(c, get, digest, p).value;
    if i == 0 {
      assert digest + Taken(parts, 0) == digest;
    } else {
      var more := Parts(c, get, digest + part.taken, rest).value;
      FinishedHash(c, get, digest + part.taken, rest, i - 1);
      assert parts[1..] == more && parts[i] == more[i - 1];
      TakenTail(parts, i);
      Assoc(digest, part.taken, Taken(more, i - 1));
    }
  }

  /** An accepted record adds exactly its plaintext to the transcript, however many messages it holds. */
  lemma {:induction false} TranscriptGrowsByRecord<S>(
    c: Crypto, get: MessageReader, cb: Callback<S>, state: S, digest: bytes, p: bytes)
    requires ReadCoalesced(c, get, cb, state, digest, p).Ok?
    ensures ReadCoalesced(c, get, cb, state, digest, p).value.digest == digest + p
    ensures Parts(c, get, digest, p).Ok?
    decreases |p|
  {
    if p == [] {
      assert digest + p == digest;
    } else {
      var Got(part, rest) := ReadMessage(c, get, digest, p).value;
      var next := cb(state, digest + part.taken, part.message).value;
      TranscriptGrowsByRecord(c, get, cb, next, digest + part.taken, rest);
      Assoc(digest, part.taken, rest);
    }
  }
}
