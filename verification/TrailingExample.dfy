/** A run on which the client's application keys cover more than CH..server Finished. */
module TrailingExample {
  import opened Basics
  import opened Crypto
  import opened KeySchedules
  import opened Rfc8446
  import opened ParseBuffers
  import opened Extensions
  import opened ServerHellos
  import opened Framing
  import opened ServerMessages
  import opened ServerKeys
  import opened Flights
  import opened ClientOffers
  import opened Agreement
  import C = ClientSpec
  import ClientRuns

  /** A CertificateRequest without context or extensions, and EncryptedExtensions without extensions. */
  const REQUEST: bytes := Message(CERTIFICATE_REQUEST, [0, 0, 0])
  const TRAILER: bytes := Message(ENCRYPTED_EXTENSIONS, [0, 0])

  lemma {:induction false} RequestRead(parse: BodyParser, rest: bytes)
    ensures Messages(parse)(REQUEST + rest) == Ok(Got(CertificateRequest([]), rest))
  {
    var s := REQUEST + rest;
    assert s[4..] == [0, 0, 0] + rest && s[4..][1..1] == [] && s[4..][1..] == [0, 0] + rest;
    var v := [0, 0] + rest;
    assert v[2..2] == [] && v[2..] == rest;
  }

  lemma {:induction false} FinishedReadBefore(parse: BodyParser, verify: bytes, rest: bytes)
    requires |verify| == HASH_LEN
    ensures Messages(parse)(Message(FINISHED, verify) + rest) == Ok(Got(Finished(verify), rest))
  {
    var s := Message(FINISHED, verify) + rest;
    assert s[4..FINISHED_LEN] == verify && s[FINISHED_LEN..] == rest;
  }

  /** One message of a record that holds several. */
  lemma {:induction false} CoalescedStep<S>(
    c: Crypto, get: MessageReader, cb: Callback<S>, state: S, digest: bytes, m: bytes, rest: bytes, body: Body, next: S)
    requires m != [] && get(m + rest) == Ok(Got(body, rest))
    requires cb(state, digest + m, Incoming(body, HashFor(c, body, digest))) == Ok(next)
    ensures ReadCoalesced(c, get, cb, state, digest, m + rest) == ReadCoalesced(c, get, cb, next, digest + m, rest)
  {
    assert (m + rest)[..|m + rest| - |rest|] == m;
  }

  /** The server's Finished over `messages`. */
  function ServerFinished(c: Crypto, secret: Term, messages: bytes): bytes {
    Message(FINISHED, FinishedMac(c, secret, messages))
  }

  /** CertificateRequest, Finished and one more message, in one record. */
  function Coalesced(c: Crypto, secret: Term, messages: bytes): bytes {
    REQUEST + (ServerFinished(c, secret, messages + REQUEST) + TRAILER)
  }

  lemma {:induction false} ThreeMessages<S>(
    c: Crypto, get: MessageReader, cb: Callback<S>, digest: bytes, a: bytes, b: bytes, d: bytes,
    ba: Body, bb: Body, bd: Body, s0: S, s1: S, s2: S, s3: S)
    requires a != [] && b != [] && d != []
    requires get(a + (b + d)) == Ok(Got(ba, b + d)) && get(b + d) == Ok(Got(bb, d)) && get(d) == Ok(Got(bd, []))
    requires cb(s0, digest + a, Incoming(ba, HashFor(c, ba, digest))) == Ok(s1)
    requires cb(s1, digest + a + b, Incoming(bb, HashFor(c, bb, digest + a))) == Ok(s2)
    requires cb(s2, digest + a + b + d, Incoming(bd, HashFor(c, bd, digest + a + b))) == Ok(s3)
    ensures ReadCoalesced(c, get, cb, s0, digest, a + (b + d)) == Ok(Reading(s3, digest + a + b + d))
  {
    CoalescedStep(c, get, cb, s0, digest, a, b + d, ba, s1);
    CoalescedStep(c, get, cb, s1, digest + a, b, d, bb, s2);
    OneMessage(c, get, cb, s2, digest + a + b, d, bd, s3);
  }

  /** The Finished is checked against what precedes it, and noted where it is. */
  lemma {:induction false} FinishedChecked(c: Crypto, env: C.Env, secret: Term, v: C.Verifying, before: bytes)
    requires v.request.Some?
    ensures var verify := FinishedMac(c, secret, before);
            C.CheckMessage(c, env, Some(secret), v, before + Message(FINISHED, verify),
                           Incoming(Finished(verify), HashFor(c, Finished(verify), before)))
            == Ok(v.(state := C.ClientCert, finishedAt := Some(|before|)))
  {
  }

  /** What the three messages lead to. */
  function Asked(v: C.Verifying): C.Verifying { v.(request := Some([])) }

  function Done(v: C.Verifying, messages: bytes): C.Verifying {
    Asked(v).(state := C.ClientCert, finishedAt := Some(|messages + REQUEST|))
  }

  lemma {:induction false} CoalescedVia<S>(
    c: Crypto, parse: BodyParser, cb: Callback<S>, messages: bytes, verify: bytes, s0: S, s1: S, s2: S)
    requires |verify| == HASH_LEN
    requires cb(s0, messages + REQUEST, Incoming(CertificateRequest([]), None)) == Ok(s1)
    requires cb(s1, messages + REQUEST + Message(FINISHED, verify),
                Incoming(Finished(verify), HashFor(c, Finished(verify), messages + REQUEST))) == Ok(s2)
    requires cb(s2, messages + REQUEST + Message(FINISHED, verify) + TRAILER, Incoming(EncryptedExts, None)) == Ok(s2)
    ensures ReadCoalesced(c, Messages(parse), cb, s0, messages, REQUEST + (Message(FINISHED, verify) + TRAILER))
            == Ok(Reading(s2, messages + REQUEST + Message(FINISHED, verify) + TRAILER))
  {
    RequestRead(parse, Message(FINISHED, verify) + TRAILER);
    FinishedReadBefore(parse, verify, TRAILER);
    EmptyExtensionsRead(parse);
    ThreeMessages(c, Messages(parse), cb, messages, REQUEST, Message(FINISHED, verify), TRAILER,
                  CertificateRequest([]), Finished(verify), EncryptedExts, s0, s1, s2, s2);
  }

  lemma {:induction false} CoalescedRead(
    c: Crypto, env: C.Env, parse: BodyParser, secret: Term, v: C.Verifying, messages: bytes)
    requires env.read == Messages(parse) && v.request.None?
    ensures ReadCoalesced(c, env.read, C.Checks(c, env, Some(secret)), v, messages, Coalesced(c, secret, messages))
            == Ok(Reading(Done(v, messages),
                          messages + REQUEST + ServerFinished(c, secret, messages + REQUEST) + TRAILER))
  {
    FinishedChecked(c, env, secret, Asked(v), messages + REQUEST);
    CoalescedVia(c, parse, C.Checks(c, env, Some(secret)), messages, FinishedMac(c, secret, messages + REQUEST),
                 v, Asked(v), Done(v, messages));
  }

  // --- The run ---

  /** Everything through the record with the Finished, `base` being ClientHello and ServerHello. */
  function Through(c: Crypto, secret: Term, base: bytes): bytes {
    base + REQUEST + ServerFinished(c, secret, base + REQUEST) + TRAILER
  }

  /** The certificate path lies ahead, with more hashed than the Finished. */
  predicate Trailing(cl: C.Client, base: bytes) {
    cl.log.finishedAt == Some(|base + REQUEST|) && cl.log.trailing == |TRAILER|
  }

  lemma {:induction false} GotCoalesced(
    c: Crypto, env: C.Env, parse: BodyParser, cl: C.Client, f: Frame, psk: bytes, dhe: bytes, base: bytes)
    requires env.read == Messages(parse) && Awaiting(c, cl, psk, dhe, base, base, 0)
    requires var secret := ServerHandshakeSecret(c, psk, dhe, base);
             OpensTo(c, secret, 0, f, Coalesced(c, secret, base) + [HANDSHAKE])
    ensures C.ReceiveProtected(c, env, cl, f).Ok?
    ensures var next := C.ReceiveProtected(c, env, cl, f).value;
            && next.state == C.ClientCert && next.request == Some([]) && Trailing(next, base)
            && next.ks.transcript == Through(c, ServerHandshakeSecret(c, psk, dhe, base), base)
            && next.ks.client == cl.ks.client && next.ks.secret == cl.ks.secret
  {
    var secret := ServerHandshakeSecret(c, psk, dhe, base);
    FlightRecordOpens(c, cl.ks.server, secret, 0, f, Coalesced(c, secret, base));
    CoalescedRead(c, env, parse, secret, C.StartVerifying(cl), base);
  }

  lemma {:induction false} SentEmptyCertificate(env: C.Env, cl: C.Client, room: nat)
    requires cl.request == Some([]) && env.certificate.None? && cl.ks.client.counter == 0 && 100 <= room
    ensures C.SendCertificate(env, cl, room).Ok?
    ensures var next := C.SendCertificate(env, cl, room).value;
            && next.state == C.State.ClientFinished && next.snapshot == Some(cl.ks.transcript)
            && next.ks.client == Advanced(cl.ks.client) && next.ks.secret == cl.ks.secret
            && next.log == cl.log.(certPath := true)
  {
  }

  /** The client's Finished, and the application keys over the snapshot. */
  lemma {:induction false} SentFinishedOver(
    c: Crypto, cl: C.Client, room: nat, psk: bytes, dhe: bytes, base: bytes, snapshot: bytes)
    requires cl.state == C.State.ClientFinished && cl.snapshot == Some(snapshot) && 100 <= room
    requires Runs(cl.ks.client, ClientHandshakeSecret(c, psk, dhe, base), 1)
    requires cl.ks.secret == DeriveSecret(c, HandshakeSecret(c, psk, dhe), Ascii("derived"), [])
    ensures C.SendFinished(c, cl, room).Ok?
    ensures var next := C.SendFinished(c, cl, room).value;
            && next.state == C.ApplicationData && next.ks.transcript == snapshot && next.log == cl.log
            && HasApplicationKeys(c, next.ks, psk, dhe, snapshot)
  {
  }

  /** The client's steps over a ServerHello and the coalesced record. */
  predicate Path(c: Crypto, env: C.Env, room: nat, first: Frame, second: Frame,
                 cl1: C.Client, cl2: C.Client, cl3: C.Client, cl4: C.Client, cl5: C.Client) {
    && WireFrame(first) && WireFrame(second)
    && C.StartHandshake(c, env, C.NEW_CLIENT, room) == Ok(cl1) && cl1.state == C.State.ServerHello
    && C.ReceiveHello(c, env, cl1, first) == Ok(cl2) && cl2.state == C.ServerVerify
    && second.header[0] == APPLICATION_DATA && C.ReceiveProtected(c, env, cl2, second) == Ok(cl3)
    && cl3.state == C.ClientCert && C.SendCertificate(env, cl3, room) == Ok(cl4)
    && cl4.state == C.State.ClientFinished && C.SendFinished(c, cl4, room) == Ok(cl5)
  }

  lemma {:induction false} PathSteps(
    c: Crypto, env: C.Env, room: nat, first: WireRecord, second: WireRecord,
    cl1: C.Client, cl2: C.Client, cl3: C.Client, cl4: C.Client, cl5: C.Client)
    requires Path(c, env, room, first, second, cl1, cl2, cl3, cl4, cl5)
    ensures var step := C.Process(c, env, room);
            && step(C.NEW_CLIENT, first) == Ok(cl1) && step(cl1, first) == Ok(cl2) && step(cl2, second) == Ok(cl3)
            && step(cl3, first) == Ok(cl4) && step(cl4, first) == Ok(cl5)
  {
    C.StartStep(c, env, room, C.NEW_CLIENT, first);
    C.HelloStep(c, env, room, cl1, first);
    C.FlightStep(c, env, room, cl2, second);
    C.CertificateStep(c, env, room, cl3, first);
    C.FinishedStep(c, env, room, cl4, first);
  }

  lemma {:induction false} ToHello(
    c: Crypto, env: C.Env, room: nat, sh: bytes, es: seq<ServerExt>, share: bytes, dhe: bytes)
    returns (cl1: C.Client, cl2: C.Client)
    requires 5 + |C.FinalHello(c, env)| <= room && |sh| < 65536 && env.read(sh) == Ok(Got(Body.Hello(es), []))
    requires C.ServerKeyShare(es) == Some(share) && env.agree(env.secret, share) == Some(dhe)
    ensures WireFrame(RecordFrame(HANDSHAKE, sh))
    ensures C.StartHandshake(c, env, C.NEW_CLIENT, room) == Ok(cl1) && cl1.state == C.State.ServerHello
    ensures C.ReceiveHello(c, env, cl1, RecordFrame(HANDSHAKE, sh)) == Ok(cl2)
    ensures Awaiting(c, cl2, C.Psk(env), dhe, C.FinalHello(c, env) + sh, C.FinalHello(c, env) + sh, 0)
  {
    Started(c, env, room);
    cl1 := C.StartHandshake(c, env, C.NEW_CLIENT, room).value;
    GotHello(c, env, cl1, sh, es, share, dhe);
    cl2 := C.ReceiveHello(c, env, cl1, RecordFrame(HANDSHAKE, sh)).value;
  }

  lemma {:induction false} PathRun(
    c: Crypto, env: C.Env, room: nat, first: WireRecord, second: WireRecord,
    cl1: C.Client, cl2: C.Client, cl3: C.Client, cl4: C.Client, cl5: C.Client)
    requires Path(c, env, room, first, second, cl1, cl2, cl3, cl4, cl5)
    ensures C.Run(C.Process(c, env, room), [first, first, second, first, first]) == Ok(cl5)
  {
    PathSteps(c, env, room, first, second, cl1, cl2, cl3, cl4, cl5);
    RunToFinished(C.Process(c, env, room), first, second, first, cl1, cl2, cl3, cl4, cl5);
  }

  /** From the ServerHello on, `base` being what is hashed by then. */
  lemma {:induction false} FromHello(
    c: Crypto, env: C.Env, parse: BodyParser, room: nat, cl2: C.Client, second: Frame, psk: bytes, dhe: bytes,
    base: bytes)
    returns (cl3: C.Client, cl4: C.Client, cl5: C.Client)
    requires env.read == Messages(parse) && env.certificate.None? && 100 <= room
    requires Awaiting(c, cl2, psk, dhe, base, base, 0)
    requires var secret := ServerHandshakeSecret(c, psk, dhe, base);
             OpensTo(c, secret, 0, second, Coalesced(c, secret, base) + [HANDSHAKE])
    ensures C.ReceiveProtected(c, env, cl2, second) == Ok(cl3) && cl3.state == C.ClientCert
    ensures C.SendCertificate(env, cl3, room) == Ok(cl4) && cl4.state == C.State.ClientFinished
    ensures C.SendFinished(c, cl4, room) == Ok(cl5) && cl5.state == C.ApplicationData
    ensures cl5.log.certPath && Trailing(cl5, base)
    ensures cl5.ks.transcript == Through(c, ServerHandshakeSecret(c, psk, dhe, base), base)
    ensures HasApplicationKeys(c, cl5.ks, psk, dhe, cl5.ks.transcript)
  {
    GotCoalesced(c, env, parse, cl2, second, psk, dhe, base);
    cl3 := C.ReceiveProtected(c, env, cl2, second).value;
    SentEmptyCertificate(env, cl3, room);
    cl4 := C.SendCertificate(env, cl3, room).value;
    SentFinishedOver(c, cl4, room, psk, dhe, base, cl3.ks.transcript);
    cl5 := C.SendFinished(c, cl4, room).value;
  }

  /**
   * Whatever client without a certificate, and whatever share it can agree on: a server that sends
   * CertificateRequest, Finished and one more message in one record leaves it with application keys that
   * cover that message too.
   */
  lemma {:induction false} TrailingCovered(
    c: Crypto, env: C.Env, parse: BodyParser, room: nat, dhe: bytes, sh: bytes, es: seq<ServerExt>, share: bytes)
    returns (first: WireRecord, second: WireRecord, cl: C.Client)
    requires env.read == Messages(parse) && env.certificate.None?
    requires |sh| < 65536 && Messages(parse)(sh) == Ok(Got(Body.Hello(es), []))
    requires C.ServerKeyShare(es) == Some(share) && env.agree(env.secret, share) == Some(dhe)
    requires 5 + |C.FinalHello(c, env)| <= room && 100 <= room
    ensures C.Run(C.Process(c, env, room), [first, first, second, first, first]) == Ok(cl)
    ensures var base := C.FinalHello(c, env) + sh;
            && cl.state == C.ApplicationData && cl.log.certPath && Trailing(cl, base)
            && cl.ks.transcript == Through(c, ServerHandshakeSecret(c, C.Psk(env), dhe, base), base)
            && HasApplicationKeys(c, cl.ks, C.Psk(env), dhe, cl.ks.transcript)
  {
    var base := C.FinalHello(c, env) + sh;
    var secret := ServerHandshakeSecret(c, C.Psk(env), dhe, base);
    second := RfcRecordIsFrame(c, secret, 0, Coalesced(c, secret, base) + [22]);
    var cl1, cl2 := ToHello(c, env, room, sh, es, share, dhe);
    first := RecordFrame(HANDSHAKE, sh);
    var cl3, cl4, cl5 := FromHello(c, env, parse, room, cl2, second, C.Psk(env), dhe, base);
    PathRun(c, env, room, first, second, cl1, cl2, cl3, cl4, cl5);
    cl := cl5;
  }

  // --- A client and a server message of which all this is true ---

  const EXAMPLE: C.Env :=
    C.Env(Settings(None, None, None, [], [], None), Zeros(32), AES_128_GCM_SHA256, [], Zeros(P256_LEN),
          Messages((kind, s) => Err(Unimplemented)),
          (secret, share) => if |share| == P256_LEN then Some(Zeros(32)) else None,
          (a, b) => None, a => None, None, a => Err(Unimplemented))

  lemma {:induction false} ExampleHello(parse: BodyParser) returns (sh: bytes, es: seq<ServerExt>)
    ensures |sh| < 65536 && Messages(parse)(sh) == Ok(Got(Body.Hello(es), []))
    ensures C.ServerKeyShare(es) == Some(Zeros(P256_LEN))
  {
    es := [ServerShare(Share(SECP256R1, Zeros(P256_LEN)))];
    assert RawServerExts(es) == [EncodeServerExt(es[0])];
    assert EncodeAll(EncodeRaw, RawServerExts(es)) == EncodeRaw(EncodeServerExt(es[0]));
    sh := HelloMessage(Zeros(32), [], AES_128_GCM_SHA256, es);
    FlightMessagesRead(parse, Zeros(32), [], AES_128_GCM_SHA256, es, Zeros(HASH_LEN));
  }

  /** What such a run leaves the client with. */
  lemma {:induction false} TrailingLeft(
    c: Crypto, env: C.Env, room: nat, records: seq<WireRecord>, cl: C.Client, base: bytes)
    requires C.Run(C.Process(c, env, room), records) == Ok(cl) && cl.state == C.ApplicationData
    requires cl.log.certPath && Trailing(cl, base)
    ensures cl.log.trailing > 0
    ensures cl.log.finishedAt.Some? && cl.log.finishedAt.value + FINISHED_LEN < |cl.ks.transcript|
    ensures Runs(cl.ks.client, ClientApplicationSecret(c, C.Psk(env), cl.log.dhe, cl.ks.transcript), 0)
  {
    ClientRuns.ApplicationDataOnlyAfterVerification(c, env, room, records);
  }

  lemma {:induction false} TrailingReached(c: Crypto) returns (room: nat, records: seq<WireRecord>, cl: C.Client)
    ensures C.Run(C.Process(c, EXAMPLE, room), records) == Ok(cl)
    ensures cl.state == C.ApplicationData && cl.log.certPath && cl.log.trailing > 0
    ensures cl.log.finishedAt.Some? && cl.log.finishedAt.value + FINISHED_LEN < |cl.ks.transcript|
    ensures Runs(cl.ks.client, ClientApplicationSecret(c, C.Psk(EXAMPLE), cl.log.dhe, cl.ks.transcript), 0)
  {
    var parse: BodyParser := (kind, s) => Err(Unimplemented);
    var sh, es := ExampleHello(parse);
    room := 100 + |C.FinalHello(c, EXAMPLE)|;
    var first, second;
    first, second, cl := TrailingCovered(c, EXAMPLE, parse, room, Zeros(32), sh, es, Zeros(P256_LEN));
    records := [first, first, second, first, first];
    TrailingLeft(c, EXAMPLE, room, records, cl, C.FinalHello(c, EXAMPLE) + sh);
  }
}
