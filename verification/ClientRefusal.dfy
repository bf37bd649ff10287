/** What this client makes of this server's answers: it refuses every one of them. */
module ClientRefusals {
  import opened Basics
  import opened Crypto
  import opened ParseBuffers
  import opened PreSharedKeys
  import opened Extensions
  import opened ServerHellos
  import opened ServerSpec
  import opened Framing
  import opened ServerMessages
  import opened ServerKeys
  import opened Flights
  import C = ClientSpec

  /** A ServerHello message is read by its body. */
  lemma {:induction false} HelloRead(parse: BodyParser, body: bytes)
    ensures Messages(parse)(Message(SERVER_HELLO, body))
         == match GetServerHello(body) case Err(e) => Err(e) case Ok(g) => Ok(Got(Body.Hello(g.v), g.rest))
  {
    assert Message(SERVER_HELLO, body)[4..] == body;
  }

  /** The share of a flight is 32 bytes, if there is one. */
  lemma {:induction false} FlightShare(share: Option<bytes>, index: nat)
    ensures C.ServerKeyShare(FlightExts(share, index)) == share
  {
    var exts := FlightExts(share, index);
    assert exts[1..][0] == if share.Some? then ServerShare(Share(X25519, share.value)) else SelectedIdentity(index);
    if share.None? {
      assert exts[1..][1..] == [] && C.ServerKeyShare(exts[1..][1..]) == None;
      assert C.ServerKeyShare(exts[1..]) == None;
    }
  }

  lemma {:induction false} HelloWithoutPoint(c: Crypto, env: C.Env, cl: C.Client, sh: bytes, exts: seq<ServerExt>)
    requires cl.secret.Some? && env.read(sh) == Ok(Got(Body.Hello(exts), [])) && |sh| < 65536
    requires C.ServerKeyShare(exts).Some? ==> |C.ServerKeyShare(exts).value| == X25519_LEN
    ensures WireFrame(RecordFrame(HANDSHAKE, sh))
    ensures C.ReceiveHello(c, env, cl, RecordFrame(HANDSHAKE, sh)) == Err(InvalidKeyShare)
  {
    RecordIsFrame(HANDSHAKE, sh);
  }

  /**
   * A flight of this server, on whatever session and for whatever ClientHello, ends the client with
   * InvalidKeyShare.
   */
  lemma {:induction false} FlightRefused(
    c: Crypto, s: Session, m: bytes, cfg: ServerConfig, cap: nat, env: C.Env, parse: BodyParser, cl: C.Client)
    requires SentFlight(ProcessHello(c, s, m, cfg, cap)) && env.read == Messages(parse) && cl.secret.Some?
    ensures var fs := Frames(ProcessHello(c, s, m, cfg, cap).reply.value.bytes).v;
            fs != [] && WireFrame(fs[0]) && C.ReceiveHello(c, env, cl, fs[0]) == Err(InvalidKeyShare)
  {
    var first, second, third := FlightIsThreeRecords(c, s, m, cfg, cap);
    var a := Admit(s, m, cfg).value;
    var share, sid := ShareOf(cfg, a.decision.kex), a.hello.fields.sessionId;
    FlightHelloSize(cfg.random, sid, share, a.index);
    FlightShare(share, a.index);
    HelloRead(parse, ServerHelloBody(cfg.random, sid, AES_128_GCM_SHA256, FlightExts(share, a.index)));
    assert HelloSent(cfg, a)[4..] == ServerHelloBody(cfg.random, sid, AES_128_GCM_SHA256, FlightExts(share, a.index));
    HelloWithoutPoint(c, env, cl, HelloSent(cfg, a), FlightExts(share, a.index));
  }

  // --- HelloRetryRequest ---

  /** The group of a retry is not a share, and the client's parser takes it for one. */
  lemma {:induction false} RetryExtensions()
    ensures var xs := [Raw(SUPPORTED_VERSIONS, U16(TLS13)), Raw(KEY_SHARE, U16(X25519))];
            GetVector(ServerBody, MAX_SERVER_EXTENSIONS, Prefixed(EncodeRaw(xs[0]) + EncodeRaw(xs[1])))
            == Err(DecodeError)
  {
    var xs := [Raw(SUPPORTED_VERSIONS, U16(TLS13)), Raw(KEY_SHARE, U16(X25519))];
    U16Read(TLS13);
    var es := [SelectedVersion(TLS13), ServerCookie];
    CollectMixed(ServerBody, MAX_SERVER_EXTENSIONS, xs, es, [true, false]);
    assert xs[1..] == [xs[1]] && EncodeAll(EncodeRaw, xs[1..]) == EncodeRaw(xs[1]) + EncodeAll(EncodeRaw, []);
    assert EncodeAll(EncodeRaw, xs) == EncodeRaw(xs[0]) + EncodeRaw(xs[1]);
    VectorOfEncoded(ServerBody, MAX_SERVER_EXTENSIONS, xs);
  }

  lemma {:induction false} RetryUnread(parse: BodyParser, sid: bytes)
    requires |sid| <= 32
    ensures Messages(parse)(RetryMessage(sid, X25519)) == Err(DecodeError)
  {
    var list := EncodeRaw(Raw(SUPPORTED_VERSIONS, U16(TLS13))) + EncodeRaw(Raw(KEY_SHARE, U16(X25519)));
    RetryExtensions();
    BodyLayout(HRR_RANDOM, sid, AES_128_GCM_SHA256, Prefixed(list));
    HelloRead(parse, ServerFields(HRR_RANDOM, sid, AES_128_GCM_SHA256) + Prefixed(list));
  }

  lemma {:induction false} RetrySent(c: Crypto, s: Session, m: bytes, cfg: ServerConfig, cap: nat) returns (sid: bytes)
    requires SentRetry(ProcessHello(c, s, m, cfg, cap))
    ensures |sid| <= 32
    ensures ProcessHello(c, s, m, cfg, cap).reply.value.bytes == Record(HANDSHAKE, RetryMessage(sid, X25519))
  {
    sid := Admit(s, m, cfg).value.hello.fields.sessionId;
  }

  lemma {:induction false} OneFrame(body: bytes)
    requires |body| < 65536
    ensures WireFrame(RecordFrame(HANDSHAKE, body))
            && Frames(Record(HANDSHAKE, body)).v == [RecordFrame(HANDSHAKE, body)]
  {
    var f := RecordFrame(HANDSHAKE, body);
    RecordIsFrame(HANDSHAKE, body);
    assert [f][1..] == []
           && EncodeAll(EncodeFrame, [f]) == EncodeFrame(f) + EncodeAll(EncodeFrame, []) == EncodeFrame(f);
    FramesOfEncoded([f]);
  }

  /** A HelloRetryRequest of this server ends the client with a decode error. */
  lemma {:induction false} RetryRefused(
    c: Crypto, s: Session, m: bytes, cfg: ServerConfig, cap: nat, env: C.Env, parse: BodyParser, cl: C.Client)
    requires SentRetry(ProcessHello(c, s, m, cfg, cap)) && env.read == Messages(parse)
    ensures var fs := Frames(ProcessHello(c, s, m, cfg, cap).reply.value.bytes).v;
            fs != [] && WireFrame(fs[0]) && C.ReceiveHello(c, env, cl, fs[0]) == Err(DecodeError)
  {
    var sid := RetrySent(c, s, m, cfg, cap);
    RetryUnread(parse, sid);
    OneFrame(RetryMessage(sid, X25519));
  }

  /**
   * This client and this server never complete a handshake together: whatever session answers whatever
   * ClientHello, the first record of the answer ends a client that waits for a ServerHello.
   */
  lemma {:induction false} EveryAnswerRefused(
    c: Crypto, s: Session, m: bytes, cfg: ServerConfig, cap: nat, env: C.Env, parse: BodyParser, cl: C.Client)
    requires ProcessHello(c, s, m, cfg, cap).reply.Ok? && env.read == Messages(parse) && cl.secret.Some?
    ensures var o := ProcessHello(c, s, m, cfg, cap);
            && (SentFlight(o) || SentRetry(o))
            && var fs := Frames(o.reply.value.bytes).v;
               && fs != [] && WireFrame(fs[0])
               && C.ReceiveHello(c, env, cl, fs[0]) == Err(if SentFlight(o) then InvalidKeyShare else DecodeError)
  {
    HelloReplies(c, s, m, cfg, cap);
    if SentFlight(ProcessHello(c, s, m, cfg, cap)) {
      FlightRefused(c, s, m, cfg, cap, env, parse, cl);
    } else {
      RetryRefused(c, s, m, cfg, cap, env, parse, cl);
    }
  }
}
