/**
 * The ClientHellos of the repository's self-loop tests, for every PSK, identity, random,
 * session id and share: with a share the handshake completes at once, without one it
 * completes through a HelloRetryRequest.
 */
module SelfLoops {
  import opened Basics
  import opened Crypto
  import opened KeySchedules
  import opened Rfc8446
  import opened ParseBuffers
  import opened PreSharedKeys
  import opened Extensions
  import opened ClientHellos
  import opened ClientBinders
  import opened ServerHellos
  import opened ServerSpec
  import opened RetryRuns
  import opened ServerKeys
  import opened HonestClient
  import opened Flights
  import opened Agreement

  const TLS13_ONLY: Raw := Raw(SUPPORTED_VERSIONS, [2, 3, 4])
  const X25519_GROUP: Raw := Raw(SUPPORTED_GROUPS, [0, 2, 0, 29])
  const DHE_ONLY: Raw := Raw(PSK_MODES, [1, 1])

  function SharesRaw(shares: seq<Share>): Raw { Raw(KEY_SHARE, Prefixed(EncodeAll(EncodeShare, shares))) }

  function WithShare(share: bytes): seq<Raw> { [TLS13_ONLY, DHE_ONLY, SharesRaw([Share(X25519, share)])] }

  function WithoutShare(): seq<Raw> { [TLS13_ONLY, X25519_GROUP, DHE_ONLY, SharesRaw([])] }

  lemma {:induction false} FixedExts()
    ensures ClientBody(TLS13_ONLY.kind, TLS13_ONLY.data) == Ok(SupportedVersions([TLS13]))
    ensures ClientBody(X25519_GROUP.kind, X25519_GROUP.data) == Ok(SupportedGroups([X25519]))
    ensures ClientBody(DHE_ONLY.kind, DHE_ONLY.data) == Ok(PskModes([1]))
    ensures ClientBody(KEY_SHARE, SharesRaw([]).data) == Ok(KeyShare([]))
  {
    OneVersion();
    OneGroup();
    OneMode();
    KeySharesRoundTrip([]);
  }

  lemma {:induction false} OneVersion()
    ensures U8List(GetU16, 1, TLS13_ONLY.data) == Ok([TLS13])
  {
    var v: bytes := [3, 4];
    assert TLS13_ONLY.data[1..3] == v && v[2..] == [];
    OneOf(GetU16, 1, v, TLS13);
  }

  lemma {:induction false} OneGroup()
    ensures U16List(GetGroup, 13, X25519_GROUP.data) == Ok([X25519])
  {
    var g: bytes := [0, 29];
    assert X25519_GROUP.data[2..4] == g && g[2..] == [];
    OneOf(GetGroup, 13, g, X25519);
  }

  lemma {:induction false} OneMode()
    ensures U8List(GetMode, 4, DHE_ONLY.data) == Ok([1])
  {
    var m: bytes := [1];
    assert DHE_ONLY.data[1..2] == m && m[1..] == [];
    OneOf(GetMode, 4, m, 1);
  }

  lemma {:induction false} ShareExt(share: bytes)
    requires |share| == X25519_LEN
    ensures var raw := SharesRaw([Share(X25519, share)]);
            && ClientBody(KEY_SHARE, raw.data) == Ok(KeyShare([Share(X25519, share)]))
            && |raw.data| == 38
  {
    var shares := [Share(X25519, share)];
    assert shares[1..] == [];
    assert EncodeAll(EncodeShare, shares) == EncodeShare(shares[0]);
    KeySharesRoundTrip(shares);
  }

  function Sizes(xs: seq<Raw>): nat { if xs == [] then 0 else 4 + |xs[0].data| + Sizes(xs[1..]) }

  lemma {:induction false} SizesAreLengths(xs: seq<Raw>)
    ensures |EncodeAll(EncodeRaw, xs)| == Sizes(xs)
  {
    if xs != [] {
      SizesAreLengths(xs[1..]);
    }
  }

  function ShareExts(share: bytes): seq<ClientExt> {
    [SupportedVersions([TLS13]), PskModes([1]), KeyShare([Share(X25519, share)])]
  }

  const RETRY_EXTS: seq<ClientExt> :=
    [SupportedVersions([TLS13]), SupportedGroups([X25519]), PskModes([1]), KeyShare([])]

  /** Extensions an offer can carry, and how they are read. */
  predicate Readable(xs: seq<Raw>, es: seq<ClientExt>) {
    && ReadsAs(ClientBody, xs, es) && |xs| < MAX_EXTENSIONS && Sizes(xs) < 100
    && (forall i :: 0 <= i < |xs| ==> WireRaw(xs[i]))
    && forall i :: 0 <= i < |es| ==> !es[i].PreSharedKey?
  }

  lemma {:induction false} ShareRead(share: bytes)
    requires |share| == X25519_LEN
    ensures Readable(WithShare(share), ShareExts(share))
  {
    FixedExts();
    ShareExt(share);
    var xs := WithShare(share);
    assert Sizes(xs[1..][1..]) == 4 + |xs[2].data|;
  }

  lemma {:induction false} NoShareRead()
    ensures Readable(WithoutShare(), RETRY_EXTS)
  {
    FixedExts();
    var xs := WithoutShare();
    assert Sizes(xs[1..][1..][1..]) == 4 + |xs[3].data|;
  }

  /** What the loop asks of the caller: fields with our suite, an identity that fits, a key pair. */
  predicate Loopable(f: Fields, cfg: ServerConfig) {
    WireFields(f) && OffersSuite(f.suites) && 1 <= |cfg.identity| < 65000 && cfg.dhe.Some?
  }

  lemma {:induction false} CanOfferOne(f: Fields, xs: seq<Raw>, es: seq<ClientExt>, id: bytes)
    requires WireFields(f) && 1 <= |id| < 65000 && Readable(xs, es)
    ensures CanOffer(f, xs, [id]) && Collect(ClientBody, MAX_EXTENSIONS, xs) == Ok(es)
  {
    CollectAll(ClientBody, MAX_EXTENSIONS, xs, es);
    SizesAreLengths(xs);
    assert [id][1..] == [];
    assert EncodeAll(EncodeIdentity, [id]) == EncodeIdentity(id);
  }

  // --- What the server makes of the two offers ---

  function OfferedOne(es: seq<ClientExt>, p: OfferedPsks): seq<ClientExt> { es + [PreSharedKey(p)] }

  lemma {:induction false} ShareSuits(s: Session, f: Fields, share: bytes, p: OfferedPsks, cfg: ServerConfig)
    requires Loopable(f, cfg) && |share| == X25519_LEN && CheckUnchanged(f, s.retry).None?
    ensures Suits(s, f, OfferedOne(ShareExts(share), p), [cfg.identity], cfg, PskDheKe(share))
  {
    var exts := OfferedOne(ShareExts(share), p);
    assert exts[1..][0] == PskModes([1]) && exts[1..][1..][0] == KeyShare([Share(X25519, share)]);
    assert TLS13 in exts[0].versions;
  }

  lemma {:induction false} NoShareRetries(p: OfferedPsks)
    ensures var exts := OfferedOne(RETRY_EXTS, p);
            CheckVersions(exts).None? && DecideKex(exts, true, false) == Ok(Retry)
  {
    var exts := OfferedOne(RETRY_EXTS, p);
    assert exts[1..][0] == SupportedGroups([X25519]) && exts[1..][1..][0] == PskModes([1]);
    assert exts[1..][1..][1..][0] == KeyShare([]);
    assert TLS13 in exts[0].versions && X25519 in exts[1].groups;
  }

  lemma {:induction false} HonestOne(
    c: Crypto, s: Session, psk: bytes, f: Fields, xs: seq<Raw>, es: seq<ClientExt>, cfg: ServerConfig, kex: Kex)
    requires Loopable(f, cfg) && Readable(xs, es) && HasEarlySecret(c, BinderSchedule(c, s, cfg), psk)
    requires forall p :: Suits(s, f, OfferedOne(es, p), [cfg.identity], cfg, kex)
    ensures Honest(c, s, psk, f, xs, [cfg.identity], cfg, kex)
  {
    var ids := [cfg.identity];
    CanOfferOne(f, xs, es, cfg.identity);
    var binder := HonestBinder(c, s, psk, f, xs, ids);
    assert OfferExts(xs, ids, binder) == OfferedOne(es, Psks(ids, Repeat(binder, 1), HASH_LEN));
  }

  lemma {:induction false} ShareHonest(c: Crypto, s: Session, psk: bytes, f: Fields, share: bytes, cfg: ServerConfig)
    requires Loopable(f, cfg) && |share| == X25519_LEN && CheckUnchanged(f, s.retry).None?
    requires HasEarlySecret(c, BinderSchedule(c, s, cfg), psk)
    ensures Honest(c, s, psk, f, WithShare(share), [cfg.identity], cfg, PskDheKe(share))
  {
    ShareRead(share);
    forall p ensures Suits(s, f, OfferedOne(ShareExts(share), p), [cfg.identity], cfg, PskDheKe(share)) {
      ShareSuits(s, f, share, p, cfg);
    }
    HonestOne(c, s, psk, f, WithShare(share), ShareExts(share), cfg, PskDheKe(share));
  }

  // --- The loops ---

  /**
   * The outcome is the flight of section 7.1, and the Finished of a client that derives
   * its keys from the same messages completes the handshake.
   */
  predicate Finishes(c: Crypto, o: Outcome, psk: bytes, dhe: bytes, hello: bytes, sh: bytes) {
    && o.reply == Ok(FirstFlight(RfcFlight(c, psk, dhe, hello, sh)))
    && var client := Keyed(ClientHandshakeSecret(c, psk, dhe, hello + sh));
       var record := OwnFinished(c, client, ThroughServerFinished(c, psk, dhe, hello, sh));
       var done := ProcessFinished(c, o.session, record);
       done.reply == Ok(Complete) && Completed(c, done.session.ks, psk, dhe, hello, sh)
  }

  lemma {:induction false} FlightFinishes(c: Crypto, o: Outcome, psk: bytes, dhe: bytes, hello: bytes, sh: bytes)
    requires o.reply == Ok(FirstFlight(RfcFlight(c, psk, dhe, hello, sh)))
    requires HasHandshakeKeys(c, o.session.ks, psk, dhe, hello, sh)
    ensures Finishes(c, o, psk, dhe, hello, sh)
  {
    ServerCompletes(c, o.session, psk, dhe, hello, sh);
  }

  /** Whatever honest offer is answered, the handshake can be finished. */
  lemma {:induction false} OfferFinishes(
    c: Crypto, s: Session, psk: bytes, f: Fields, xs: seq<Raw>, ids: seq<bytes>, cfg: ServerConfig, cap: nat, kex: Kex)
    requires Honest(c, s, psk, f, xs, ids, cfg, kex)
    requires kex.PskDheKe? ==> Ikm(c, cfg, kex) != Zeros(X25519_LEN)
    requires RecordsFit(HonestReply(cfg, f, ids, kex), cap)
    ensures var m := HonestHello(c, s, psk, f, xs, ids);
            Finishes(c, ProcessHello(c, s, m, cfg, cap), psk, Ikm(c, cfg, kex),
                     BinderSchedule(c, s, cfg).transcript + m, HonestReply(cfg, f, ids, kex))
  {
    var m := HonestHello(c, s, psk, f, xs, ids);
    HonestHelloAnswered(c, s, psk, f, xs, ids, cfg, cap, kex);
    OfferAdmitted(s, f, xs, ids, HonestBinder(c, s, psk, f, xs, ids), cfg, kex);
    FlightAnswers(c, s, m, cfg, cap, psk);
    FlightFinishes(c, ProcessHello(c, s, m, cfg, cap), psk, Ikm(c, cfg, kex), BinderSchedule(c, s, cfg).transcript + m,
                   HonestReply(cfg, f, ids, kex));
  }

  /** Room for the longest flight to one identity, which is more than a HelloRetryRequest takes. */
  const FLIGHT_ROOM: nat := 219

  lemma {:induction false} LoopFits(f: Fields, cfg: ServerConfig, share: bytes)
    requires Loopable(f, cfg) && |cfg.random| == 32 && |cfg.dhe.value.public| == X25519_LEN
    ensures RecordsFit(HonestReply(cfg, f, [cfg.identity], PskDheKe(share)), FLIGHT_ROOM)
    ensures |Record(HANDSHAKE, RetryMessage(f.sessionId, X25519))| <= FLIGHT_ROOM
  {
    FlightHelloSize(cfg.random, f.sessionId, Some(cfg.dhe.value.public), 0);
  }

  function LoopReply(cfg: ServerConfig, f: Fields): bytes
    requires cfg.dhe.Some?
  {
    FlightHello(cfg.random, f.sessionId, Some(cfg.dhe.value.public), 0)
  }

  /** A key pair and a share that give a shared secret, and room for the flight. */
  predicate CanAgree(c: Crypto, cfg: ServerConfig, share: bytes, cap: nat) {
    && cfg.dhe.Some? && |cfg.random| == 32 && |cfg.dhe.value.public| == X25519_LEN == |share| && FLIGHT_ROOM <= cap
    && c.x25519(cfg.dhe.value.secret, share) != Zeros(X25519_LEN)
  }

  lemma {:induction false} ShareFinishes(
    c: Crypto, s: Session, psk: bytes, f: Fields, share: bytes, cfg: ServerConfig, cap: nat, before: bytes)
    requires Loopable(f, cfg) && CanAgree(c, cfg, share, cap) && CheckUnchanged(f, s.retry).None?
    requires HasEarlySecret(c, BinderSchedule(c, s, cfg), psk) && BinderSchedule(c, s, cfg).transcript == before
    ensures var m := HonestHello(c, s, psk, f, WithShare(share), [cfg.identity]);
            Finishes(c, ProcessHello(c, s, m, cfg, cap), psk, c.x25519(cfg.dhe.value.secret, share), before + m,
                     LoopReply(cfg, f))
  {
    ShareHonest(c, s, psk, f, share, cfg);
    LoopFits(f, cfg, share);
    OfferFinishes(c, s, psk, f, WithShare(share), [cfg.identity], cfg, cap, PskDheKe(share));
  }

  /** With a share: one ClientHello, one flight, one Finished. */
  lemma {:induction false} DirectLoop(c: Crypto, f: Fields, share: bytes, cfg: ServerConfig, cap: nat)
    requires Loopable(f, cfg) && CanAgree(c, cfg, share, cap)
    ensures var m := HonestHello(c, NEW_SESSION, cfg.psk, f, WithShare(share), [cfg.identity]);
            Finishes(c, ProcessHello(c, NEW_SESSION, m, cfg, cap), cfg.psk, c.x25519(cfg.dhe.value.secret, share), m,
                     LoopReply(cfg, f))
  {
    FirstHelloHasEarlySecret(c, cfg);
    ShareFinishes(c, NEW_SESSION, cfg.psk, f, share, cfg, cap, []);
    var m := HonestHello(c, NEW_SESSION, cfg.psk, f, WithShare(share), [cfg.identity]);
    assert [] + m == m;
  }

  lemma {:induction false} OfferRetried(
    c: Crypto, f: Fields, xs: seq<Raw>, es: seq<ClientExt>, cfg: ServerConfig, cap: nat)
    requires Loopable(f, cfg) && Readable(xs, es) && |Record(HANDSHAKE, RetryMessage(f.sessionId, X25519))| <= cap
    requires forall p ::
      CheckVersions(OfferedOne(es, p)).None? && DecideKex(OfferedOne(es, p), true, false) == Ok(Retry)
    ensures var m := HonestHello(c, NEW_SESSION, cfg.psk, f, xs, [cfg.identity]);
            && SentRetry(ProcessHello(c, NEW_SESSION, m, cfg, cap))
            && Admit(NEW_SESSION, m, cfg).Ok? && Admit(NEW_SESSION, m, cfg).value.hello.fields == f
  {
    var ids := [cfg.identity];
    CanOfferOne(f, xs, es, cfg.identity);
    var binder := HonestBinder(c, NEW_SESSION, cfg.psk, f, xs, ids);
    assert OfferExts(xs, ids, binder) == OfferedOne(es, Psks(ids, Repeat(binder, 1), HASH_LEN));
    OfferParses(f, xs, ids, binder);
    OfferLocated(xs, ids, binder, cfg.identity);
    HonestBinderMatches(c, NEW_SESSION, cfg.psk, f, xs, ids);
    FirstHelloHasEarlySecret(c, cfg);
  }

  /** The session after a ClientHello without a share: one retry, and CH1's fields pinned. */
  lemma {:induction false} FirstRetry(c: Crypto, f: Fields, cfg: ServerConfig, cap: nat)
    requires Loopable(f, cfg) && |Record(HANDSHAKE, RetryMessage(f.sessionId, X25519))| <= cap
    ensures var m := HonestHello(c, NEW_SESSION, cfg.psk, f, WithoutShare(), [cfg.identity]);
            var o := ProcessHello(c, NEW_SESSION, m, cfg, cap);
            && SentRetry(o) && o.session.retry == Some(Snapshot(f.random, f.sessionId))
            && HasEarlySecret(c, o.session.ks, cfg.psk)
            && o.session.ks.transcript == RetryTranscript(c, m, RetryMessage(f.sessionId, X25519))
  {
    NoShareRead();
    forall p
      ensures CheckVersions(OfferedOne(RETRY_EXTS, p)).None?
              && DecideKex(OfferedOne(RETRY_EXTS, p), true, false) == Ok(Retry)
    {
      NoShareRetries(p);
    }
    OfferRetried(c, f, WithoutShare(), RETRY_EXTS, cfg, cap);
    RetryLeaves(c, HonestHello(c, NEW_SESSION, cfg.psk, f, WithoutShare(), [cfg.identity]), cfg, cap);
  }

  /** The second ClientHello, after any number of rejected ones. */
  lemma {:induction false} SecondFinishes(
    c: Crypto, s: Session, f: Fields, share: bytes, cfg: ServerConfig, cap: nat, before: bytes, rejected: seq<Call>)
    requires Loopable(f, cfg) && CanAgree(c, cfg, share, cap)
    requires s.retry == Some(Snapshot(f.random, f.sessionId))
    requires HasEarlySecret(c, s.ks, cfg.psk) && s.ks.transcript == before
    requires forall i :: 0 <= i < |rejected| ==> Rejected(c, s, rejected[i])
    ensures var m := HonestHello(c, s, cfg.psk, f, WithShare(share), [cfg.identity]);
            Finishes(c, ProcessHello(c, After(Server(c), s, rejected), m, cfg, cap), cfg.psk,
                     c.x25519(cfg.dhe.value.secret, share), before + m, LoopReply(cfg, f))
  {
    RejectionsKeepSession(c, s, rejected);
    ShareFinishes(c, s, cfg.psk, f, share, cfg, cap, before);
  }

  /**
   * Without a share: the server asks for one, and after any number of rejected attempts the
   * second ClientHello gets the flight and the handshake finishes.
   */
  lemma {:induction false} RetryLoop(
    c: Crypto, f: Fields, share: bytes, cfg: ServerConfig, cap: nat, m1: bytes, s1: Session, rejected: seq<Call>)
    requires Loopable(f, cfg) && CanAgree(c, cfg, share, cap)
    requires m1 == HonestHello(c, NEW_SESSION, cfg.psk, f, WithoutShare(), [cfg.identity])
    requires s1 == ProcessHello(c, NEW_SESSION, m1, cfg, cap).session
    requires forall i :: 0 <= i < |rejected| ==> Rejected(c, s1, rejected[i])
    ensures SentRetry(ProcessHello(c, NEW_SESSION, m1, cfg, cap))
    ensures var m2 := HonestHello(c, s1, cfg.psk, f, WithShare(share), [cfg.identity]);
            Finishes(c, ProcessHello(c, After(Server(c), s1, rejected), m2, cfg, cap), cfg.psk,
                     c.x25519(cfg.dhe.value.secret, share),
                     RetryTranscript(c, m1, RetryMessage(f.sessionId, X25519)) + m2, LoopReply(cfg, f))
  {
    LoopFits(f, cfg, share);
    FirstRetry(c, f, cfg, cap);
    SecondFinishes(c, s1, f, share, cfg, cap, RetryTranscript(c, m1, RetryMessage(f.sessionId, X25519)), rejected);
  }
}
