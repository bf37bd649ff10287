/** ServerHello and HelloRetryRequest on the wire (server_hello.rs, server.rs:832-1015). */
module ServerHellos {
  import opened Basics
  import opened ParseBuffers
  import opened PreSharedKeys
  import opened Extensions

  const MAX_SERVER_EXTENSIONS: nat := 4
  const LEGACY_VERSION: nat := 0x0303
  const AES_128_GCM_SHA256: nat := 0x1301

  /** SHA-256 of "HelloRetryRequest": the random that marks a retry. */
  const HRR_RANDOM: bytes := [
    0xCF, 0x21, 0xAD, 0x74, 0xE5, 0x9A, 0x61, 0x11, 0xBE, 0x1D, 0x8C, 0x02, 0x1E, 0x65, 0xB8, 0x91,
    0xC2, 0xA2, 0x11, 0x16, 0x7A, 0xBB, 0x8C, 0x5E, 0x07, 0x9E, 0x09, 0xE2, 0xC8, 0xA8, 0x33, 0x9C]

  predicate KnownSuite(n: nat) { 0x1301 <= n <= 0x1305 || n == 0x00A8 }

  /** `ServerHello::parse`: the fixed fields are read and dropped, the extensions kept. */
  function GetServerHello(s: bytes): (r: Result<Got<seq<ServerExt>>, TlsError>) {
    if |s| < 2 then Err(InvalidHandshake)
    else if |s| < 34 then Err(ParseFailure(InsufficientBytes))
    else if |s| < 35 || |s| < 35 + s[34] as int then Err(InvalidSessionIdLength)
    else
      var p := 35 + s[34] as int;
      if |s| < p + 2 || !KnownSuite(FromU16(s[p], s[p + 1])) then Err(InvalidCipherSuite)
      else if |s| < p + 3 then Err(ParseFailure(InsufficientBytes))
      else GetVector(ServerBody, MAX_SERVER_EXTENSIONS, s[p + 3..])
  }

  function EncodeShare(s: Share): bytes { U16(s.group) + U16(|s.key|) + s.key }

  predicate WireShare(s: Share) { KnownGroup(s.group) && |s.key| < 65536 }

  lemma {:induction false} ShareInverts(s: Share)
    requires WireShare(s)
    ensures Inverts(GetShare, EncodeShare, s)
  {
    forall tail: bytes ensures GetShare(EncodeShare(s) + tail) == Ok(Got(s, tail)) {
      var d, end := EncodeShare(s) + tail, 4 + |s.key|;
      U16Read(s.group);
      U16Read(|s.key|);
      assert d[..2] == U16(s.group) && d[2..4] == U16(|s.key|);
      assert d[0] == d[..2][0] && d[1] == d[..2][1] && d[2] == d[2..4][0] && d[3] == d[2..4][1];
      assert d[4..end] == s.key && d[end..] == tail;
    }
  }

  lemma {:induction false} PrefixedListRoundTrip<T(!new)>(
    read: bytes -> Result<Got<T>, ParseError>, encode: T -> bytes, xs: seq<T>, room: nat)
    requires |xs| <= room && |EncodeAll(encode, xs)| < 65536
    requires forall i :: 0 <= i < |xs| ==> Inverts(read, encode, xs[i])
    ensures U16List(read, room, Prefixed(EncodeAll(encode, xs))) == Ok(xs)
  {
    var list := EncodeAll(encode, xs);
    ListRoundTrip(read, encode, xs, room);
    U16Read(|list|);
    assert Prefixed(list)[2..2 + |list|] == list;
  }

  /** A key_share extension of up to four entries parses back to them (key_share.rs:29-92). */
  lemma {:induction false} KeySharesRoundTrip(shares: seq<Share>)
    requires |shares| <= 4 && forall i :: 0 <= i < |shares| ==> WireShare(shares[i])
    requires |EncodeAll(EncodeShare, shares)| < 65536
    ensures ClientBody(KEY_SHARE, Prefixed(EncodeAll(EncodeShare, shares))) == Ok(KeyShare(shares))
  {
    forall i | 0 <= i < |shares| ensures Inverts(GetShare, EncodeShare, shares[i]) {
      ShareInverts(shares[i]);
    }
    PrefixedListRoundTrip(GetShare, EncodeShare, shares, 4);
  }

  function EncodeServerExt(e: ServerExt): Raw {
    match e
    case SelectedVersion(v) => Raw(SUPPORTED_VERSIONS, U16(v))
    case ServerShare(s) => Raw(KEY_SHARE, EncodeShare(s))
    case SelectedIdentity(i) => Raw(PRE_SHARED_KEY, U16(i))
    case ServerCookie => Raw(COOKIE, [])
  }

  predicate WireServerExt(e: ServerExt) {
    match e
    case SelectedVersion(v) => v < 65536
    case ServerShare(s) => KnownGroup(s.group) && |s.key| < 65532
    case SelectedIdentity(i) => i < 65536
    case ServerCookie => true
  }

  function RawServerExts(es: seq<ServerExt>): (r: seq<Raw>)
    ensures |r| == |es|
  {
    if es == [] then [] else [EncodeServerExt(es[0])] + RawServerExts(es[1..])
  }

  /** Everything before the extensions. */
  function ServerFields(random: bytes, sid: bytes, suite: nat): (r: bytes)
    ensures |r| == 6 + |random| + |sid|
  {
    U16(LEGACY_VERSION) + random + [|sid| % 256] + sid + (U16(suite) + [0])
  }

  /** The body of a ServerHello (`ServerHelloEmit::encode`). */
  function ServerHelloBody(random: bytes, sid: bytes, suite: nat, es: seq<ServerExt>): bytes {
    ServerFields(random, sid, suite) + Prefixed(EncodeAll(EncodeRaw, RawServerExts(es)))
  }

  lemma {:induction false} ServerExtInverts(e: ServerExt)
    requires WireServerExt(e)
    ensures WireRaw(EncodeServerExt(e))
    ensures ServerBody(EncodeServerExt(e).kind, EncodeServerExt(e).data) == Ok(e)
  {
    match e {
      case SelectedVersion(v) => U16Read(v);
      case ServerShare(s) =>
        var d := EncodeShare(s);
        U16Read(s.group);
        U16Read(|s.key|);
        assert d[4..4 + |s.key|] == s.key && d[4 + |s.key|..] == [];
      case SelectedIdentity(i) => U16Read(i);
      case ServerCookie =>
    }
  }

  lemma {:induction false} RawServerExtAt(es: seq<ServerExt>, i: nat)
    requires i < |es|
    ensures RawServerExts(es)[i] == EncodeServerExt(es[i])
  {
    if i > 0 {
      RawServerExtAt(es[1..], i - 1);
    }
  }

  lemma {:induction false} ServerExtsCollect(es: seq<ServerExt>, room: nat)
    requires |es| <= room
    requires forall i :: 0 <= i < |es| ==> WireServerExt(es[i])
    ensures forall i :: 0 <= i < |es| ==> WireRaw(RawServerExts(es)[i])
    ensures Collect(ServerBody, room, RawServerExts(es)) == Ok(es)
  {
    var xs := RawServerExts(es);
    forall i | 0 <= i < |es| ensures WireRaw(xs[i]) && ServerBody(xs[i].kind, xs[i].data) == Ok(es[i]) {
      RawServerExtAt(es, i);
      ServerExtInverts(es[i]);
    }
    CollectAll(ServerBody, room, xs, es);
  }

  lemma {:induction false} BodyLayout(random: bytes, sid: bytes, suite: nat, rest: bytes)
    requires |random| == 32 && |sid| < 256 && suite < 65536
    ensures var s := ServerFields(random, sid, suite) + rest;
            var p := 35 + |sid|;
            && |s| == p + 3 + |rest| && s[34] == |sid| && FromU16(s[p], s[p + 1]) == suite && s[p + 3..] == rest
  {
    U16Read(suite);
    var s := ServerFields(random, sid, suite) + rest;
    var p := 35 + |sid|;
    assert s[p..p + 2] == U16(suite);
  }

  /** A ServerHello the server encodes parses back to the extensions it put in. */
  lemma {:induction false} ServerHelloRoundTrip(random: bytes, sid: bytes, suite: nat, es: seq<ServerExt>)
    requires |random| == 32 && |sid| <= 32 && KnownSuite(suite)
    requires |es| <= MAX_SERVER_EXTENSIONS && forall i :: 0 <= i < |es| ==> WireServerExt(es[i])
    requires |EncodeAll(EncodeRaw, RawServerExts(es))| < 65536
    ensures GetServerHello(ServerHelloBody(random, sid, suite, es)) == Ok(Got(es, []))
  {
    var xs := RawServerExts(es);
    ServerExtsCollect(es, MAX_SERVER_EXTENSIONS);
    VectorOfEncoded(ServerBody, MAX_SERVER_EXTENSIONS, xs);
    BodyLayout(random, sid, suite, Prefixed(EncodeAll(EncodeRaw, xs)));
  }

  // --- The messages this server sends ---

  /** The extensions of a first flight: TLS 1.3, the key share exactly in DHE mode, the chosen identity. */
  function FlightExts(share: Option<bytes>, index: nat): seq<ServerExt> {
    [SelectedVersion(TLS13)]
    + (if share.Some? then [ServerShare(Share(X25519, share.value))] else [])
    + [SelectedIdentity(index)]
  }

  /** The ServerHello message of a first flight. */
  function FlightHello(random: bytes, sid: bytes, share: Option<bytes>, index: nat): bytes {
    Message(SERVER_HELLO, ServerHelloBody(random, sid, AES_128_GCM_SHA256, FlightExts(share, index)))
  }

  /** The HelloRetryRequest message: the special random, and the group instead of a key share. */
  function RetryMessage(sid: bytes, group: nat): bytes {
    Message(SERVER_HELLO,
            ServerFields(HRR_RANDOM, sid, AES_128_GCM_SHA256)
            + Prefixed(EncodeRaw(Raw(SUPPORTED_VERSIONS, U16(TLS13))) + EncodeRaw(Raw(KEY_SHARE, U16(group)))))
  }

  lemma {:induction false} FlightExtsLen(share: Option<bytes>, index: nat)
    requires share.Some? ==> |share.value| == X25519_LEN
    ensures |EncodeAll(EncodeRaw, RawServerExts(FlightExts(share, index)))| == if share.Some? then 52 else 12
  {
    var v, i := SelectedVersion(TLS13), SelectedIdentity(index);
    assert RawServerExts([i]) == [EncodeServerExt(i)];
    assert EncodeAll(EncodeRaw, [EncodeServerExt(i)]) == EncodeRaw(EncodeServerExt(i));
    if share.Some? {
      var s := ServerShare(Share(X25519, share.value));
      var es := FlightExts(share, index);
      assert es == [v, s, i] && es[1..] == [s, i] && es[1..][1..] == [i];
      var xs := RawServerExts(es);
      assert xs == [EncodeServerExt(v), EncodeServerExt(s), EncodeServerExt(i)];
      assert xs[1..] == [EncodeServerExt(s), EncodeServerExt(i)] && xs[1..][1..] == [EncodeServerExt(i)];
    } else {
      var es := FlightExts(share, index);
      assert es == [v, i] && es[1..] == [i];
      var xs := RawServerExts(es);
      assert xs == [EncodeServerExt(v), EncodeServerExt(i)] && xs[1..] == [EncodeServerExt(i)];
    }
  }

  /** A first flight's ServerHello tells the client version 1.3, the share if any, and the identity index. */
  lemma {:induction false} FlightHelloParses(random: bytes, sid: bytes, share: Option<bytes>, index: nat)
    requires |random| == 32 && |sid| <= 32 && index < 65536
    requires share.Some? ==> |share.value| == X25519_LEN
    ensures var m := FlightHello(random, sid, share, index);
            && m[0] == SERVER_HELLO
            && FromU24(m[1], m[2], m[3]) == |m| - 4
            && GetServerHello(m[4..]) == Ok(Got(FlightExts(share, index), []))
  {
    var es := FlightExts(share, index);
    var body := ServerHelloBody(random, sid, AES_128_GCM_SHA256, es);
    FlightExtsLen(share, index);
    ServerHelloRoundTrip(random, sid, AES_128_GCM_SHA256, es);
    U24Read(|body|);
    assert FlightHello(random, sid, share, index)[4..] == body;
  }
}
