/**
 * The ClientHello this client sends (src/handshake/client_hello.rs:58-155): one Secp256r1 share,
 * psk_dhe_ke as the only mode, and the PSK offer last.
 */
module ClientOffers {
  import opened Basics
  import opened Crypto
  import opened KeySchedules
  import opened Rfc8446
  import opened ParseBuffers
  import opened PreSharedKeys
  import opened Extensions
  import opened ClientHellos
  import opened ClientBinders
  import opened ServerHellos

  const SECP256R1: nat := 0x17

  /** An uncompressed point. */
  const P256_LEN: nat := 65

  datatype Settings = Settings(
    serverName: Option<bytes>,
    protocols: Option<seq<bytes>>,
    psk: Option<(bytes, seq<bytes>)>,
    schemes: seq<nat>,
    groups: seq<nat>,
    fragment: Option<byte>)

  predicate Configured(s: Settings) {
    && |s.schemes| <= 25 && (forall i :: 0 <= i < |s.schemes| ==> KnownScheme(s.schemes[i]))
    && |s.groups| <= 13 && (forall i :: 0 <= i < |s.groups| ==> KnownGroup(s.groups[i]))
    && (s.psk.Some? ==> |s.psk.value.1| <= MAX_PSKS)
    && (s.fragment.Some? ==> 1 <= s.fragment.value <= 4)
  }

  /** `TlsConfig`, with what its types promise. */
  type ClientConfig = s: Settings | Configured(s) witness Settings(None, None, None, [], [], None)

  /** The extensions the client can put in. */
  datatype ClientExtension =
    | Versions
    | Schemes(schemes: seq<nat>)
    | Fragment(code: byte)
    | Groups(groups: seq<nat>)
    | DheMode
    | Shares(shares: seq<Share>)
    | Name(host: bytes)
    | Protocols(names: seq<bytes>)
    | PskOffer(ids: seq<bytes>)

  function EncodeProtocol(name: bytes): bytes { [|name| % 256] + name }

  /** The offer as encoded, before its binders exist. */
  function PlaceholderData(ids: seq<bytes>): bytes {
    Prefixed(EncodeAll(EncodeIdentity, ids)) + U16(BINDER_ENTRY * |ids|) + Zeros(BINDER_ENTRY * |ids|)
  }

  function RawOf(e: ClientExtension): Raw {
    match e
    case Versions => Raw(SUPPORTED_VERSIONS, [2, 3, 4])
    case Schemes(schemes) => Raw(SIGNATURE_ALGORITHMS, Prefixed(EncodeAll(U16, schemes)))
    case Fragment(code) => Raw(MAX_FRAGMENT_LENGTH, [code])
    case Groups(groups) => Raw(SUPPORTED_GROUPS, Prefixed(EncodeAll(U16, groups)))
    case DheMode => Raw(PSK_MODES, [1, 1])
    case Shares(shares) => Raw(KEY_SHARE, Prefixed(EncodeAll(EncodeShare, shares)))
    case Name(host) => Raw(SERVER_NAME, Prefixed([0] + Prefixed(host)))
    case Protocols(names) => Raw(ALPN, Prefixed(EncodeAll(EncodeProtocol, names)))
    case PskOffer(ids) => Raw(PRE_SHARED_KEY, PlaceholderData(ids))
  }

  function RawsOf(es: seq<ClientExtension>): (r: seq<Raw>)
    ensures |r| == |es| && forall i :: 0 <= i < |es| ==> r[i] == RawOf(es[i])
  {
    seq(|es|, i requires 0 <= i < |es| => RawOf(es[i]))
  }

  /** The extensions in the order they are written, the offer aside. */
  function OwnExtensions(cfg: ClientConfig, public: bytes): seq<ClientExtension> {
    [Versions, Schemes(cfg.schemes)]
    + (if cfg.fragment.Some? then [Fragment(cfg.fragment.value)] else [])
    + [Groups(cfg.groups), DheMode, Shares([Share(SECP256R1, public)])]
    + (if cfg.serverName.Some? then [Name(cfg.serverName.value)] else [])
    + (if cfg.protocols.Some? then [Protocols(cfg.protocols.value)] else [])
  }

  function AllExtensions(cfg: ClientConfig, public: bytes): seq<ClientExtension> {
    OwnExtensions(cfg, public) + (if cfg.psk.Some? then [PskOffer(cfg.psk.value.1)] else [])
  }

  /** The client's fixed fields: no session id, one cipher suite, null compression. */
  function OwnFields(random: bytes, suite: nat): Fields { Fields(LEGACY_VERSION, random, [], U16(suite), [0]) }

  /** The message as `encode` leaves it, binders still zero. */
  function OwnHello(cfg: ClientConfig, random: bytes, suite: nat, public: bytes): bytes {
    EncodeHello(OwnFields(random, suite), RawsOf(AllExtensions(cfg, public)))
  }

  /** What the binders cover. */
  function OwnCovered(cfg: ClientConfig, random: bytes, suite: nat, public: bytes): bytes
    requires cfg.psk.Some?
  {
    Covered(OwnFields(random, suite), RawsOf(OwnExtensions(cfg, public)), cfg.psk.value.1)
  }

  function OwnBinder(c: Crypto, cfg: ClientConfig, random: bytes, suite: nat, public: bytes): (r: bytes)
    requires cfg.psk.Some?
    ensures |r| == HASH_LEN
  {
    FinishedMac(c, BinderKey(c, cfg.psk.value.0), OwnCovered(cfg, random, suite, public))
  }

  /** The message as it is sent: every binder is the MAC over what precedes the binders. */
  function SentHello(c: Crypto, cfg: ClientConfig, random: bytes, suite: nat, public: bytes): bytes {
    var f, xs := OwnFields(random, suite), RawsOf(OwnExtensions(cfg, public));
    if cfg.psk.None? then EncodeHello(f, xs)
    else
      var ids := cfg.psk.value.1;
      HelloWithPsks(f, xs, ids, Repeat(OwnBinder(c, cfg, random, suite, public), |ids|))
  }

  /** With the offer last, what is encoded is what `finalize` expects. */
  lemma {:induction false} EncodedIsToFinalize(random: bytes, suite: nat, es: seq<ClientExtension>, ids: seq<bytes>)
    ensures EncodeHello(OwnFields(random, suite), RawsOf(es + [PskOffer(ids)]))
         == HelloToFinalize(OwnFields(random, suite), RawsOf(es), ids)
  {
    assert RawsOf(es + [PskOffer(ids)]) == RawsOf(es) + [Raw(PRE_SHARED_KEY, PlaceholderData(ids))];
  }

  /** `own` becomes `sent` when its `n` placeholders are filled with the MAC over what precedes them. */
  predicate Finalizes(c: Crypto, key: Term, own: bytes, n: nat, sent: bytes) {
    2 + BINDER_ENTRY * n <= |own| && sent == FinalizedBytes(c, key, [], own, n)
  }

  lemma {:induction false} OfferFinalizes(c: Crypto, key: Term, f: Fields, xs: seq<Raw>, ids: seq<bytes>)
    ensures var binder := FinishedMac(c, key, Covered(f, xs, ids));
            Finalizes(c, key, HelloToFinalize(f, xs, ids), |ids|, HelloWithPsks(f, xs, ids, Repeat(binder, |ids|)))
  {
    var own := HelloToFinalize(f, xs, ids);
    FinalizedIsCanonical(f, xs, ids, FinishedMac(c, key, Covered(f, xs, ids)));
    assert [] + Covered(f, xs, ids) == Covered(f, xs, ids);
  }

  /** What `finalize` makes of the encoded message is the message sent. */
  lemma {:induction false} FinalizedIsSent(c: Crypto, cfg: ClientConfig, random: bytes, suite: nat, public: bytes)
    ensures var own, sent := OwnHello(cfg, random, suite, public), SentHello(c, cfg, random, suite, public);
            if cfg.psk.None? then own == sent
            else Finalizes(c, BinderKey(c, cfg.psk.value.0), own, |cfg.psk.value.1|, sent)
  {
    var es := OwnExtensions(cfg, public);
    if cfg.psk.Some? {
      EncodedIsToFinalize(random, suite, es, cfg.psk.value.1);
      OfferFinalizes(c, BinderKey(c, cfg.psk.value.0), OwnFields(random, suite), RawsOf(es), cfg.psk.value.1);
    } else {
      assert es + [] == es;
    }
  }

  lemma {:induction false} FinalizedLength(c: Crypto, key: Term, own: bytes, n: nat, sent: bytes)
    requires Finalizes(c, key, own, n, sent)
    ensures |own| == |sent| && 2 + BINDER_ENTRY * n <= |own|
  {
    var at := |own| - BINDER_ENTRY * n;
    SectionLen(FinishedMac(c, key, [] + own[..at - 2]), n);
  }
}
