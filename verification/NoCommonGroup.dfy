/**
 * What becomes of this client's ClientHello at this server, and of the server's answers at this client:
 * the client offers only P-256, the server takes only X25519.
 */
module NoCommonGroup {
  import opened Basics
  import opened Crypto
  import opened KeySchedules
  import opened ParseBuffers
  import opened PreSharedKeys
  import opened Extensions
  import opened ClientHellos
  import opened ClientBinders
  import opened ClientOffers
  import opened ServerHellos
  import opened ServerSpec
  import opened ServerKeys
  import C = ClientSpec

  // --- How the server reads the client's extensions ---

  function ReadOf(e: ClientExtension): ClientExt {
    match e
    case Versions => SupportedVersions([TLS13])
    case Groups(groups) => SupportedGroups(groups)
    case DheMode => PskModes([1])
    case Shares(shares) => KeyShare(shares)
    case _ => OtherExt(RawOf(e).kind)
  }

  /** A host name in ASCII, protocol names that parse; every other extension always does. */
  predicate Plain(e: ClientExtension) {
    match e
    case Name(host) => forall i :: 0 <= i < |host| ==> host[i] < 128
    case Protocols(names) => AlpnNames(EncodeAll(EncodeProtocol, names))
    case _ => true
  }

  /** What the types of the configuration promise of an extension. */
  predicate Typed(e: ClientExtension) {
    match e
    case Fragment(code) => 1 <= code <= 4
    case Groups(groups) => |groups| <= 13 && forall i :: 0 <= i < |groups| ==> KnownGroup(groups[i])
    case Shares(shares) => |shares| <= 4 && forall i :: 0 <= i < |shares| ==> WireShare(shares[i])
    case PskOffer(_) => false
    case _ => true
  }

  lemma {:induction false} FixedBodies()
    ensures ClientBody(SUPPORTED_VERSIONS, [2, 3, 4]) == Ok(SupportedVersions([TLS13]))
    ensures ClientBody(PSK_MODES, [1, 1]) == Ok(PskModes([1]))
  {
    var versions: bytes, modes: bytes, v: bytes, m: bytes := [2, 3, 4], [1, 1], [3, 4], [1];
    assert versions[1..3] == v && modes[1..2] == m && v[2..] == [] && m[1..] == [];
    OneOf(GetU16, 1, v, TLS13);
    OneOf(GetMode, 4, m, 1);
  }

  lemma {:induction false} GroupsBody(groups: seq<nat>)
    requires |groups| <= 13 && forall i :: 0 <= i < |groups| ==> KnownGroup(groups[i])
    ensures ClientBody(SUPPORTED_GROUPS, Prefixed(EncodeAll(U16, groups))) == Ok(SupportedGroups(groups))
  {
    EncodeAllLen(U16, groups, 2);
    forall i | 0 <= i < |groups| ensures Inverts(GetGroup, U16, groups[i]) {
      GroupInverts(groups[i]);
    }
    PrefixedListRoundTrip(GetGroup, U16, groups, 13);
  }

  lemma {:induction false} GroupInverts(g: nat)
    requires KnownGroup(g)
    ensures Inverts(GetGroup, U16, g)
  {
    U16Read(g);
    forall tail: bytes ensures GetGroup(U16(g) + tail) == Ok(Got(g, tail)) {
      assert (U16(g) + tail)[2..] == tail;
    }
  }

  /** Of these extensions only the shape is looked at. */
  lemma {:induction false} OtherBody(t: nat, data: bytes)
    requires t == SERVER_NAME || t == SIGNATURE_ALGORITHMS || t == MAX_FRAGMENT_LENGTH || t == ALPN
    ensures ClientBody(t, data) == if OtherAccepted(t, data) then Ok(OtherExt(t)) else Err(DecodeError)
  {
  }

  lemma {:induction false} SchemesBody(schemes: seq<nat>)
    requires |EncodeAll(U16, schemes)| < 65534
    ensures ClientBody(SIGNATURE_ALGORITHMS, Prefixed(EncodeAll(U16, schemes))) == Ok(OtherExt(SIGNATURE_ALGORITHMS))
  {
    var data := Prefixed(EncodeAll(U16, schemes));
    EncodeAllLen(U16, schemes, 2);
    U16Read(|EncodeAll(U16, schemes)|);
    assert OtherAccepted(SIGNATURE_ALGORITHMS, data);
    OtherBody(SIGNATURE_ALGORITHMS, data);
  }

  lemma {:induction false} NameBody(host: bytes)
    requires |host| + 5 < 65536
    ensures ClientBody(SERVER_NAME, Prefixed([0] + Prefixed(host)))
         == if Plain(Name(host)) then Ok(OtherExt(SERVER_NAME)) else Err(DecodeError)
  {
    var entry: bytes := [0] + Prefixed(host);
    U16Read(|entry|);
    U16Read(|host|);
    assert Prefixed(entry)[2..2 + |entry|] == entry;
    assert entry[1..3] == U16(|host|) && entry[1] == entry[1..3][0] && entry[2] == entry[1..3][1];
    assert entry[3..3 + |host|] == host && entry[3 + |host|..] == [];
    assert (forall i :: 3 <= i < 3 + |host| ==> entry[i] < 128) <==> Plain(Name(host)) by {
      assert forall i :: 0 <= i < |host| ==> entry[3 + i] == host[i];
    }
    if Plain(Name(host)) {
      OneOf(GetServerName, 1, entry, host);
    }
    assert OtherAccepted(SERVER_NAME, Prefixed(entry)) <==> Plain(Name(host));
    OtherBody(SERVER_NAME, Prefixed(entry));
  }

  lemma {:induction false} ProtocolsBody(names: seq<bytes>)
    requires |EncodeAll(EncodeProtocol, names)| < 65534
    ensures ClientBody(ALPN, Prefixed(EncodeAll(EncodeProtocol, names)))
         == if Plain(Protocols(names)) then Ok(OtherExt(ALPN)) else Err(DecodeError)
  {
    var list := EncodeAll(EncodeProtocol, names);
    U16Read(|list|);
    assert Prefixed(list)[2..2 + |list|] == list;
    assert OtherAccepted(ALPN, Prefixed(list)) <==> AlpnNames(list);
    OtherBody(ALPN, Prefixed(list));
  }

  lemma {:induction false} BodyOf(e: ClientExtension)
    requires Typed(e) && |RawOf(e).data| < 65536
    ensures ClientBody(RawOf(e).kind, RawOf(e).data) == if Plain(e) then Ok(ReadOf(e)) else Err(DecodeError)
  {
    match e {
      case Versions => FixedBodies();
      case Schemes(schemes) => SchemesBody(schemes);
      case Fragment(code) =>
      case Groups(groups) => GroupsBody(groups);
      case DheMode => FixedBodies();
      case Shares(shares) => KeySharesRoundTrip(shares);
      case Name(host) => NameBody(host);
      case Protocols(names) => ProtocolsBody(names);
    }
  }

  // --- The offer ---

  lemma {:induction false} EmptyIdentityRefused(ids: seq<bytes>, k: nat, room: nat)
    requires (forall i :: 0 <= i < |ids| ==> |ids[i]| < 65536) && k < |ids| && ids[k] == []
    requires forall i :: 0 <= i < k ==> ids[i] != []
    ensures GetList(GetIdentity, room, EncodeAll(EncodeIdentity, ids)).Err?
  {
    forall tail: bytes ensures GetIdentity(EncodeIdentity(ids[k]) + tail).Err? {
      var s := EncodeIdentity([]) + tail;
      assert s[..2] == U16(0) && s[0] == s[..2][0] && s[1] == s[..2][1];
    }
    forall i | 0 <= i < k ensures Inverts(GetIdentity, EncodeIdentity, ids[i]) {
      IdentityInverts(ids[i]);
    }
    ListRefused(GetIdentity, EncodeIdentity, ids, k, room);
  }

  /** The first empty identity. */
  lemma {:induction false} LeastEmpty(ids: seq<bytes>) returns (k: nat)
    requires !Nonempty(ids)
    ensures k < |ids| && ids[k] == [] && forall i :: 0 <= i < k ==> ids[i] != []
  {
    k := 0;
    while ids[k] != []
      invariant k < |ids| && forall i :: 0 <= i < k ==> ids[i] != []
      decreases |ids| - k
    {
      k := k + 1;
    }
  }

  predicate Nonempty(ids: seq<bytes>) { forall i :: 0 <= i < |ids| ==> ids[i] != [] }

  lemma {:induction false} BadOffer(ids: seq<bytes>, section: bytes)
    requires ids == [] || !Nonempty(ids)
    requires (forall i :: 0 <= i < |ids| ==> |ids[i]| < 65536) && |EncodeAll(EncodeIdentity, ids)| < 65536
    ensures GetPsks(Prefixed(EncodeAll(EncodeIdentity, ids)) + section).None?
  {
    var list := EncodeAll(EncodeIdentity, ids);
    var s := Prefixed(list) + section;
    U16Read(|list|);
    assert s[..2] == U16(|list|) && s[0] == s[..2][0] && s[1] == s[..2][1];
    assert s[2..2 + |list|] == list;
    if ids != [] {
      var k := LeastEmpty(ids);
      EmptyIdentityRefused(ids, k, MAX_PSKS);
    }
  }

  lemma {:induction false} IdentityWithin(ids: seq<bytes>, i: nat)
    requires i < |ids|
    ensures |ids[i]| + 6 <= |EncodeAll(EncodeIdentity, ids)|
  {
    if i > 0 {
      IdentityWithin(ids[1..], i - 1);
    }
  }

  /** The offer parses exactly when it has an identity and none is empty. */
  lemma {:induction false} OfferBody(ids: seq<bytes>, binder: bytes)
    requires |ids| <= MAX_PSKS && |binder| == HASH_LEN && |EncodePsks(ids, Repeat(binder, |ids|))| < 65536
    ensures ClientBody(PRE_SHARED_KEY, EncodePsks(ids, Repeat(binder, |ids|)))
         == if ids != [] && Nonempty(ids) then Ok(PreSharedKey(Psks(ids, Repeat(binder, |ids|), HASH_LEN)))
            else Err(DecodeError)
  {
    forall i | 0 <= i < |ids| ensures |ids[i]| < 65536 {
      IdentityWithin(ids, i);
    }
    if ids != [] && Nonempty(ids) {
      PskRawParses(ids, binder);
    } else {
      BadOffer(ids, BinderSection(Repeat(binder, |ids|)));
    }
  }

  // --- The whole message ---

  function ReadsOf(es: seq<ClientExtension>): (r: seq<ClientExt>)
    ensures |r| == |es| && forall i :: 0 <= i < |es| ==> r[i] == ReadOf(es[i])
  {
    seq(|es|, i requires 0 <= i < |es| => ReadOf(es[i]))
  }

  predicate AllPlain(es: seq<ClientExtension>) { forall i :: 0 <= i < |es| ==> Plain(es[i]) }

  predicate AllTyped(es: seq<ClientExtension>) { |es| <= 8 && forall i :: 0 <= i < |es| ==> Typed(es[i]) }

  /** What a caller can check of a configuration: the offer has identities, the names parse, and it all fits 16 bits. */
  predicate Offerable(es: seq<ClientExtension>, ids: seq<bytes>) {
    && ids != [] && Nonempty(ids) && AllPlain(es)
    && |EncodeAll(EncodeRaw, RawsOf(es))| + |EncodeAll(EncodeIdentity, ids)| + 8 + BINDER_ENTRY * |ids| < 65536
  }

  function OfferRaws(es: seq<ClientExtension>, ids: seq<bytes>, binder: bytes): seq<Raw> {
    RawsOf(es) + [PskRaw(ids, Repeat(binder, |ids|))]
  }

  lemma {:induction false} OfferSize(es: seq<ClientExtension>, ids: seq<bytes>, binder: bytes)
    requires |binder| == HASH_LEN
    ensures |EncodePsks(ids, Repeat(binder, |ids|))| == |EncodeAll(EncodeIdentity, ids)| + 4 + BINDER_ENTRY * |ids|
    ensures |EncodeAll(EncodeRaw, OfferRaws(es, ids, binder))|
         == |EncodeAll(EncodeRaw, RawsOf(es))| + |EncodeAll(EncodeIdentity, ids)| + 8 + BINDER_ENTRY * |ids|
  {
    SectionLen(binder, |ids|);
    EncodeAllAppend(EncodeRaw, RawsOf(es), PskRaw(ids, Repeat(binder, |ids|)));
  }

  lemma {:induction false} OwnCollected(es: seq<ClientExtension>)
    requires AllTyped(es) && |EncodeAll(EncodeRaw, RawsOf(es))| < 65536
    ensures forall i :: 0 <= i < |es| ==> WireRaw(RawsOf(es)[i])
    ensures Collect(ClientBody, MAX_EXTENSIONS, RawsOf(es))
         == if AllPlain(es) then Ok(ReadsOf(es)) else Err(DecodeError)
  {
    var xs, good := RawsOf(es), seq(|es|, i requires 0 <= i < |es| => Plain(es[i]));
    forall i | 0 <= i < |es|
      ensures WireRaw(xs[i])
      ensures ClientBody(xs[i].kind, xs[i].data) == if good[i] then Ok(ReadsOf(es)[i]) else Err(DecodeError)
    {
      RawWithin(xs, i);
      BodyOf(es[i]);
    }
    CollectMixed(ClientBody, MAX_EXTENSIONS, xs, ReadsOf(es), good);
    assert false in good <==> !AllPlain(es) by {
      assert forall i :: 0 <= i < |es| ==> good[i] == Plain(es[i]);
    }
  }

  lemma {:induction false} IdentitiesFit(ids: seq<bytes>)
    requires Nonempty(ids) && |EncodeAll(EncodeIdentity, ids)| < 65536
    ensures forall i :: 0 <= i < |ids| ==> 1 <= |ids[i]| < 65536
  {
    forall i | 0 <= i < |ids| ensures 1 <= |ids[i]| < 65536 {
      IdentityWithin(ids, i);
    }
  }

  lemma {:induction false} NoneOffers(es: seq<ClientExtension>)
    ensures forall i :: 0 <= i < |ReadsOf(es)| ==> !ReadsOf(es)[i].PreSharedKey?
  {
  }

  /** An offer that can be made is read as it was made. */
  lemma {:induction false} OfferableRead(f: Fields, es: seq<ClientExtension>, ids: seq<bytes>)
    requires WireFields(f) && AllTyped(es) && |ids| <= MAX_PSKS && Offerable(es, ids)
    ensures CanOffer(f, RawsOf(es), ids) && Collect(ClientBody, MAX_EXTENSIONS, RawsOf(es)) == Ok(ReadsOf(es))
  {
    OwnCollected(es);
    IdentitiesFit(ids);
    NoneOffers(es);
    CanOfferRead(f, RawsOf(es), ids, ReadsOf(es));
  }

  lemma {:induction false} CanOfferRead(f: Fields, xs: seq<Raw>, ids: seq<bytes>, exts: seq<ClientExt>)
    requires WireFields(f) && (forall i :: 0 <= i < |xs| ==> WireRaw(xs[i]))
    requires 1 <= |ids| <= MAX_PSKS && (forall i :: 0 <= i < |ids| ==> 1 <= |ids[i]| < 65536)
    requires |EncodeAll(EncodeRaw, xs)| + |EncodeAll(EncodeIdentity, ids)| + 8 + BINDER_ENTRY * |ids| < 65536
    requires Collect(ClientBody, MAX_EXTENSIONS, xs) == Ok(exts) && |exts| < MAX_EXTENSIONS
    requires forall i :: 0 <= i < |exts| ==> !exts[i].PreSharedKey?
    ensures CanOffer(f, xs, ids)
  {
  }

  lemma {:induction false} OfferCollected(es: seq<ClientExtension>, ids: seq<bytes>, binder: bytes)
    requires AllTyped(es) && |ids| <= MAX_PSKS && |binder| == HASH_LEN
    requires |EncodeAll(EncodeRaw, OfferRaws(es, ids, binder))| < 65536 && !Offerable(es, ids)
    ensures forall i :: 0 <= i <= |es| ==> WireRaw(OfferRaws(es, ids, binder)[i])
    ensures Collect(ClientBody, MAX_EXTENSIONS, OfferRaws(es, ids, binder)).Err?
  {
    OfferSize(es, ids, binder);
    OwnCollected(es);
    OfferBody(ids, binder);
    CollectThen(ClientBody, MAX_EXTENSIONS, RawsOf(es), PskRaw(ids, Repeat(binder, |ids|)));
  }

  lemma {:induction false} CollectThen<E>(body: (nat, bytes) -> Result<E, TlsError>, room: nat, xs: seq<Raw>, x: Raw)
    requires Collect(body, room, xs) == Err(DecodeError) || body(x.kind, x.data) == Err(DecodeError)
    ensures Collect(body, room, xs + [x]).Err?
    decreases |xs|
  {
    if xs == [] {
      assert xs + [x] == [x];
    } else {
      assert (xs + [x])[1..] == xs[1..] + [x] && (xs + [x])[0] == xs[0];
      if body(xs[0].kind, xs[0].data).Ok? {
        if room > 0 {
          CollectThen(body, room - 1, xs[1..], x);
        }
      } else if body(xs[0].kind, xs[0].data) == Err(UnknownExtensionType) {
        CollectThen(body, room, xs[1..], x);
      }
    }
  }

  /** An offer that cannot be made is not read as a whole message. */
  lemma {:induction false} UnofferableRefused(f: Fields, es: seq<ClientExtension>, ids: seq<bytes>, binder: bytes)
    requires WireFields(f) && AllTyped(es) && |ids| <= MAX_PSKS && |binder| == HASH_LEN && !Offerable(es, ids)
    ensures var r := GetHello(EncodeHello(f, OfferRaws(es, ids, binder))); r.Ok? ==> r.value.rest != []
  {
    var xs := OfferRaws(es, ids, binder);
    if |EncodeAll(EncodeRaw, xs)| >= 65536 {
      LongListRefused(f, xs);
    } else {
      OfferCollected(es, ids, binder);
      HelloRoundTrip(f, xs);
    }
  }

  // --- The key exchange ---

  predicate Fits(e: ClientExt, groups: seq<nat>) {
    match e
    case PskModes(modes) => modes == [1]
    case KeyShare(shares) => FirstX25519(shares) == Ok(None)
    case SupportedGroups(known) => known == groups
    case SupportedVersions(versions) => versions == [TLS13]
    case _ => true
  }

  /** The extensions hold one mode list, psk_dhe_ke, one share list, without X25519, and these groups. */
  predicate DheOnly(exts: seq<ClientExt>, groups: seq<nat>) {
    && (forall i :: 0 <= i < |exts| ==> Fits(exts[i], groups))
    && (exists i :: 0 <= i < |exts| && exts[i].PskModes?)
    && (exists i :: 0 <= i < |exts| && exts[i].SupportedGroups?)
    && (exists i :: 0 <= i < |exts| && exts[i].SupportedVersions?)
  }

  /** Such a client is asked to retry, if it can, and is refused otherwise; it is never answered. */
  lemma {:induction false} DheOnlyDecision(exts: seq<ClientExt>, groups: seq<nat>, dhe: bool, retried: bool)
    requires DheOnly(exts, groups)
    ensures CheckVersions(exts).None?
    ensures DecideKex(exts, dhe, retried)
         == if dhe && !retried && X25519 in groups then Ok(Retry) else Err(Abort(HANDSHAKE_FAILURE))
  {
    var modes := First(exts, (e: ClientExt) => e.PskModes?);
    assert modes.Some? && modes.value.modes == [1] && 1 in modes.value.modes && 0 !in modes.value.modes;
    var known := First(exts, (e: ClientExt) => e.SupportedGroups?);
    assert known.Some? && known.value.groups == groups;
    var versions := First(exts, (e: ClientExt) => e.SupportedVersions?);
    assert versions.Some? && versions.value.versions == [TLS13] && TLS13 in versions.value.versions;
  }

  lemma {:induction false} OwnIsTyped(cfg: ClientConfig, public: bytes)
    requires |public| == P256_LEN
    ensures AllTyped(OwnExtensions(cfg, public))
  {
  }

  lemma {:induction false} OwnIsDheOnly(cfg: ClientConfig, public: bytes, more: seq<ClientExt>)
    requires forall i :: 0 <= i < |more| ==> more[i].PreSharedKey?
    ensures DheOnly(ReadsOf(OwnExtensions(cfg, public)) + more, cfg.groups)
  {
    var es := OwnExtensions(cfg, public);
    var exts := ReadsOf(es) + more;
    var at := if cfg.fragment.Some? then 3 else 2;
    assert es[0] == Versions && es[at] == Groups(cfg.groups) && es[at + 1] == DheMode;
    assert exts[0].SupportedVersions? && exts[at].SupportedGroups? && exts[at + 1].PskModes?;
    forall i | 0 <= i < |es| && es[i].Shares? ensures FirstX25519(es[i].shares) == Ok(None) {
      assert es[i] == Shares([Share(SECP256R1, public)]);
    }
  }

  // --- The client's ClientHello at the server ---

  function Ids(env: C.Env): seq<bytes>
    requires env.config.psk.Some?
  {
    env.config.psk.value.1
  }

  function Own(env: C.Env): seq<ClientExtension> { OwnExtensions(env.config, env.public) }

  function Binder(c: Crypto, env: C.Env): (r: bytes)
    requires env.config.psk.Some?
    ensures |r| == HASH_LEN
  {
    OwnBinder(c, env.config, env.random, env.suite, env.public)
  }

  function CoveredBy(env: C.Env): bytes
    requires env.config.psk.Some?
  {
    OwnCovered(env.config, env.random, env.suite, env.public)
  }

  /** What both ends would have to be for the ClientHello to pass the checks before the binder's. */
  predicate Matches(s: Session, env: C.Env, cfg: ServerConfig) {
    && env.config.psk.Some? && Offerable(Own(env), Ids(env)) && env.suite == AES_128_GCM_SHA256
    && cfg.dhe.Some? && X25519 in env.config.groups && s.retry.None? && cfg.identity in Ids(env)
  }

  lemma {:induction false} OneSuite(suite: nat)
    requires suite < 65536
    ensures OffersSuite(U16(suite)) <==> suite == AES_128_GCM_SHA256
  {
    U16Read(suite);
    U16Read(AES_128_GCM_SHA256);
    assert U16(AES_128_GCM_SHA256) == [0x13, 0x01];
    if U16(suite) == [0x13, 0x01] {
      assert U16(suite)[2 * 0] == 0x13;
    }
  }

  /** The checks on an offer that was read as it was made, one after another. */
  lemma {:induction false} ChecksOf(
    s: Session, f: Fields, exts: seq<ClientExt>, groups: seq<nat>, p: OfferedPsks, cfg: ServerConfig)
    requires DheOnly(exts, groups)
    requires First(exts, (e: ClientExt) => e.PreSharedKey?) == Some(PreSharedKey(p))
    ensures CheckVersions(exts).None?
    ensures DecideKex(exts, cfg.dhe.Some?, s.retry.Some?)
         == if cfg.dhe.Some? && s.retry.None? && X25519 in groups then Ok(Retry) else Err(Abort(HANDSHAKE_FAILURE))
    ensures Locate(exts, cfg.identity).Ok? <==> cfg.identity in p.identities
    ensures Locate(exts, cfg.identity).Ok? ==>
      var k := Locate(exts, cfg.identity).value.0; k < |p.binders| && Locate(exts, cfg.identity).value.1 == p.binders[k]
  {
    DheOnlyDecision(exts, groups, cfg.dhe.Some?, s.retry.Some?);
  }

  lemma {:induction false} AdmittedExactlyWhen(c: Crypto, s: Session, env: C.Env, cfg: ServerConfig)
    ensures var a := Admit(s, C.FinalHello(c, env), cfg);
            && (a.Ok? <==> Matches(s, env, cfg))
            && (a.Ok? ==> a.value.decision == Retry && a.value.hello.bindersAt == |CoveredBy(env)|
                          && a.value.binder == Binder(c, env) && a.value.hello.fields.sessionId == [])
  {
    var f, own := OwnFields(env.random, env.suite), Own(env);
    OwnIsTyped(env.config, env.public);
    OneSuite(env.suite);
    if env.config.psk.None? {
      OwnHasNoOffer(f, own);
      WithoutOffer(s, C.FinalHello(c, env), cfg);
    } else if !Offerable(own, Ids(env)) {
      UnofferableRefused(f, own, Ids(env), Binder(c, env));
    } else {
      OfferIsRead(c, env);
      OfferDecided(c, s, env, cfg, C.FinalHello(c, env));
    }
  }

  /** Without a PSK there is nothing to locate. */
  lemma {:induction false} WithoutOffer(s: Session, m: bytes, cfg: ServerConfig)
    requires GetHello(m).Ok? && GetHello(m).value.rest == [] ==>
      var exts := GetHello(m).value.v.exts; forall i :: 0 <= i < |exts| ==> !exts[i].PreSharedKey?
    ensures Admit(s, m, cfg).Err?
  {
  }

  lemma {:induction false} OwnHasNoOffer(f: Fields, es: seq<ClientExtension>)
    requires WireFields(f) && AllTyped(es)
    ensures var r := GetHello(EncodeHello(f, RawsOf(es)));
            r.Ok? && r.value.rest == [] ==>
              forall i :: 0 <= i < |r.value.v.exts| ==> !r.value.v.exts[i].PreSharedKey?
  {
    var xs := RawsOf(es);
    if |EncodeAll(EncodeRaw, xs)| >= 65536 {
      LongListRefused(f, xs);
    } else {
      OwnCollected(es);
      HelloExtensions(f, xs);
    }
  }

  lemma {:induction false} AdmitFrom(
    s: Session, m: bytes, cfg: ServerConfig, h: Hello, groups: seq<nat>, ids: seq<bytes>, binder: bytes)
    requires |ids| <= MAX_PSKS && GetHello(m) == Ok(Got(h, [])) && DheOnly(h.exts, groups)
    requires First(h.exts, (e: ClientExt) => e.PreSharedKey?)
          == Some(PreSharedKey(Psks(ids, Repeat(binder, |ids|), HASH_LEN)))
    ensures var a := Admit(s, m, cfg);
            && (a.Ok? <==> OffersSuite(h.fields.suites) && cfg.dhe.Some? && s.retry.None? && X25519 in groups
                           && cfg.identity in ids)
            && (a.Ok? ==> a.value.decision == Retry && a.value.hello == h && a.value.binder == binder)
  {
    ChecksOf(s, h.fields, h.exts, groups, Psks(ids, Repeat(binder, |ids|), HASH_LEN), cfg);
  }

  /** How the server reads the client's offer. */
  function OfferRead(c: Crypto, env: C.Env): Hello
    requires env.config.psk.Some?
  {
    var p := Psks(Ids(env), Repeat(Binder(c, env), |Ids(env)|), HASH_LEN);
    Hello(OwnFields(env.random, env.suite), ReadsOf(Own(env)) + [PreSharedKey(p)], |CoveredBy(env)|)
  }

  lemma {:induction false} OfferIsRead(c: Crypto, env: C.Env)
    requires env.config.psk.Some? && Offerable(Own(env), Ids(env))
    ensures GetHello(C.FinalHello(c, env)) == Ok(Got(OfferRead(c, env), []))
  {
    var f, own := OwnFields(env.random, env.suite), Own(env);
    OwnIsTyped(env.config, env.public);
    OfferableRead(f, own, Ids(env));
    OfferParses(f, RawsOf(own), Ids(env), Binder(c, env));
  }

  lemma {:induction false} OfferIsDheOnly(c: Crypto, env: C.Env)
    requires env.config.psk.Some?
    ensures DheOnly(OfferRead(c, env).exts, env.config.groups)
    ensures First(OfferRead(c, env).exts, (e: ClientExt) => e.PreSharedKey?)
         == Some(PreSharedKey(Psks(Ids(env), Repeat(Binder(c, env), |Ids(env)|), HASH_LEN)))
  {
    var p := Psks(Ids(env), Repeat(Binder(c, env), |Ids(env)|), HASH_LEN);
    OwnIsDheOnly(env.config, env.public, [PreSharedKey(p)]);
    NoneOffers(Own(env));
    LastIsFirst(ReadsOf(Own(env)), p);
  }

  lemma {:induction false} OfferDecided(c: Crypto, s: Session, env: C.Env, cfg: ServerConfig, m: bytes)
    requires env.config.psk.Some? && Offerable(Own(env), Ids(env)) && GetHello(m) == Ok(Got(OfferRead(c, env), []))
    ensures var a := Admit(s, m, cfg);
            && (a.Ok? <==> Matches(s, env, cfg))
            && (a.Ok? ==> a.value.decision == Retry && a.value.hello.bindersAt == |CoveredBy(env)|
                          && a.value.binder == Binder(c, env) && a.value.hello.fields.sessionId == [])
  {
    OneSuite(env.suite);
    OfferIsDheOnly(c, env);
    AdmitFrom(s, m, cfg, OfferRead(c, env), env.config.groups, Ids(env), Binder(c, env));
  }

  lemma {:induction false} LastIsFirst(exts: seq<ClientExt>, p: OfferedPsks)
    requires forall i :: 0 <= i < |exts| ==> !exts[i].PreSharedKey?
    ensures First(exts + [PreSharedKey(p)], (e: ClientExt) => e.PreSharedKey?) == Some(PreSharedKey(p))
  {
    var all := exts + [PreSharedKey(p)];
    assert all[|exts|].PreSharedKey?;
  }

  /** What the server checks the client's binder against: the key it derives itself, over the same bytes. */
  predicate BinderAccepted(c: Crypto, s: Session, env: C.Env, cfg: ServerConfig)
    requires env.config.psk.Some? && s.retry.None?
  {
    BinderMatches(c, BinderSchedule(c, s, cfg).binderKey.value, CoveredBy(env), Binder(c, env))
  }

  lemma {:induction false} SentCovers(c: Crypto, env: C.Env)
    requires env.config.psk.Some?
    ensures |CoveredBy(env)| <= |C.FinalHello(c, env)| && C.FinalHello(c, env)[..|CoveredBy(env)|] == CoveredBy(env)
  {
    CoveredThenBinders(OwnFields(env.random, env.suite), RawsOf(Own(env)), Ids(env), Binder(c, env));
  }

  lemma {:induction false} AnsweredBy(
    c: Crypto, s: Session, m: bytes, cfg: ServerConfig, cap: nat, a: Admitted, covered: bytes)
    requires Admissible(s, m, cfg, a) && a.decision == Retry && a.hello.fields.sessionId == []
    requires a.hello.bindersAt == |covered| && m[..|covered|] == covered
    ensures !SentFlight(Answer(c, s, m, cfg, cap, a))
    ensures SentRetry(Answer(c, s, m, cfg, cap, a)) <==>
      && BinderMatches(c, BinderSchedule(c, s, cfg).binderKey.value, covered, a.binder)
      && |Record(HANDSHAKE, RetryMessage([], X25519))| <= cap
  {
    assert [] + covered == covered;
  }

  /**
   * Whatever the session, the server and the space: this client's ClientHello gets no flight. It gets a
   * HelloRetryRequest exactly when the two ends match, the server has not asked before, the binder is
   * accepted and the record fits.
   */
  lemma {:induction false} ClientHelloOutcome(c: Crypto, s: Session, env: C.Env, cfg: ServerConfig, cap: nat)
    ensures var o := ProcessHello(c, s, C.FinalHello(c, env), cfg, cap);
            && !SentFlight(o)
            && (SentRetry(o) <==> Matches(s, env, cfg) && BinderAccepted(c, s, env, cfg)
                                  && |Record(HANDSHAKE, RetryMessage([], X25519))| <= cap)
  {
    AdmittedExactlyWhen(c, s, env, cfg);
    var m := C.FinalHello(c, env);
    if Admit(s, m, cfg).Ok? {
      SentCovers(c, env);
      AnsweredBy(c, s, m, cfg, cap, Admit(s, m, cfg).value, CoveredBy(env));
    }
  }

  /** With the server's own PSK, a new session accepts the binder: nothing but the missing share is in the way. */
  lemma {:induction false} FreshBinderAccepted(c: Crypto, env: C.Env, cfg: ServerConfig)
    requires env.config.psk.Some? && env.config.psk.value.0 == cfg.psk
    ensures BinderAccepted(c, NEW_SESSION, env, cfg)
  {
    FirstHelloHasEarlySecret(c, cfg);
  }
}
