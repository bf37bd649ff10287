/** Encoding a ClientHello in place (client_hello.rs:58-155, pre_shared_key.rs:88-112, key_share.rs:38-46). */
module ClientWriters {
  import opened Basics
  import opened ParseBuffers
  import opened PreSharedKeys
  import opened Extensions
  import opened ClientHellos
  import opened ClientBinders
  import opened ClientOffers
  import opened ServerHellos
  import opened CryptoBuffers
  import opened ServerWriters

  /** One identity with its zero ticket age. */
  method EncodeIdentityInto(buf: CryptoBuffer, id: bytes) returns (r: Result<(), TlsError>)
    requires buf.Valid()
    modifies buf`len, buf.buf
    ensures buf.Valid()
    ensures if old(buf.End()) + |EncodeIdentity(id)| <= buf.hi
            then r.Ok? && buf.Prefix() == old(buf.Prefix()) + EncodeIdentity(id) else r == Err(NoSpace)
  {
    ghost var before := buf.Prefix();
    var at := buf.BeginU16();
    if at.Err? {
      return Err(at.error);
    }
    var r1 := buf.ExtendFromSlice(id);
    if r1.Err? {
      return r1;
    }
    buf.EndU16(at.value, before, id);
    r := buf.ExtendFromSlice(U32(0));
    if r.Ok? {
      Assoc(before, U16(|id|) + id, U32(0));
    }
  }

  method EncodeIdentities(buf: CryptoBuffer, ids: seq<bytes>) returns (r: Result<(), TlsError>)
    requires buf.Valid()
    modifies buf`len, buf.buf
    ensures buf.Valid()
    ensures if old(buf.End()) + |EncodeAll(EncodeIdentity, ids)| <= buf.hi
            then r.Ok? && buf.Prefix() == old(buf.Prefix()) + EncodeAll(EncodeIdentity, ids) else r == Err(NoSpace)
  {
    ghost var before := buf.Prefix();
    for i := 0 to |ids|
      invariant buf.Valid() && buf.Prefix() == before + EncodeAll(EncodeIdentity, ids[..i])
    {
      EncodeAllStep(EncodeIdentity, ids, i);
      EncodeAllPrefix(EncodeIdentity, ids, i + 1);
      var r1 := EncodeIdentityInto(buf, ids[i]);
      if r1.Err? {
        return r1;
      }
      Assoc(before, EncodeAll(EncodeIdentity, ids[..i]), EncodeIdentity(ids[i]));
    }
    assert ids[..|ids|] == ids;
    r := Ok(());
  }

  /** The zero bytes where `finalize` will put the binders. */
  method EncodePlaceholder(buf: CryptoBuffer, n: nat) returns (r: Result<(), TlsError>)
    requires buf.Valid()
    modifies buf`len, buf.buf
    ensures buf.Valid()
    ensures if old(buf.End()) + n <= buf.hi
            then r.Ok? && buf.Prefix() == old(buf.Prefix()) + Zeros(n) else r == Err(NoSpace)
  {
    ghost var before := buf.Prefix();
    for i := 0 to n
      invariant buf.Valid() && buf.Prefix() == before + Zeros(i)
    {
      var r1 := buf.Push(0);
      if r1.Err? {
        return r1;
      }
      assert before + Zeros(i) + [0] == before + Zeros(i + 1);
    }
    r := Ok(());
  }

  method EncodePrefixedIdentities(buf: CryptoBuffer, ids: seq<bytes>) returns (r: Result<(), TlsError>)
    requires buf.Valid()
    modifies buf`len, buf.buf
    ensures buf.Valid()
    ensures var data := Prefixed(EncodeAll(EncodeIdentity, ids));
            if old(buf.End()) + |data| <= buf.hi
            then r.Ok? && buf.Prefix() == old(buf.Prefix()) + data else r == Err(NoSpace)
  {
    ghost var before := buf.Prefix();
    var at := buf.BeginU16();
    if at.Err? {
      return Err(at.error);
    }
    r := EncodeIdentities(buf, ids);
    if r.Ok? {
      buf.EndU16(at.value, before, EncodeAll(EncodeIdentity, ids));
    }
  }

  /** `PreSharedKeyClientHello::encode`. */
  method EncodePskData(buf: CryptoBuffer, ids: seq<bytes>) returns (r: Result<(), TlsError>)
    requires buf.Valid()
    modifies buf`len, buf.buf
    ensures buf.Valid()
    ensures if old(buf.End()) + |PlaceholderData(ids)| <= buf.hi
            then r.Ok? && buf.Prefix() == old(buf.Prefix()) + PlaceholderData(ids) else r == Err(NoSpace)
  {
    ghost var before, list := buf.Prefix(), EncodeAll(EncodeIdentity, ids);
    var r1 := EncodePrefixedIdentities(buf, ids);
    if r1.Err? {
      return r1;
    }
    var n := BINDER_ENTRY * |ids|;
    var r2 := buf.PushU16(n);
    if r2.Err? {
      return r2;
    }
    r := EncodePlaceholder(buf, n);
    if r.Ok? {
      AppendTwo(before, Prefixed(list), U16(n), Zeros(n));
    }
  }

  lemma {:induction false} AppendTwo(a: bytes, b: bytes, c: bytes, d: bytes)
    ensures a + b + c + d == a + (b + c + d)
  {
  }

  method EncodeShareList(buf: CryptoBuffer, shares: seq<Share>) returns (r: Result<(), TlsError>)
    requires buf.Valid()
    modifies buf`len, buf.buf
    ensures buf.Valid()
    ensures if old(buf.End()) + |EncodeAll(EncodeShare, shares)| <= buf.hi
            then r.Ok? && buf.Prefix() == old(buf.Prefix()) + EncodeAll(EncodeShare, shares) else r == Err(NoSpace)
  {
    ghost var before := buf.Prefix();
    for i := 0 to |shares|
      invariant buf.Valid() && buf.Prefix() == before + EncodeAll(EncodeShare, shares[..i])
    {
      EncodeAllStep(EncodeShare, shares, i);
      EncodeAllPrefix(EncodeShare, shares, i + 1);
      var r1 := EncodeShareInto(buf, shares[i]);
      if r1.Err? {
        return r1;
      }
      Assoc(before, EncodeAll(EncodeShare, shares[..i]), EncodeShare(shares[i]));
    }
    assert shares[..|shares|] == shares;
    r := Ok(());
  }

  /** `KeyShareClientHello::encode`. */
  method EncodeShares(buf: CryptoBuffer, shares: seq<Share>) returns (r: Result<(), TlsError>)
    requires buf.Valid()
    modifies buf`len, buf.buf
    ensures buf.Valid()
    ensures var data := Prefixed(EncodeAll(EncodeShare, shares));
            if old(buf.End()) + |data| <= buf.hi
            then r.Ok? && buf.Prefix() == old(buf.Prefix()) + data else r == Err(NoSpace)
  {
    ghost var before := buf.Prefix();
    var at := buf.BeginU16();
    if at.Err? {
      return Err(at.error);
    }
    r := EncodeShareList(buf, shares);
    if r.Ok? {
      buf.EndU16(at.value, before, EncodeAll(EncodeShare, shares));
    }
  }

  // --- Extensions ---

  /** Code points, each in two bytes, behind the length of the list: groups and signature schemes. */
  method EncodeCodes(buf: CryptoBuffer, codes: seq<nat>) returns (r: Result<(), TlsError>)
    requires buf.Valid()
    modifies buf`len, buf.buf
    ensures buf.Valid()
    ensures var data := Prefixed(EncodeAll(U16, codes));
            if old(buf.End()) + |data| <= buf.hi
            then r.Ok? && buf.Prefix() == old(buf.Prefix()) + data else r == Err(NoSpace)
  {
    ghost var before := buf.Prefix();
    var at := buf.BeginU16();
    if at.Err? {
      return Err(at.error);
    }
    r := EncodeCodeList(buf, codes);
    if r.Ok? {
      buf.EndU16(at.value, before, EncodeAll(U16, codes));
    }
  }

  method EncodeCodeList(buf: CryptoBuffer, codes: seq<nat>) returns (r: Result<(), TlsError>)
    requires buf.Valid()
    modifies buf`len, buf.buf
    ensures buf.Valid()
    ensures if old(buf.End()) + |EncodeAll(U16, codes)| <= buf.hi
            then r.Ok? && buf.Prefix() == old(buf.Prefix()) + EncodeAll(U16, codes) else r == Err(NoSpace)
  {
    ghost var before := buf.Prefix();
    for i := 0 to |codes|
      invariant buf.Valid() && buf.Prefix() == before + EncodeAll(U16, codes[..i])
    {
      EncodeAllStep(U16, codes, i);
      EncodeAllPrefix(U16, codes, i + 1);
      var r1 := buf.PushU16(codes[i]);
      if r1.Err? {
        return r1;
      }
      Assoc(before, EncodeAll(U16, codes[..i]), U16(codes[i]));
    }
    assert codes[..|codes|] == codes;
    r := Ok(());
  }

  /** One host name: name type 0, length, bytes. */
  method EncodeHost(buf: CryptoBuffer, host: bytes) returns (r: Result<(), TlsError>)
    requires buf.Valid()
    modifies buf`len, buf.buf
    ensures buf.Valid()
    ensures if old(buf.End()) + 3 + |host| <= buf.hi
            then r.Ok? && buf.Prefix() == old(buf.Prefix()) + ([0] + Prefixed(host)) else r == Err(NoSpace)
  {
    ghost var before := buf.Prefix();
    var r1 := buf.Push(0);
    if r1.Err? {
      return r1;
    }
    var at := buf.BeginU16();
    if at.Err? {
      return Err(at.error);
    }
    r := buf.ExtendFromSlice(host);
    if r.Ok? {
      buf.EndU16(at.value, before + [0], host);
      Assoc(before, [0], Prefixed(host));
    }
  }

  /** `ServerNameList::encode` for a single name. */
  method EncodeName(buf: CryptoBuffer, host: bytes) returns (r: Result<(), TlsError>)
    requires buf.Valid()
    modifies buf`len, buf.buf
    ensures buf.Valid()
    ensures var data := Prefixed([0] + Prefixed(host));
            if old(buf.End()) + |data| <= buf.hi
            then r.Ok? && buf.Prefix() == old(buf.Prefix()) + data else r == Err(NoSpace)
  {
    ghost var before := buf.Prefix();
    var at := buf.BeginU16();
    if at.Err? {
      return Err(at.error);
    }
    r := EncodeHost(buf, host);
    if r.Ok? {
      buf.EndU16(at.value, before, [0] + Prefixed(host));
    }
  }

  method EncodeProtocolList(buf: CryptoBuffer, names: seq<bytes>) returns (r: Result<(), TlsError>)
    requires buf.Valid()
    modifies buf`len, buf.buf
    ensures buf.Valid()
    ensures if old(buf.End()) + |EncodeAll(EncodeProtocol, names)| <= buf.hi
            then r.Ok? && buf.Prefix() == old(buf.Prefix()) + EncodeAll(EncodeProtocol, names) else r == Err(NoSpace)
  {
    ghost var before := buf.Prefix();
    for i := 0 to |names|
      invariant buf.Valid() && buf.Prefix() == before + EncodeAll(EncodeProtocol, names[..i])
    {
      EncodeAllStep(EncodeProtocol, names, i);
      EncodeAllPrefix(EncodeProtocol, names, i + 1);
      var r1 := EncodeProtocolInto(buf, names[i]);
      if r1.Err? {
        return r1;
      }
      Assoc(before, EncodeAll(EncodeProtocol, names[..i]), EncodeProtocol(names[i]));
    }
    assert names[..|names|] == names;
    r := Ok(());
  }

  /** The length of a name is cut to 8 bits. */
  method EncodeProtocolInto(buf: CryptoBuffer, name: bytes) returns (r: Result<(), TlsError>)
    requires buf.Valid()
    modifies buf`len, buf.buf
    ensures buf.Valid()
    ensures if old(buf.End()) + |EncodeProtocol(name)| <= buf.hi
            then r.Ok? && buf.Prefix() == old(buf.Prefix()) + EncodeProtocol(name) else r == Err(NoSpace)
  {
    ghost var before := buf.Prefix();
    var r1 := buf.Push(|name| % 256);
    if r1.Err? {
      return r1;
    }
    r := buf.ExtendFromSlice(name);
    if r.Ok? {
      Assoc(before, [|name| % 256], name);
    }
  }

  /** `AlpnProtocolNameList::encode`. */
  method EncodeProtocols(buf: CryptoBuffer, names: seq<bytes>) returns (r: Result<(), TlsError>)
    requires buf.Valid()
    modifies buf`len, buf.buf
    ensures buf.Valid()
    ensures var data := Prefixed(EncodeAll(EncodeProtocol, names));
            if old(buf.End()) + |data| <= buf.hi
            then r.Ok? && buf.Prefix() == old(buf.Prefix()) + data else r == Err(NoSpace)
  {
    ghost var before := buf.Prefix();
    var at := buf.BeginU16();
    if at.Err? {
      return Err(at.error);
    }
    r := EncodeProtocolList(buf, names);
    if r.Ok? {
      buf.EndU16(at.value, before, EncodeAll(EncodeProtocol, names));
    }
  }

  method EncodeData(buf: CryptoBuffer, e: ClientExtension) returns (r: Result<(), TlsError>)
    requires buf.Valid()
    modifies buf`len, buf.buf
    ensures buf.Valid()
    ensures if old(buf.End()) + |RawOf(e).data| <= buf.hi
            then r.Ok? && buf.Prefix() == old(buf.Prefix()) + RawOf(e).data else r == Err(NoSpace)
  {
    match e {
      case Versions => r := buf.ExtendFromSlice([2] + U16(TLS13));
      case Schemes(schemes) => r := EncodeCodes(buf, schemes);
      case Fragment(code) => r := buf.Push(code);
      case Groups(groups) => r := EncodeCodes(buf, groups);
      case DheMode => r := buf.ExtendFromSlice([1, 1]);
      case Shares(shares) => r := EncodeShares(buf, shares);
      case Name(host) => r := EncodeName(buf, host);
      case Protocols(names) => r := EncodeProtocols(buf, names);
      case PskOffer(ids) => r := EncodePskData(buf, ids);
    }
  }

  /** The length and the data. */
  method EncodePrefixedData(buf: CryptoBuffer, e: ClientExtension) returns (r: Result<(), TlsError>)
    requires buf.Valid()
    modifies buf`len, buf.buf
    ensures buf.Valid()
    ensures if old(buf.End()) + 2 + |RawOf(e).data| <= buf.hi
            then r.Ok? && buf.Prefix() == old(buf.Prefix()) + Prefixed(RawOf(e).data) else r == Err(NoSpace)
  {
    ghost var before := buf.Prefix();
    var at := buf.BeginU16();
    if at.Err? {
      return Err(at.error);
    }
    r := EncodeData(buf, e);
    if r.Ok? {
      buf.EndU16(at.value, before, RawOf(e).data);
    }
  }

  /** The generated `encode`: type, length, data. */
  method EncodeExtension(buf: CryptoBuffer, e: ClientExtension) returns (r: Result<(), TlsError>)
    requires buf.Valid()
    modifies buf`len, buf.buf
    ensures buf.Valid()
    ensures if old(buf.End()) + |EncodeRaw(RawOf(e))| <= buf.hi
            then r.Ok? && buf.Prefix() == old(buf.Prefix()) + EncodeRaw(RawOf(e)) else r == Err(NoSpace)
  {
    ghost var before, x := buf.Prefix(), RawOf(e);
    var r1 := buf.PushU16(RawOf(e).kind);
    if r1.Err? {
      return r1;
    }
    r := EncodePrefixedData(buf, e);
    if r.Ok? {
      AssocTail(before, U16(x.kind), U16(|x.data|), x.data);
    }
  }

  method EncodeExtensions(buf: CryptoBuffer, es: seq<ClientExtension>) returns (r: Result<(), TlsError>)
    requires buf.Valid()
    modifies buf`len, buf.buf
    ensures buf.Valid()
    ensures if old(buf.End()) + |EncodeAll(EncodeRaw, RawsOf(es))| <= buf.hi
            then r.Ok? && buf.Prefix() == old(buf.Prefix()) + EncodeAll(EncodeRaw, RawsOf(es)) else r == Err(NoSpace)
  {
    ghost var before, xs := buf.Prefix(), RawsOf(es);
    for i := 0 to |es|
      invariant buf.Valid() && buf.Prefix() == before + EncodeAll(EncodeRaw, xs[..i])
    {
      EncodeAllStep(EncodeRaw, xs, i);
      EncodeAllPrefix(EncodeRaw, xs, i + 1);
      var r1 := EncodeExtension(buf, es[i]);
      if r1.Err? {
        return r1;
      }
      Assoc(before, EncodeAll(EncodeRaw, xs[..i]), EncodeRaw(xs[i]));
    }
    assert xs[..|es|] == xs;
    r := Ok(());
  }

  // --- The message ---

  /** One cipher suite and null compression. */
  method EncodeOwnLists(buf: CryptoBuffer, suite: nat) returns (r: Result<(), TlsError>)
    requires buf.Valid()
    modifies buf`len, buf.buf
    ensures buf.Valid()
    ensures if old(buf.End()) + 6 <= buf.hi
            then r.Ok? && buf.Prefix() == old(buf.Prefix()) + EncodeLists(U16(suite), [0]) else r == Err(NoSpace)
  {
    ghost var before := buf.Prefix();
    var r1 := buf.PushU16(2);
    if r1.Err? {
      return r1;
    }
    var r2 := buf.PushU16(suite);
    if r2.Err? {
      return r2;
    }
    r := buf.ExtendFromSlice([1] + [0]);
    if r.Ok? {
      ListLayout(before, U16(2), U16(suite), [1], [0]);
    }
  }

  lemma {:induction false} ListLayout(a: bytes, b: bytes, c: bytes, d: bytes, e: bytes)
    ensures a + b + c + (d + e) == a + (b + c + d + e)
  {
  }

  method EncodeOwnFields(buf: CryptoBuffer, random: bytes, suite: nat) returns (r: Result<(), TlsError>)
    requires buf.Valid()
    modifies buf`len, buf.buf
    ensures buf.Valid()
    ensures if old(buf.End()) + |EncodeFields(OwnFields(random, suite))| <= buf.hi
            then r.Ok? && buf.Prefix() == old(buf.Prefix()) + EncodeFields(OwnFields(random, suite))
            else r == Err(NoSpace)
  {
    ghost var before := buf.Prefix();
    var r1 := EncodeRandomAndEcho(buf, random, []);
    if r1.Err? {
      return r1;
    }
    r := EncodeOwnLists(buf, suite);
    if r.Ok? {
      OwnLayout(before, U16(LEGACY_VERSION), random, EncodeLists(U16(suite), [0]));
    }
  }

  lemma {:induction false} OwnLayout(a: bytes, version: bytes, random: bytes, lists: bytes)
    ensures a + version + random + [0] + [] + lists == a + (version + random + [0] + [] + lists)
  {
  }

  method EncodeExtensionList(buf: CryptoBuffer, es: seq<ClientExtension>) returns (r: Result<(), TlsError>)
    requires buf.Valid()
    modifies buf`len, buf.buf
    ensures buf.Valid()
    ensures var list := EncodeAll(EncodeRaw, RawsOf(es));
            if old(buf.End()) + 2 + |list| <= buf.hi
            then r.Ok? && buf.Prefix() == old(buf.Prefix()) + Prefixed(list) else r == Err(NoSpace)
  {
    ghost var before := buf.Prefix();
    var at := buf.BeginU16();
    if at.Err? {
      return Err(at.error);
    }
    r := EncodeExtensions(buf, es);
    if r.Ok? {
      buf.EndU16(at.value, before, EncodeAll(EncodeRaw, RawsOf(es)));
    }
  }

  method EncodeHelloBody(buf: CryptoBuffer, random: bytes, suite: nat, es: seq<ClientExtension>)
    returns (r: Result<(), TlsError>)
    requires buf.Valid()
    modifies buf`len, buf.buf
    ensures buf.Valid()
    ensures var body := EncodeFields(OwnFields(random, suite)) + Prefixed(EncodeAll(EncodeRaw, RawsOf(es)));
            if old(buf.End()) + |body| <= buf.hi
            then r.Ok? && buf.Prefix() == old(buf.Prefix()) + body else r == Err(NoSpace)
  {
    ghost var before := buf.Prefix();
    var r1 := EncodeOwnFields(buf, random, suite);
    if r1.Err? {
      return r1;
    }
    r := EncodeExtensionList(buf, es);
    if r.Ok? {
      Assoc(before, EncodeFields(OwnFields(random, suite)), Prefixed(EncodeAll(EncodeRaw, RawsOf(es))));
    }
  }

  /** The extensions of `ClientHello::encode`, pushed in its order. */
  method ListExtensions(cfg: ClientConfig, public: bytes) returns (es: seq<ClientExtension>)
    ensures es == AllExtensions(cfg, public)
  {
    es := [Versions, Schemes(cfg.schemes)];
    if cfg.fragment.Some? {
      es := es + [Fragment(cfg.fragment.value)];
    }
    es := es + [Groups(cfg.groups), DheMode, Shares([Share(SECP256R1, public)])];
    if cfg.serverName.Some? {
      es := es + [Name(cfg.serverName.value)];
    }
    if cfg.protocols.Some? {
      es := es + [Protocols(cfg.protocols.value)];
    }
    if cfg.psk.Some? {
      es := es + [PskOffer(cfg.psk.value.1)];
    }
  }

  /** `ClientHandshake::encode` around `ClientHello::encode`: the message `finalize` starts from. */
  method EncodeClientHello(buf: CryptoBuffer, cfg: ClientConfig, random: bytes, suite: nat, public: bytes)
    returns (r: Result<(), TlsError>)
    requires buf.Valid()
    modifies buf`len, buf.buf
    ensures buf.Valid()
    ensures var m := OwnHello(cfg, random, suite, public);
            if old(buf.End()) + |m| <= buf.hi
            then r.Ok? && buf.Prefix() == old(buf.Prefix()) + m else r == Err(NoSpace)
  {
    var es := ListExtensions(cfg, public);
    ghost var before := buf.Prefix();
    ghost var body := EncodeFields(OwnFields(random, suite)) + Prefixed(EncodeAll(EncodeRaw, RawsOf(es)));
    var r1 := buf.Push(CLIENT_HELLO);
    if r1.Err? {
      return r1;
    }
    var at := buf.BeginU24();
    if at.Err? {
      return Err(at.error);
    }
    r := EncodeHelloBody(buf, random, suite, es);
    if r.Ok? {
      buf.EndU24(at.value, before + [CLIENT_HELLO], body);
      AssocTail(before, [CLIENT_HELLO], U24(|body|), body);
    }
  }
}
