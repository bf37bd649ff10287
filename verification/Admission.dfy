/**
 * Which ClientHellos the server admits and answers, in terms of the lists they carry: any message with
 * the fields and extensions of section 4.1.2 of RFC 8446, from any client.
 */
module Admission {
  import opened Basics
  import opened Crypto
  import opened KeySchedules
  import opened ParseBuffers
  import opened PreSharedKeys
  import opened Extensions
  import opened ClientHellos
  import opened ServerHellos
  import opened ServerSpec
  import opened KexChoice
  import opened HonestClient

  // --- Lists, element by element ---

  /** After `encode(x)`, whatever follows, `read` returns `value(x)` if `x` is good and fails if it is not. */
  ghost predicate Decides<S, T(!new)>(
    read: bytes -> Result<Got<T>, ParseError>, encode: S -> bytes, good: S -> bool, value: S -> T, x: S)
  {
    && encode(x) != []
    && forall tail: bytes ::
         if good(x) then read(encode(x) + tail) == Ok(Got(value(x), tail)) else read(encode(x) + tail).Err?
  }

  function Map<S, T>(value: S -> T, xs: seq<S>): (r: seq<T>)
    ensures |r| == |xs| && forall i :: 0 <= i < |xs| ==> r[i] == value(xs[i])
  {
    seq(|xs|, i requires 0 <= i < |xs| => value(xs[i]))
  }

  predicate All<S>(good: S -> bool, xs: seq<S>) { forall i :: 0 <= i < |xs| ==> good(xs[i]) }

  lemma {:induction false} TailOf<S>(good: S -> bool, xs: seq<S>)
    requires xs != []
    ensures All(good, xs) <==> good(xs[0]) && All(good, xs[1..])
  {
    assert forall i :: 0 <= i < |xs[1..]| ==> xs[1..][i] == xs[i + 1];
    assert forall i :: 1 <= i < |xs| ==> xs[i] == xs[1..][i - 1];
  }

  /** A list is read exactly when it has room and all its elements are good. */
  lemma {:induction false} ListExactlyWhen<S, T(!new)>(
    read: bytes -> Result<Got<T>, ParseError>, encode: S -> bytes, good: S -> bool, value: S -> T,
    room: nat, xs: seq<S>)
    requires forall i :: 0 <= i < |xs| ==> Decides(read, encode, good, value, xs[i])
    ensures var r := GetList(read, room, EncodeAll(encode, xs));
            if |xs| <= room && All(good, xs) then r == Ok(Map(value, xs)) else r.Err?
    decreases |xs|
  {
    if xs == [] {
      assert Map(value, xs) == [];
    } else {
      var rest := EncodeAll(encode, xs[1..]);
      assert EncodeAll(encode, xs) == encode(xs[0]) + rest && encode(xs[0]) + rest != [];
      assert Decides(read, encode, good, value, xs[0]);
      TailOf(good, xs);
      if good(xs[0]) && room > 0 {
        ListExactlyWhen(read, encode, good, value, room - 1, xs[1..]);
        assert Map(value, xs) == [value(xs[0])] + Map(value, xs[1..]);
      }
    }
  }

  // --- What a client sends ---

  /** A PSK identity with its obfuscated ticket age, which the server reads and drops. */
  datatype Identity = Identity(name: bytes, age: nat)

  /** An extension of a ClientHello: those the server looks into, and any other type with any data. */
  datatype Item =
    | Versions(versions: seq<nat>)
    | Groups(groups: seq<nat>)
    | Shares(shares: seq<Share>)
    | Modes(modes: seq<byte>)
    | Offer(ids: seq<Identity>, binders: seq<bytes>)
    | Other(kind: nat, data: bytes)

  function EncodeMode(mode: byte): bytes { [mode] }

  function EncodeAged(id: Identity): bytes { U16(|id.name|) + id.name + U32(id.age) }

  function Name(id: Identity): bytes { id.name }

  /** A list behind an 8-bit length. */
  function ShortPrefixed(list: bytes): bytes { [|list| % 256] + list }

  function RawOf(e: Item): Raw {
    match e
    case Versions(versions) => Raw(SUPPORTED_VERSIONS, ShortPrefixed(EncodeAll(U16, versions)))
    case Groups(groups) => Raw(SUPPORTED_GROUPS, Prefixed(EncodeAll(U16, groups)))
    case Shares(shares) => Raw(KEY_SHARE, Prefixed(EncodeAll(EncodeShare, shares)))
    case Modes(modes) => Raw(PSK_MODES, ShortPrefixed(EncodeAll(EncodeMode, modes)))
    case Offer(ids, binders) => Raw(PRE_SHARED_KEY, Prefixed(EncodeAll(EncodeAged, ids)) + BinderSection(binders))
    case Other(kind, data) => Raw(kind, data)
  }

  predicate Code(n: nat) { n < 65536 }

  predicate WireEntry(s: Share) { s.group < 65536 && |s.key| < 65536 }

  predicate WireIdentity(id: Identity) { |id.name| < 65536 }

  predicate WireBinder(b: bytes) { |b| < 256 }

  /** The wire format can hold it: every number and every length fits its field. */
  predicate WireItem(e: Item) {
    && WireRaw(RawOf(e))
    && match e
       case Versions(versions) => All(Code, versions) && |EncodeAll(U16, versions)| < 256
       case Groups(groups) => All(Code, groups)
       case Shares(shares) => All(WireEntry, shares)
       case Modes(modes) => |EncodeAll(EncodeMode, modes)| < 256
       case Offer(ids, binders) => All(WireIdentity, ids) && All(WireBinder, binders)
       case Other(kind, _) => kind !in {SUPPORTED_VERSIONS, SUPPORTED_GROUPS, KEY_SHARE, PSK_MODES, PRE_SHARED_KEY}
  }

  predicate KnownShare(s: Share) { KnownGroup(s.group) }

  predicate KnownMode(mode: byte) { mode <= 1 }

  predicate Named(id: Identity) { id.name != [] }

  predicate LongBinder(b: bytes) { 32 <= |b| }

  /**
   * What the server's parser takes. One version only; groups, share groups and modes it knows, within its
   * bounds; one to four named identities with as many binders of one length; no compress_certificate.
   */
  predicate Acceptable(e: Item) {
    match e
    case Versions(versions) => |versions| <= 1
    case Groups(groups) => |groups| <= 13 && All(KnownGroup, groups)
    case Shares(shares) => |shares| <= 4 && All(KnownShare, shares)
    case Modes(modes) => |modes| <= 4 && All(KnownMode, modes)
    case Offer(ids, binders) =>
      && 1 <= |ids| == |binders| <= MAX_PSKS && All(Named, ids) && All(LongBinder, binders)
      && Uniform(binders, |binders[0]|)
    case Other(kind, data) => KnownType(kind) ==> kind != COMPRESS_CERTIFICATE && OtherAccepted(kind, data)
  }

  /** What the server then has of it: the lists themselves, or nothing for a type it does not know. */
  function Said(e: Item): Option<ClientExt>
    requires Acceptable(e)
  {
    match e
    case Versions(versions) => Some(SupportedVersions(versions))
    case Groups(groups) => Some(SupportedGroups(groups))
    case Shares(shares) => Some(KeyShare(shares))
    case Modes(modes) => Some(PskModes(modes))
    case Offer(ids, binders) => Some(PreSharedKey(Psks(Map(Name, ids), binders, |binders[0]|)))
    case Other(kind, _) => if KnownType(kind) then Some(OtherExt(kind)) else None
  }

  type Parser = (nat, bytes) -> Result<ClientExt, TlsError>

  /** How a parser decides about an item: refused, skipped or kept. */
  predicate JudgedBy(body: Parser, e: Item) {
    var r := body(RawOf(e).kind, RawOf(e).data);
    if !Acceptable(e) then r.Err? && r.error != UnknownExtensionType
    else if Said(e).None? then r == Err(UnknownExtensionType)
    else r == Ok(Said(e).value)
  }

  predicate Judged(e: Item) { JudgedBy(ClientBody, e) }

  // --- Item by item ---

  lemma {:induction false} CodeRead(n: nat, tail: bytes)
    requires n < 65536
    ensures GetU16(U16(n) + tail) == Ok(Got(n, tail))
  {
    U16Read(n);
    assert (U16(n) + tail)[2..] == tail;
  }

  lemma {:induction false} ShortListRead<T>(read: bytes -> Result<Got<T>, ParseError>, room: nat, list: bytes)
    requires |list| < 256
    ensures U8List(read, room, ShortPrefixed(list)) == GetList(read, room, list)
  {
    assert ShortPrefixed(list)[1..1 + |list|] == list;
  }

  lemma {:induction false} LongListRead<T>(read: bytes -> Result<Got<T>, ParseError>, room: nat, list: bytes)
    requires |list| < 65536
    ensures U16List(read, room, Prefixed(list)) == GetList(read, room, list)
  {
    U16Read(|list|);
    assert Prefixed(list)[2..2 + |list|] == list;
  }

  lemma {:induction false} VersionsJudged(versions: seq<nat>)
    requires WireItem(Versions(versions))
    ensures Judged(Versions(versions))
  {
    var any, same := (_: nat) => true, (n: nat) => n;
    forall i | 0 <= i < |versions| ensures Decides(GetU16, U16, any, same, versions[i]) {
      forall tail: bytes ensures GetU16(U16(versions[i]) + tail) == Ok(Got(versions[i], tail)) {
        CodeRead(versions[i], tail);
      }
    }
    ListExactlyWhen(GetU16, U16, any, same, 1, versions);
    assert Map(same, versions) == versions;
    ShortListRead(GetU16, 1, EncodeAll(U16, versions));
  }

  lemma {:induction false} GroupsJudged(groups: seq<nat>)
    requires WireItem(Groups(groups))
    ensures Judged(Groups(groups))
  {
    var same := (n: nat) => n;
    forall i | 0 <= i < |groups| ensures Decides(GetGroup, U16, KnownGroup, same, groups[i]) {
      forall tail: bytes ensures GetU16(U16(groups[i]) + tail) == Ok(Got(groups[i], tail)) {
        CodeRead(groups[i], tail);
      }
    }
    ListExactlyWhen(GetGroup, U16, KnownGroup, same, 13, groups);
    assert Map(same, groups) == groups;
    LongListRead(GetGroup, 13, EncodeAll(U16, groups));
  }

  lemma {:induction false} ModesJudged(modes: seq<byte>)
    requires WireItem(Modes(modes))
    ensures Judged(Modes(modes))
  {
    var same := (n: byte) => n;
    forall i | 0 <= i < |modes| ensures Decides(GetMode, EncodeMode, KnownMode, same, modes[i]) {
      forall tail: bytes ensures (EncodeMode(modes[i]) + tail)[1..] == tail {
      }
    }
    ListExactlyWhen(GetMode, EncodeMode, KnownMode, same, 4, modes);
    assert Map(same, modes) == modes;
    ShortListRead(GetMode, 4, EncodeAll(EncodeMode, modes));
  }

  lemma {:induction false} EntryDecided(s: Share)
    requires WireEntry(s)
    ensures Decides(GetShare, EncodeShare, KnownShare, (s: Share) => s, s)
  {
    if KnownShare(s) {
      ShareInverts(s);
    } else {
      forall tail: bytes ensures GetShare(EncodeShare(s) + tail).Err? {
        var d := EncodeShare(s) + tail;
        U16Read(s.group);
        assert d[..2] == U16(s.group) && d[0] == d[..2][0] && d[1] == d[..2][1];
      }
    }
  }

  lemma {:induction false} SharesJudged(shares: seq<Share>)
    requires WireItem(Shares(shares))
    ensures Judged(Shares(shares))
  {
    var same := (s: Share) => s;
    forall i | 0 <= i < |shares| ensures Decides(GetShare, EncodeShare, KnownShare, same, shares[i]) {
      EntryDecided(shares[i]);
    }
    ListExactlyWhen(GetShare, EncodeShare, KnownShare, same, 4, shares);
    assert Map(same, shares) == shares;
    LongListRead(GetShare, 4, EncodeAll(EncodeShare, shares));
  }

  lemma {:induction false} IdentityDecided(id: Identity)
    requires WireIdentity(id)
    ensures Decides(GetIdentity, EncodeAged, Named, Name, id)
  {
    var n := |id.name|;
    forall tail: bytes
      ensures var s := EncodeAged(id) + tail;
              if Named(id) then GetIdentity(s) == Ok(Got(id.name, tail)) else GetIdentity(s).Err?
    {
      var s := EncodeAged(id) + tail;
      U16Read(n);
      assert s[..2] == U16(n) && s[0] == s[..2][0] && s[1] == s[..2][1];
      assert s[2..2 + n] == id.name && s[6 + n..] == tail;
    }
  }

  lemma {:induction false} BinderDecided(b: bytes)
    requires WireBinder(b)
    ensures Decides(GetBinder, EncodeBinder, LongBinder, (b: bytes) => b, b)
  {
    if LongBinder(b) {
      BinderInverts(b);
    }
  }

  /** The two lists of an offer, each read exactly when it has room and its elements are good. */
  lemma {:induction false} OfferLists(ids: seq<Identity>, binders: seq<bytes>)
    requires All(WireIdentity, ids) && All(WireBinder, binders)
    ensures var r := GetList(GetIdentity, MAX_PSKS, EncodeAll(EncodeAged, ids));
            if |ids| <= MAX_PSKS && All(Named, ids) then r == Ok(Map(Name, ids)) else r.Err?
    ensures var r := GetList(GetBinder, MAX_PSKS, EncodeAll(EncodeBinder, binders));
            if |binders| <= MAX_PSKS && All(LongBinder, binders) then r == Ok(binders) else r.Err?
  {
    forall i | 0 <= i < |ids| ensures Decides(GetIdentity, EncodeAged, Named, Name, ids[i]) {
      IdentityDecided(ids[i]);
    }
    ListExactlyWhen(GetIdentity, EncodeAged, Named, Name, MAX_PSKS, ids);
    var same := (b: bytes) => b;
    forall i | 0 <= i < |binders| ensures Decides(GetBinder, EncodeBinder, LongBinder, same, binders[i]) {
      BinderDecided(binders[i]);
    }
    ListExactlyWhen(GetBinder, EncodeBinder, LongBinder, same, MAX_PSKS, binders);
    assert Map(same, binders) == binders;
  }

  lemma {:induction false} OfferSizes(ids: seq<Identity>, binders: seq<bytes>)
    requires Acceptable(Offer(ids, binders))
    ensures 7 <= |EncodeAll(EncodeAged, ids)| && 33 <= |EncodeAll(EncodeBinder, binders)|
  {
    assert Named(ids[0]) && |EncodeAged(ids[0])| >= 7;
    assert LongBinder(binders[0]) && |EncodeBinder(binders[0])| >= 33;
  }

  /** Cutting two prefixed lists gives them back, if it gives anything. */
  lemma {:induction false} CutOfTwo(ids: bytes, binders: bytes)
    requires |ids| < 65536 && |binders| < 65536
    ensures var r := CutPsks(Prefixed(ids) + Prefixed(binders));
            if 7 <= |ids| && 33 <= |binders| then r == Some(Cut(ids, binders, [])) else r.None?
  {
    var s := Prefixed(ids) + Prefixed(binders);
    if 7 <= |ids| && 33 <= |binders| {
      CutOfEncoded(ids, binders, []);
      assert s + [] == s;
    } else {
      U16Read(|ids|);
      U16Read(|binders|);
      var p := 2 + |ids|;
      assert s[..2] == U16(|ids|) && s[0] == s[..2][0] && s[1] == s[..2][1];
      assert s[p..p + 2] == U16(|binders|) && s[p] == s[p..p + 2][0] && s[p + 1] == s[p..p + 2][1];
    }
  }

  lemma {:induction false} PsksFrom(
    s: bytes, cut: Cut, ids: Result<seq<bytes>, ParseError>, binders: Result<seq<bytes>, ParseError>)
    requires CutPsks(s) == Some(cut)
    requires GetList(GetIdentity, MAX_PSKS, cut.ids) == ids && GetList(GetBinder, MAX_PSKS, cut.binders) == binders
    ensures GetPsks(s)
         == if ids.Ok? && binders.Ok? && 0 < |ids.value| == |binders.value|
               && Uniform(binders.value, |binders.value[0]|)
            then Some(Got(Psks(ids.value, binders.value, |binders.value[0]|), cut.rest)) else None
  {
  }

  lemma {:induction false} PsksExactlyWhen(ids: seq<Identity>, binders: seq<bytes>)
    requires WireItem(Offer(ids, binders))
    ensures GetPsks(Prefixed(EncodeAll(EncodeAged, ids)) + BinderSection(binders))
         == if Acceptable(Offer(ids, binders)) then Some(Got(Psks(Map(Name, ids), binders, |binders[0]|), [])) else None
  {
    var x, y := EncodeAll(EncodeAged, ids), EncodeAll(EncodeBinder, binders);
    OfferLists(ids, binders);
    CutOfTwo(x, y);
    if 7 <= |x| && 33 <= |y| {
      PsksFrom(Prefixed(x) + Prefixed(y), Cut(x, y, []), GetList(GetIdentity, MAX_PSKS, x),
               GetList(GetBinder, MAX_PSKS, y));
    } else if Acceptable(Offer(ids, binders)) {
      OfferSizes(ids, binders);
    }
  }

  lemma {:induction false} OfferJudged(ids: seq<Identity>, binders: seq<bytes>)
    requires WireItem(Offer(ids, binders))
    ensures Judged(Offer(ids, binders))
  {
    PsksExactlyWhen(ids, binders);
  }

  lemma {:induction false} ItemJudged(e: Item)
    requires WireItem(e)
    ensures Judged(e)
  {
    match e {
      case Versions(versions) => VersionsJudged(versions);
      case Groups(groups) => GroupsJudged(groups);
      case Shares(shares) => SharesJudged(shares);
      case Modes(modes) => ModesJudged(modes);
      case Offer(ids, binders) => OfferJudged(ids, binders);
      case Other(kind, data) =>
    }
  }

  // --- The list of extensions ---

  function RawsOf(es: seq<Item>): (r: seq<Raw>)
    ensures |r| == |es| && forall i :: 0 <= i < |es| ==> r[i] == RawOf(es[i])
  {
    Map(RawOf, es)
  }

  /** The items the server keeps, in order. */
  function Kept(es: seq<Item>): (r: seq<ClientExt>)
    requires All(Acceptable, es)
    ensures |r| <= |es|
  {
    if es == [] then []
    else
      var rest := Kept(es[1..]);
      match Said(es[0]) case None => rest case Some(e) => [e] + rest
  }

  /** The list is read exactly when every item is acceptable and not too many are kept. */
  lemma {:induction false} CollectExactlyWhen(body: Parser, es: seq<Item>, room: nat)
    requires forall i :: 0 <= i < |es| ==> JudgedBy(body, es[i])
    ensures var r := Collect(body, room, RawsOf(es));
            if All(Acceptable, es) && |Kept(es)| <= room then r == Ok(Kept(es)) else r.Err?
    decreases |es|
  {
    if es != [] {
      TailOf(Acceptable, es);
      assert RawsOf(es)[1..] == RawsOf(es[1..]) && JudgedBy(body, es[0]);
      CollectExactlyWhen(body, es[1..], room);
      if room > 0 {
        CollectExactlyWhen(body, es[1..], room - 1);
      }
    }
  }

  /** Where a kept extension comes from. */
  lemma {:induction false} KeptFrom(es: seq<Item>, k: nat) returns (i: nat)
    requires All(Acceptable, es) && k < |Kept(es)|
    ensures i < |es| && Acceptable(es[i]) && Said(es[i]) == Some(Kept(es)[k])
    decreases |es|
  {
    TailOf(Acceptable, es);
    if Said(es[0]).Some? && k == 0 {
      i := 0;
    } else {
      var j := KeptFrom(es[1..], if Said(es[0]).Some? then k - 1 else k);
      i := j + 1;
    }
  }

  lemma {:induction false} BindersFit(es: seq<Item>)
    requires All(Acceptable, es)
    ensures BinderBytes(Kept(es)) <= |EncodeAll(EncodeRaw, RawsOf(es))|
  {
    var exts := Kept(es);
    if exts != [] && exts[|exts| - 1].PreSharedKey? {
      var i := KeptFrom(es, |exts| - 1);
      RawWithin(RawsOf(es), i);
    }
  }

  /** What must hold of the items for the message to be read as a whole. */
  predicate Readable(es: seq<Item>) {
    && |EncodeAll(EncodeRaw, RawsOf(es))| < 65536
    && All(Acceptable, es) && |Kept(es)| <= MAX_EXTENSIONS && !PskMisplaced(Kept(es))
  }

  lemma {:induction false} BoundaryKept(exts: seq<ClientExt>, at: nat)
    requires !PskMisplaced(exts)
    ensures Boundary(exts, at + BinderBytes(exts)) == Ok(at)
  {
  }

  lemma {:induction false} AllJudged(es: seq<Item>)
    requires All(WireItem, es)
    ensures forall i :: 0 <= i < |es| ==> Judged(es[i])
    ensures forall i :: 0 <= i < |es| ==> WireRaw(RawsOf(es)[i])
  {
    forall i | 0 <= i < |es| ensures Judged(es[i]) && WireRaw(RawsOf(es)[i]) {
      assert WireItem(es[i]);
      ItemJudged(es[i]);
    }
  }

  /** A readable message is read whole, with the lists as they were sent. */
  lemma {:induction false} ReadWhole(f: Fields, es: seq<Item>, at: nat)
    requires WireFields(f) && All(WireItem, es) && Readable(es)
    requires |EncodeHello(f, RawsOf(es))| == at + BinderBytes(Kept(es))
    ensures GetHello(EncodeHello(f, RawsOf(es))) == Ok(Got(Hello(f, Kept(es), at), []))
  {
    AllJudged(es);
    CollectExactlyWhen(ClientBody, es, MAX_EXTENSIONS);
    BoundaryKept(Kept(es), at);
    HelloReadAs(f, RawsOf(es), Kept(es), at);
  }

  /** Any other message is not. */
  lemma {:induction false} NotReadWhole(f: Fields, es: seq<Item>)
    requires WireFields(f) && All(WireItem, es) && !Readable(es)
    ensures var r := GetHello(EncodeHello(f, RawsOf(es))); r.Ok? ==> r.value.rest != []
  {
    var xs := RawsOf(es);
    if |EncodeAll(EncodeRaw, xs)| >= 65536 {
      LongListRefused(f, xs);
    } else {
      AllJudged(es);
      CollectExactlyWhen(ClientBody, es, MAX_EXTENSIONS);
      HelloRoundTrip(f, xs);
    }
  }

  // --- Admitted ---

  /** The versions the client sent: those of its first `supported_versions`. */
  ghost predicate SendsVersions(exts: seq<ClientExt>, versions: seq<nat>) {
    exists i: nat :: FirstAt(exts, (e: ClientExt) => e.SupportedVersions?, i) && exts[i] == SupportedVersions(versions)
  }

  /** The key exchange the server uses: DHE whenever a share allows it, plain PSK only otherwise. */
  ghost predicate Chooses(exts: seq<ClientExt>, dhe: bool, kex: Kex) {
    var forward := dhe && SendsMode(exts, 1);
    match kex
    case PskKe => SendsMode(exts, 0) && !(forward && exists key :: SendsKey(exts, key))
    case PskDheKe(key) => forward && SendsKey(exts, key) && |key| == X25519_LEN
  }

  /** Forward secrecy is all that is left, the client knows the group, and has sent no share of it. */
  ghost predicate MustRetry(exts: seq<ClientExt>, dhe: bool) {
    && dhe && SendsMode(exts, 1) && !SendsMode(exts, 0) && (forall key :: !SendsKey(exts, key)) && KnowsX25519(exts)
  }

  ghost predicate CanExchange(exts: seq<ClientExt>, dhe: bool, retried: bool) {
    (exists kex :: Chooses(exts, dhe, kex)) || (MustRetry(exts, dhe) && !retried)
  }

  /** The identity is in the client's offer, first at place `k`. */
  ghost predicate Offers(exts: seq<ClientExt>, identity: bytes, p: OfferedPsks, k: nat) {
    SendsPsks(exts, p) && k < |p.identities| && p.identities[k] == identity && identity !in p.identities[..k]
  }

  /** After a retry, random and session id are those of the first ClientHello. */
  predicate Pinned(s: Session, f: Fields) { s.retry.Some? ==> Snapshot(f.random, f.sessionId) == s.retry.value }

  /** What the server asks of the lists, the binder apart. */
  ghost predicate Usable(s: Session, f: Fields, exts: seq<ClientExt>, cfg: ServerConfig) {
    && SendsVersions(exts, [TLS13]) && OffersSuite(f.suites) && Pinned(s, f)
    && CanExchange(exts, cfg.dhe.Some?, s.retry.Some?)
    && exists p: OfferedPsks, k: nat :: Offers(exts, cfg.identity, p, k)
  }

  lemma {:induction false} VersionsSent(exts: seq<ClientExt>)
    requires forall i :: 0 <= i < |exts| && exts[i].SupportedVersions? ==> |exts[i].versions| <= 1
    ensures CheckVersions(exts).None? <==> SendsVersions(exts, [TLS13])
  {
    var want := (e: ClientExt) => e.SupportedVersions?;
    var first := First(exts, want);
    forall i: nat | FirstAt(exts, want, i) ensures first == Some(exts[i]) {
      FirstIs(exts, want, i);
    }
    if first.Some? {
      var i := FirstHas(exts, want);
      assert TLS13 in first.value.versions <==> first.value.versions == [TLS13];
    }
  }

  lemma {:induction false} UseExactlyWhen(exts: seq<ClientExt>, dhe: bool, retried: bool, kex: Kex)
    ensures DecideKex(exts, dhe, retried) == Ok(Use(kex)) <==> Chooses(exts, dhe, kex)
  {
    KexExactlyWhen(exts, dhe, retried);
  }

  lemma {:induction false} RetryExactlyWhen(exts: seq<ClientExt>, dhe: bool, retried: bool)
    ensures DecideKex(exts, dhe, retried) == Ok(Retry) <==> MustRetry(exts, dhe) && !retried
  {
    KexExactlyWhen(exts, dhe, retried);
  }

  lemma {:induction false} ExchangeExactlyWhen(exts: seq<ClientExt>, dhe: bool, retried: bool)
    ensures DecideKex(exts, dhe, retried).Ok? <==> CanExchange(exts, dhe, retried)
  {
    RetryExactlyWhen(exts, dhe, retried);
    forall kex ensures DecideKex(exts, dhe, retried) == Ok(Use(kex)) <==> Chooses(exts, dhe, kex) {
      UseExactlyWhen(exts, dhe, retried, kex);
    }
  }

  lemma {:induction false} LocatedExactlyWhen(exts: seq<ClientExt>, identity: bytes)
    ensures Locate(exts, identity).Ok? <==> exists p: OfferedPsks, k: nat :: Offers(exts, identity, p, k)
    ensures forall p: OfferedPsks, k: nat :: Offers(exts, identity, p, k) ==>
      Locate(exts, identity) == Ok((k, p.binders[k]))
  {
    forall p: OfferedPsks, k: nat | Offers(exts, identity, p, k)
      ensures Locate(exts, identity) == Ok((k, p.binders[k]))
    {
      LocateExactlyWhen(exts, identity, k, p.binders[k]);
    }
    if Locate(exts, identity).Ok? {
      var (k, binder) := Locate(exts, identity).value;
      LocateExactlyWhen(exts, identity, k, binder);
      var p: OfferedPsks :| SendsPsks(exts, p) && k < |p.identities| && p.identities[k] == identity
                            && identity !in p.identities[..k] && p.binders[k] == binder;
      assert Offers(exts, identity, p, k);
    }
  }

  /** The checks on a message that was read as `h`. */
  lemma {:induction false} ChecksExactlyWhen(s: Session, m: bytes, h: Hello, cfg: ServerConfig)
    requires GetHello(m) == Ok(Got(h, []))
    requires forall i :: 0 <= i < |h.exts| && h.exts[i].SupportedVersions? ==> |h.exts[i].versions| <= 1
    ensures Admit(s, m, cfg).Ok? <==> Usable(s, h.fields, h.exts, cfg)
    ensures Admit(s, m, cfg).Ok? ==> Admit(s, m, cfg).value.hello == h
  {
    VersionsSent(h.exts);
    ExchangeExactlyWhen(h.exts, cfg.dhe.Some?, s.retry.Some?);
    LocatedExactlyWhen(h.exts, cfg.identity);
  }

  lemma {:induction false} KeptVersions(es: seq<Item>)
    requires All(Acceptable, es)
    ensures forall i :: 0 <= i < |Kept(es)| && Kept(es)[i].SupportedVersions? ==> |Kept(es)[i].versions| <= 1
  {
    forall i | 0 <= i < |Kept(es)| && Kept(es)[i].SupportedVersions? ensures |Kept(es)[i].versions| <= 1 {
      var j := KeptFrom(es, i);
    }
  }

  /**
   * Any ClientHello, whatever its fields and extensions, passes the server's checks before the binder's exactly
   * when the parser takes every list and the lists offer TLS 1.3, the suite, a key exchange and the identity.
   */
  lemma {:induction false} AdmittedExactlyWhen(s: Session, f: Fields, es: seq<Item>, cfg: ServerConfig)
    requires WireFields(f) && All(WireItem, es)
    ensures Admit(s, EncodeHello(f, RawsOf(es)), cfg).Ok? <==> Readable(es) && Usable(s, f, Kept(es), cfg)
  {
    var m := EncodeHello(f, RawsOf(es));
    if Readable(es) {
      var at := CoveredSize(f, es);
      ReadWhole(f, es, at);
      KeptVersions(es);
      ChecksExactlyWhen(s, m, Hello(f, Kept(es), at), cfg);
    } else {
      NotReadWhole(f, es);
      UnreadRefused(s, m, cfg);
    }
  }

  lemma {:induction false} CoveredSize(f: Fields, es: seq<Item>) returns (at: nat)
    requires All(Acceptable, es)
    ensures |EncodeHello(f, RawsOf(es))| == at + BinderBytes(Kept(es))
  {
    BindersFit(es);
    at := |EncodeHello(f, RawsOf(es))| - BinderBytes(Kept(es));
  }

  lemma {:induction false} UnreadRefused(s: Session, m: bytes, cfg: ServerConfig)
    requires GetHello(m).Ok? ==> GetHello(m).value.rest != []
    ensures Admit(s, m, cfg).Err?
  {
  }

  /**
   * A ClientHello that also offers TLS 1.2, as section 4.2.1 of RFC 8446 provides for, is always refused: the
   * parser has room for one version.
   */
  lemma {:induction false} TwoVersionsRefused(s: Session, f: Fields, es: seq<Item>, cfg: ServerConfig, i: nat)
    requires WireFields(f) && All(WireItem, es) && i < |es| && es[i] == Versions([TLS13, 0x0303])
    ensures Admit(s, EncodeHello(f, RawsOf(es)), cfg).Err?
  {
    assert !Acceptable(es[i]);
    AdmittedExactlyWhen(s, f, es, cfg);
  }

  // --- Answered ---

  /**
   * Besides the checks: the binder beside the identity is the MAC over all before the binder list, and the
   * flight fits and has a shared secret.
   */
  ghost predicate Answers(
    c: Crypto, s: Session, m: bytes, f: Fields, exts: seq<ClientExt>, cfg: ServerConfig, cap: nat,
    kex: Kex, p: OfferedPsks, k: nat)
  {
    var binderKey, n := BinderSchedule(c, s, cfg).binderKey, |BinderSection(p.binders)|;
    && Chooses(exts, cfg.dhe.Some?, kex) && Offers(exts, cfg.identity, p, k)
    && binderKey.Some? && n <= |m| && BinderMatches(c, binderKey.value, BinderInput(s, m, |m| - n), p.binders[k])
    && 5 + |FlightHello(cfg.random, f.sessionId, ShareOf(cfg, kex), k)| + EE_RECORD + FINISHED_RECORD <= cap
    && !(kex.PskDheKe? && Ikm(c, cfg, kex) == Zeros(X25519_LEN))
  }

  lemma {:induction false} LastOffer(exts: seq<ClientExt>, p: OfferedPsks)
    requires SendsPsks(exts, p) && !PskMisplaced(exts)
    ensures BinderBytes(exts) == |BinderSection(p.binders)|
  {
    var i: nat :| FirstAt(exts, (e: ClientExt) => e.PreSharedKey?, i) && exts[i] == PreSharedKey(p);
    assert i == |exts| - 1;
  }

  /** Of a message whose lists were used as `a`. */
  lemma {:induction false} UsedExactlyWhen(
    c: Crypto, s: Session, m: bytes, cfg: ServerConfig, cap: nat, a: Admitted, kex: Kex, p: OfferedPsks)
    requires Admissible(s, m, cfg, a) && a.decision == Use(kex) && Chooses(a.hello.exts, cfg.dhe.Some?, kex)
    requires Offers(a.hello.exts, cfg.identity, p, a.index) && a.binder == p.binders[a.index]
    requires a.hello.bindersAt + |BinderSection(p.binders)| == |m|
    ensures SentFlight(Answer(c, s, m, cfg, cap, a)) <==>
            Answers(c, s, m, a.hello.fields, a.hello.exts, cfg, cap, kex, p, a.index)
  {
    if BinderSchedule(c, s, cfg).binderKey.Some? {
      AnswerExactlyWhen(c, s, m, cfg, cap, a);
    }
  }

  lemma {:induction false} OneChoice(exts: seq<ClientExt>, dhe: bool, retried: bool, kex: Kex, other: Kex)
    requires DecideKex(exts, dhe, retried) == Ok(Use(kex))
    ensures Chooses(exts, dhe, kex) && (Chooses(exts, dhe, other) ==> other == kex)
  {
    UseExactlyWhen(exts, dhe, retried, kex);
    UseExactlyWhen(exts, dhe, retried, other);
  }

  lemma {:induction false} OneOffer(
    exts: seq<ClientExt>, identity: bytes, p: OfferedPsks, k: nat, q: OfferedPsks, l: nat)
    requires Offers(exts, identity, p, k) && Offers(exts, identity, q, l)
    ensures p == q && k == l
  {
    var psk := (e: ClientExt) => e.PreSharedKey?;
    var i: nat :| FirstAt(exts, psk, i) && exts[i] == PreSharedKey(p);
    var j: nat :| FirstAt(exts, psk, j) && exts[j] == PreSharedKey(q);
    assert i == j;
  }

  lemma {:induction false} AdmittedParts(s: Session, m: bytes, cfg: ServerConfig, a: Admitted)
    requires Admit(s, m, cfg) == Ok(a)
    ensures DecideKex(a.hello.exts, cfg.dhe.Some?, s.retry.Some?) == Ok(a.decision)
    ensures Locate(a.hello.exts, cfg.identity) == Ok((a.index, a.binder))
  {
  }

  /** The offer an admitted ClientHello was found in. */
  lemma {:induction false} OfferOf(exts: seq<ClientExt>, identity: bytes, k: nat, binder: bytes)
    returns (p: OfferedPsks)
    requires Locate(exts, identity) == Ok((k, binder)) && !PskMisplaced(exts)
    ensures Offers(exts, identity, p, k) && p.binders[k] == binder && BinderBytes(exts) == |BinderSection(p.binders)|
  {
    LocateExactlyWhen(exts, identity, k, binder);
    p :| SendsPsks(exts, p) && k < |p.identities| && p.identities[k] == identity
         && identity !in p.identities[..k] && p.binders[k] == binder;
    LastOffer(exts, p);
  }

  /** The answer depends on no other key exchange and no other offer. */
  lemma {:induction false} OneAnswer(
    c: Crypto, s: Session, m: bytes, f: Fields, exts: seq<ClientExt>, cfg: ServerConfig, cap: nat,
    kex: Kex, p: OfferedPsks, k: nat)
    requires DecideKex(exts, cfg.dhe.Some?, s.retry.Some?) == Ok(Use(kex)) && Offers(exts, cfg.identity, p, k)
    ensures (exists x, q: OfferedPsks, l: nat :: Answers(c, s, m, f, exts, cfg, cap, x, q, l))
            <==> Answers(c, s, m, f, exts, cfg, cap, kex, p, k)
  {
    forall x, q: OfferedPsks, l: nat | Answers(c, s, m, f, exts, cfg, cap, x, q, l)
      ensures Answers(c, s, m, f, exts, cfg, cap, kex, p, k)
    {
      OneChoice(exts, cfg.dhe.Some?, s.retry.Some?, kex, x);
      OneOffer(exts, cfg.identity, p, k, q, l);
    }
  }

  lemma {:induction false} NotChosen(exts: seq<ClientExt>, dhe: bool, retried: bool)
    requires DecideKex(exts, dhe, retried) == Ok(Retry)
    ensures forall kex :: !Chooses(exts, dhe, kex)
  {
    forall kex ensures !Chooses(exts, dhe, kex) {
      UseExactlyWhen(exts, dhe, retried, kex);
    }
  }

  lemma {:induction false} AnsweredFrom(c: Crypto, s: Session, m: bytes, cfg: ServerConfig, cap: nat, a: Admitted)
    requires Admit(s, m, cfg) == Ok(a) && !PskMisplaced(a.hello.exts)
    requires a.hello.bindersAt + BinderBytes(a.hello.exts) == |m|
    ensures SentFlight(Answer(c, s, m, cfg, cap, a)) <==>
            exists kex, p: OfferedPsks, k: nat ::
              Answers(c, s, m, a.hello.fields, a.hello.exts, cfg, cap, kex, p, k)
  {
    AdmittedParts(s, m, cfg, a);
    DecidedAnswer(c, s, m, cfg, cap, a);
  }

  lemma {:induction false} DecidedAnswer(c: Crypto, s: Session, m: bytes, cfg: ServerConfig, cap: nat, a: Admitted)
    requires Admissible(s, m, cfg, a) && !PskMisplaced(a.hello.exts)
    requires a.hello.bindersAt + BinderBytes(a.hello.exts) == |m|
    requires DecideKex(a.hello.exts, cfg.dhe.Some?, s.retry.Some?) == Ok(a.decision)
    requires Locate(a.hello.exts, cfg.identity) == Ok((a.index, a.binder))
    ensures SentFlight(Answer(c, s, m, cfg, cap, a)) <==>
            exists kex, p: OfferedPsks, k: nat ::
              Answers(c, s, m, a.hello.fields, a.hello.exts, cfg, cap, kex, p, k)
  {
    var exts := a.hello.exts;
    var p := OfferOf(exts, cfg.identity, a.index, a.binder);
    if a.decision.Use? {
      UseExactlyWhen(exts, cfg.dhe.Some?, s.retry.Some?, a.decision.kex);
      UsedExactlyWhen(c, s, m, cfg, cap, a, a.decision.kex, p);
      OneAnswer(c, s, m, a.hello.fields, exts, cfg, cap, a.decision.kex, p, a.index);
    } else {
      NotChosen(exts, cfg.dhe.Some?, s.retry.Some?);
    }
  }

  /**
   * Any ClientHello, whatever its fields and extensions, gets a flight exactly when it passes the checks, its
   * binder is the MAC, and the flight can be sent.
   */
  lemma {:induction false} AnsweredExactlyWhen(
    c: Crypto, s: Session, f: Fields, es: seq<Item>, cfg: ServerConfig, cap: nat)
    requires WireFields(f) && All(WireItem, es)
    ensures var m := EncodeHello(f, RawsOf(es));
            SentFlight(ProcessHello(c, s, m, cfg, cap)) <==>
              && Readable(es) && Usable(s, f, Kept(es), cfg)
              && exists kex, p: OfferedPsks, k: nat :: Answers(c, s, m, f, Kept(es), cfg, cap, kex, p, k)
  {
    var m := EncodeHello(f, RawsOf(es));
    AdmittedExactlyWhen(s, f, es, cfg);
    if Readable(es) && Usable(s, f, Kept(es), cfg) {
      var at := CoveredSize(f, es);
      ReadWhole(f, es, at);
      var a := Admit(s, m, cfg).value;
      AnswerOf(c, s, m, cfg, cap, a);
      AnsweredFrom(c, s, m, cfg, cap, a);
    }
  }
}
