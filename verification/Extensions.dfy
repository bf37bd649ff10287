/** Extension lists (extension_group_macro.rs) and the extensions both hellos carry. */
module Extensions {
  import opened Basics
  import opened ParseBuffers
  import opened PreSharedKeys

  const X25519: nat := 0x1D
  const X25519_LEN: nat := 32
  const TLS13: nat := 0x0304

  // Extension types (src/extensions/mod.rs).
  const SERVER_NAME: nat := 0
  const MAX_FRAGMENT_LENGTH: nat := 1
  const SUPPORTED_GROUPS: nat := 10
  const SIGNATURE_ALGORITHMS: nat := 13
  const ALPN: nat := 16
  const COMPRESS_CERTIFICATE: nat := 27
  const PRE_SHARED_KEY: nat := 41
  const SUPPORTED_VERSIONS: nat := 43
  const COOKIE: nat := 44
  const PSK_MODES: nat := 45
  const SIGNATURE_ALGORITHMS_CERT: nat := 50
  const KEY_SHARE: nat := 51

  predicate KnownType(t: nat) {
    || t == 0 || t == 1 || t == 5 || t == 10 || 13 <= t <= 16 || 18 <= t <= 21 || t == 27
    || 41 <= t <= 45 || 47 <= t <= 51
  }

  predicate KnownGroup(g: nat) {
    0x17 <= g <= 0x19 || 0x1D <= g <= 0x1E || 0x100 <= g <= 0x104 || 0x11EB <= g <= 0x11ED
  }

  predicate KnownScheme(s: nat) {
    || s == 0x0201 || s == 0x0203 || 0x0301 <= s <= 0x0303 || s == 0x0401 || s == 0x0403 || s == 0x0501 || s == 0x0503
    || s == 0x0601 || s == 0x0603 || 0x0804 <= s <= 0x080b || 0x081A <= s <= 0x081C || 0x0904 <= s <= 0x0906
  }

  // --- Elements of the list-valued extensions ---

  datatype Share = Share(group: nat, key: bytes)

  function GetGroup(s: bytes): (r: Result<Got<nat>, ParseError>) {
    var g :- GetU16(s);
    if KnownGroup(g.v) then Ok(g) else Err(InvalidData)
  }

  function GetScheme(s: bytes): (r: Result<Got<nat>, ParseError>) {
    var g :- GetU16(s);
    if KnownScheme(g.v) then Ok(g) else Err(InvalidData)
  }

  function GetMode(s: bytes): (r: Result<Got<byte>, ParseError>) {
    if |s| < 1 then Err(InsufficientBytes) else if s[0] <= 1 then Ok(Got(s[0], s[1..])) else Err(InvalidData)
  }

  /** `KeyShareEntry::parse`. */
  function GetShare(s: bytes): (r: Result<Got<Share>, ParseError>) {
    if |s| < 2 then Err(InsufficientBytes)
    else if !KnownGroup(FromU16(s[0], s[1])) then Err(InvalidData)
    else if |s| < 4 then Err(InsufficientBytes)
    else
      var end := 4 + FromU16(s[2], s[3]);
      if |s| < end then Err(InsufficientBytes)
      else Ok(Got(Share(FromU16(s[0], s[1]), s[4..end]), s[end..]))
  }

  function GetServerName(s: bytes): (r: Result<Got<bytes>, ParseError>) {
    if |s| < 1 then Err(InsufficientBytes)
    else if s[0] != 0 then Err(InvalidData)
    else if |s| < 3 then Err(InsufficientBytes)
    else
      var end := 3 + FromU16(s[1], s[2]);
      if |s| < end then Err(InsufficientBytes)
      else if forall i :: 3 <= i < end ==> s[i] < 128 then Ok(Got(s[3..end], s[end..])) else Err(InvalidData)
  }

  /** ALPN names are checked for shape only. */
  predicate AlpnNames(s: bytes)
    decreases |s|
  {
    s == [] || (s[0] != 0 && 1 + s[0] as int <= |s| && AlpnNames(s[1 + s[0] as int..]))
  }

  /** A list behind an 8-bit length; bytes after it are not looked at. */
  function U8List<T>(read: bytes -> Result<Got<T>, ParseError>, room: nat, s: bytes)
    : (r: Result<seq<T>, ParseError>)
  {
    if |s| < 1 || |s| < 1 + s[0] as int then Err(InsufficientBytes)
    else GetList(read, room, s[1..1 + s[0] as int])
  }

  /** A list behind a 16-bit length. */
  function U16List<T>(read: bytes -> Result<Got<T>, ParseError>, room: nat, s: bytes)
    : (r: Result<seq<T>, ParseError>)
  {
    if |s| < 2 then Err(InsufficientBytes)
    else
      var end := 2 + FromU16(s[0], s[1]);
      if |s| < end then Err(InsufficientBytes) else GetList(read, room, s[2..end])
  }

  // --- The two extension groups ---

  datatype ClientExt =
    | SupportedVersions(versions: seq<nat>)
    | SupportedGroups(groups: seq<nat>)
    | KeyShare(shares: seq<Share>)
    | PreSharedKey(psks: OfferedPsks)
    | PskModes(modes: seq<byte>)
    | OtherExt(kind: nat)

  datatype ServerExt =
    | SelectedVersion(version: nat)
    | ServerShare(share: Share)
    | SelectedIdentity(index: nat)
    | ServerCookie

  /** The data parser the ClientHello group picks for each type; leftover data is not checked. */
  function ClientBody(t: nat, data: bytes): (r: Result<ClientExt, TlsError>) {
    if !KnownType(t) then Err(UnknownExtensionType)
    else if t == SUPPORTED_VERSIONS then
      var v := U8List(GetU16, 1, data);
      if v.Ok? then Ok(SupportedVersions(v.value)) else Err(DecodeError)
    else if t == SUPPORTED_GROUPS then
      var g := U16List(GetGroup, 13, data);
      if g.Ok? then Ok(SupportedGroups(g.value)) else Err(DecodeError)
    else if t == KEY_SHARE then
      var k := U16List(GetShare, 4, data);
      if k.Ok? then Ok(KeyShare(k.value)) else Err(DecodeError)
    else if t == PRE_SHARED_KEY then
      var p := GetPsks(data);
      if p.Some? then Ok(PreSharedKey(p.value.v)) else Err(DecodeError)
    else if t == PSK_MODES then
      var m := U8List(GetMode, 4, data);
      if m.Ok? then Ok(PskModes(m.value)) else Err(DecodeError)
    else if t == COMPRESS_CERTIFICATE then Err(Abort(ILLEGAL_PARAMETER))
    else if OtherAccepted(t, data) then Ok(OtherExt(t))
    else Err(DecodeError)
  }

  /** Extensions whose content the server ignores: only whether their data parses matters. */
  predicate OtherAccepted(t: nat, data: bytes) {
    if t == SERVER_NAME then U16List(GetServerName, 1, data).Ok?
    else if t == SIGNATURE_ALGORITHMS then
      |data| >= 2 && FromU16(data[0], data[1]) % 2 == 0 && |data| >= 2 + FromU16(data[0], data[1])
    else if t == SIGNATURE_ALGORITHMS_CERT then U16List(GetScheme, 25, data).Ok?
    else if t == MAX_FRAGMENT_LENGTH then |data| >= 1 && 1 <= data[0] <= 4
    else if t == ALPN then
      |data| >= 2 && |data| >= 2 + FromU16(data[0], data[1]) && AlpnNames(data[2..2 + FromU16(data[0], data[1])])
    else true
  }

  /** The ServerHello group has four members; any other known type is an illegal parameter. */
  function ServerBody(t: nat, data: bytes): (r: Result<ServerExt, TlsError>) {
    if !KnownType(t) then Err(UnknownExtensionType)
    else if t == KEY_SHARE then
      var k := GetShare(data);
      if k.Ok? then Ok(ServerShare(k.value.v)) else Err(DecodeError)
    else if t == PRE_SHARED_KEY then
      if |data| < 2 then Err(DecodeError) else Ok(SelectedIdentity(FromU16(data[0], data[1])))
    else if t == SUPPORTED_VERSIONS then
      if |data| < 2 then Err(DecodeError) else Ok(SelectedVersion(FromU16(data[0], data[1])))
    else if t == COOKIE then Ok(ServerCookie)
    else Err(Abort(ILLEGAL_PARAMETER))
  }

  // --- The list itself, for either group ---

  /** An extension as framed on the wire: type and data. */
  datatype Raw = Raw(kind: nat, data: bytes)

  predicate WireRaw(x: Raw) { x.kind < 65536 && |x.data| < 65536 }

  function EncodeRaw(x: Raw): (r: bytes)
    ensures |r| == 4 + |x.data|
  {
    U16(x.kind) + U16(|x.data|) + x.data
  }

  function GetRaw(s: bytes): (r: Result<Got<Raw>, ParseError>)
    ensures r.Ok? ==> |r.value.rest| < |s| && WireRaw(r.value.v)
  {
    if |s| < 4 then Err(InsufficientBytes)
    else
      var end := 4 + FromU16(s[2], s[3]);
      if |s| < end then Err(InsufficientBytes)
      else Ok(Got(Raw(FromU16(s[0], s[1]), s[4..end]), s[end..]))
  }

  /** One entry: its extension, or nothing when the type is unknown and is skipped. */
  function GetExt<E>(body: (nat, bytes) -> Result<E, TlsError>, s: bytes)
    : (r: Result<Got<Option<E>>, TlsError>)
    ensures r.Ok? ==> |r.value.rest| < |s|
  {
    match GetRaw(s)
    case Err(_) => Err(DecodeError)
    case Ok(Got(x, rest)) =>
      match body(x.kind, x.data)
      case Ok(e) => Ok(Got(Some(e), rest))
      case Err(UnknownExtensionType) => Ok(Got(None, rest))
      case Err(other) => Err(other)
  }

  function ExtReader<E>(body: (nat, bytes) -> Result<E, TlsError>)
    : (read: bytes -> Result<Got<Option<E>>, TlsError>)
    ensures forall t: bytes :: read(t).Ok? ==> |read(t).value.rest| < |t|
  {
    (t: bytes) => GetExt(body, t)
  }

  /** A list of entries of which at most `room` are kept. */
  function GetKept<E>(read: bytes -> Result<Got<Option<E>>, TlsError>, room: nat, s: bytes)
    : (r: Result<seq<E>, TlsError>)
    requires forall t: bytes :: read(t).Ok? ==> |read(t).value.rest| < |t|
    ensures r.Ok? ==> |r.value| <= room
    decreases |s|
  {
    if s == [] then Ok([])
    else
      match read(s)
      case Err(e) => Err(e)
      case Ok(Got(None, rest)) => GetKept(read, room, rest)
      case Ok(Got(Some(e), rest)) =>
        if room == 0 then Err(DecodeError) else Prepend([e], GetKept(read, room - 1, rest))
  }

  /** `parse_vector` after its length prefix: unknown types are skipped, at most `room` kept. */
  function GetExts<E>(body: (nat, bytes) -> Result<E, TlsError>, room: nat, s: bytes)
    : (r: Result<seq<E>, TlsError>)
    ensures r.Ok? ==> |r.value| <= room
  {
    GetKept(ExtReader(body), room, s)
  }

  function GetVector<E>(body: (nat, bytes) -> Result<E, TlsError>, room: nat, s: bytes)
    : (r: Result<Got<seq<E>>, TlsError>)
  {
    if |s| < 2 then Err(InvalidExtensionsLength)
    else
      var end := 2 + FromU16(s[0], s[1]);
      if |s| < end then Err(ParseFailure(InsufficientBytes))
      else
        match GetExts(body, room, s[2..end])
        case Ok(exts) => Ok(Got(exts, s[end..]))
        case Err(e) => Err(e)
  }

  /** The loop of `parse_vector`. */
  method ReadKept<E>(read: bytes -> Result<Got<Option<E>>, TlsError>, room: nat, slice: bytes)
    returns (r: Result<seq<E>, TlsError>)
    requires forall t: bytes :: read(t).Ok? ==> |read(t).value.rest| < |t|
    ensures r == GetKept(read, room, slice)
  {
    var rest, extensions := slice, [];
    while rest != []
      invariant |extensions| <= room
      invariant GetKept(read, room, slice) == Prepend(extensions, GetKept(read, room - |extensions|, rest))
      decreases |rest|
    {
      match read(rest) {
        case Err(e) =>
          return Err(e);
        case Ok(Got(None, tail)) =>
          rest := tail;
        case Ok(Got(Some(e), tail)) =>
          if |extensions| == room {
            return Err(DecodeError);
          }
          PrependPrepend(extensions, [e], GetKept(read, room - |extensions| - 1, tail));
          extensions := extensions + [e];
          rest := tail;
      }
    }
    return Ok(extensions);
  }

  lemma {:induction false} VectorAt<E>(
    body: (nat, bytes) -> Result<E, TlsError>, room: nat, b: bytes, at: nat, n: nat, list: bytes,
    exts: Result<seq<E>, TlsError>)
    requires at + 2 + n <= |b| && n == FromU16(b[at], b[at + 1]) && list == b[at + 2..at + 2 + n]
    requires exts == GetExts(body, room, list)
    ensures GetVector(body, room, b[at..])
         == match exts case Ok(es) => Ok(Got(es, b[at + 2 + n..])) case Err(e) => Err(e)
  {
    SliceOfTail(b, at, 2, 2 + n);
  }

  /** `parse_vector`. */
  method ParseVector<E>(buf: ParseBuffer, body: (nat, bytes) -> Result<E, TlsError>, room: nat)
    returns (r: Result<seq<E>, TlsError>)
    requires buf.Valid()
    modifies buf
    ensures buf.Valid()
    ensures match GetVector(body, room, old(buf.Rest()))
            case Ok(g) => r == Ok(g.v) && buf.Rest() == g.rest
            case Err(e) => r == Err(e)
  {
    ghost var b, at := buf.buffer, buf.pos;
    var n := buf.ReadU16();
    if n.Err? {
      return Err(InvalidExtensionsLength);
    }
    var all := buf.Slice(n.value);
    if all.Err? {
      return Err(ParseFailure(all.error));
    }
    r := ReadKept(ExtReader(body), room, all.value);
    VectorAt(body, room, b, at, n.value, all.value, r);
  }

  // --- Lists written by an encoder ---

  /** What `parse_vector` makes of a framed list: the known extensions in order, or the first error. */
  function Collect<E>(body: (nat, bytes) -> Result<E, TlsError>, room: nat, xs: seq<Raw>)
    : (r: Result<seq<E>, TlsError>)
  {
    if xs == [] then Ok([])
    else
      match body(xs[0].kind, xs[0].data)
      case Ok(e) => if room == 0 then Err(DecodeError) else Prepend([e], Collect(body, room - 1, xs[1..]))
      case Err(UnknownExtensionType) => Collect(body, room, xs[1..])
      case Err(other) => Err(other)
  }

  /** `body` reads each of `xs` as the extension at the same place in `es`. */
  predicate ReadsAs<E(==)>(body: (nat, bytes) -> Result<E, TlsError>, xs: seq<Raw>, es: seq<E>) {
    |xs| == |es| && forall i :: 0 <= i < |xs| ==> body(xs[i].kind, xs[i].data) == Ok(es[i])
  }

  lemma {:induction false} CollectAll<E>(body: (nat, bytes) -> Result<E, TlsError>, room: nat, xs: seq<Raw>, es: seq<E>)
    requires ReadsAs(body, xs, es) && |xs| <= room
    ensures Collect(body, room, xs) == Ok(es)
  {
    if xs == [] {
      assert es == [];
    } else {
      CollectAll(body, room - 1, xs[1..], es[1..]);
      assert [es[0]] + es[1..] == es;
    }
  }

  /** A list whose entries are read as `es` where `good`, and are malformed elsewhere. */
  lemma {:induction false} CollectMixed<E>(
    body: (nat, bytes) -> Result<E, TlsError>, room: nat, xs: seq<Raw>, es: seq<E>, good: seq<bool>)
    requires |xs| == |es| == |good| <= room
    requires forall i :: 0 <= i < |xs| ==>
      body(xs[i].kind, xs[i].data) == if good[i] then Ok(es[i]) else Err(DecodeError)
    ensures Collect(body, room, xs) == if false in good then Err(DecodeError) else Ok(es)
    decreases |xs|
  {
    if xs == [] {
      assert es == [];
    } else {
      CollectMixed(body, room - 1, xs[1..], es[1..], good[1..]);
      assert [es[0]] + es[1..] == es && good == [good[0]] + good[1..];
    }
  }

  lemma {:induction false} RawWithin(xs: seq<Raw>, i: nat)
    requires i < |xs|
    ensures 4 + |xs[i].data| <= |EncodeAll(EncodeRaw, xs)|
  {
    if i > 0 {
      RawWithin(xs[1..], i - 1);
    }
  }

  lemma {:induction false} RawInverts(x: Raw, tail: bytes)
    requires WireRaw(x)
    ensures GetRaw(EncodeRaw(x) + tail) == Ok(Got(x, tail))
  {
    var s := EncodeRaw(x) + tail;
    U16Read(x.kind);
    U16Read(|x.data|);
    assert s[4..4 + |x.data|] == x.data && s[4 + |x.data|..] == tail;
  }

  lemma {:induction false} RawSound(s: bytes)
    requires GetRaw(s).Ok?
    ensures s == EncodeRaw(GetRaw(s).value.v) + GetRaw(s).value.rest
  {
    var end := 4 + FromU16(s[2], s[3]);
    U16Write(s[0], s[1]);
    U16Write(s[2], s[3]);
    assert s == [s[0], s[1]] + [s[2], s[3]] + s[4..end] + s[end..];
  }

  /** Every framed list parses to the extensions it frames. */
  lemma {:induction false} ExtsOfEncoded<E>(body: (nat, bytes) -> Result<E, TlsError>, room: nat, xs: seq<Raw>)
    requires forall i :: 0 <= i < |xs| ==> WireRaw(xs[i])
    ensures GetExts(body, room, EncodeAll(EncodeRaw, xs)) == Collect(body, room, xs)
    decreases |xs|
  {
    if xs != [] {
      RawInverts(xs[0], EncodeAll(EncodeRaw, xs[1..]));
      ExtsOfEncoded(body, room, xs[1..]);
      if room > 0 {
        ExtsOfEncoded(body, room - 1, xs[1..]);
      }
    }
  }

  /** Conversely, whatever parses is a framed list of extensions. */
  lemma {:induction false} ExtsAreEncoded<E>(body: (nat, bytes) -> Result<E, TlsError>, room: nat, s: bytes)
    returns (xs: seq<Raw>)
    requires GetExts(body, room, s).Ok?
    ensures forall i :: 0 <= i < |xs| ==> WireRaw(xs[i])
    ensures s == EncodeAll(EncodeRaw, xs)
    ensures GetExts(body, room, s) == Collect(body, room, xs)
    decreases |s|
  {
    if s == [] {
      xs := [];
    } else {
      var x := GetRaw(s).value;
      RawSound(s);
      var tail: seq<Raw>;
      if body(x.v.kind, x.v.data).Ok? {
        tail := ExtsAreEncoded(body, room - 1, x.rest);
      } else {
        tail := ExtsAreEncoded(body, room, x.rest);
      }
      xs := [x.v] + tail;
      assert xs[1..] == tail;
    }
  }

  lemma {:induction false} VectorOfPrefixed<E>(body: (nat, bytes) -> Result<E, TlsError>, room: nat, list: bytes)
    requires |list| < 65536
    ensures match GetExts(body, room, list)
            case Ok(exts) => GetVector(body, room, Prefixed(list)) == Ok(Got(exts, []))
            case Err(e) => GetVector(body, room, Prefixed(list)) == Err(e)
  {
    U16Read(|list|);
    assert Prefixed(list)[2..2 + |list|] == list && Prefixed(list)[2 + |list|..] == [];
  }

  lemma {:induction false} VectorOfEncoded<E>(body: (nat, bytes) -> Result<E, TlsError>, room: nat, xs: seq<Raw>)
    requires forall i :: 0 <= i < |xs| ==> WireRaw(xs[i])
    requires |EncodeAll(EncodeRaw, xs)| < 65536
    ensures match Collect(body, room, xs)
            case Ok(exts) => GetVector(body, room, Prefixed(EncodeAll(EncodeRaw, xs))) == Ok(Got(exts, []))
            case Err(e) => GetVector(body, room, Prefixed(EncodeAll(EncodeRaw, xs))) == Err(e)
  {
    ExtsOfEncoded(body, room, xs);
    VectorOfPrefixed(body, room, EncodeAll(EncodeRaw, xs));
  }

  lemma {:induction false} CollectAppend<E>(body: (nat, bytes) -> Result<E, TlsError>, room: nat, xs: seq<Raw>, x: Raw)
    requires Collect(body, room, xs).Ok? && |Collect(body, room, xs).value| < room
    requires body(x.kind, x.data).Ok?
    ensures Collect(body, room, xs + [x]) == Ok(Collect(body, room, xs).value + [body(x.kind, x.data).value])
    decreases |xs|
  {
    var e := body(x.kind, x.data).value;
    if xs == [] {
      assert xs + [x] == [x] && [x][1..] == [] && [] + [e] == [e];
      assert Collect(body, room - 1, []) == Ok([]);
    } else {
      assert (xs + [x])[1..] == xs[1..] + [x] && (xs + [x])[0] == xs[0];
      if body(xs[0].kind, xs[0].data).Ok? {
        var more := Collect(body, room - 1, xs[1..]).value;
        CollectAppend(body, room - 1, xs[1..], x);
        assert [body(xs[0].kind, xs[0].data).value] + (more + [e])
            == [body(xs[0].kind, xs[0].data).value] + more + [e];
      } else {
        CollectAppend(body, room, xs[1..], x);
      }
    }
  }

  lemma {:induction false} FramedAppend<E>(body: (nat, bytes) -> Result<E, TlsError>, room: nat, xs: seq<Raw>, x: Raw)
    requires (forall i :: 0 <= i < |xs| ==> WireRaw(xs[i])) && WireRaw(x)
    requires Collect(body, room, xs).Ok? && |Collect(body, room, xs).value| < room
    requires body(x.kind, x.data).Ok?
    ensures forall i :: 0 <= i < |xs + [x]| ==> WireRaw((xs + [x])[i])
    ensures |EncodeAll(EncodeRaw, xs + [x])| == |EncodeAll(EncodeRaw, xs)| + 4 + |x.data|
    ensures Collect(body, room, xs + [x]) == Ok(Collect(body, room, xs).value + [body(x.kind, x.data).value])
  {
    CollectAppend(body, room, xs, x);
    EncodeAllAppend(EncodeRaw, xs, x);
  }

  /** An accepted vector with nothing after it is a length prefix and a framed list. */
  lemma {:induction false} VectorIsEncoded<E>(body: (nat, bytes) -> Result<E, TlsError>, room: nat, s: bytes)
    returns (xs: seq<Raw>)
    requires GetVector(body, room, s).Ok? && GetVector(body, room, s).value.rest == []
    ensures |s| >= 2 && s[2..] == EncodeAll(EncodeRaw, xs)
    ensures Collect(body, room, xs) == Ok(GetVector(body, room, s).value.v)
  {
    assert s[2..2 + FromU16(s[0], s[1])] == s[2..];
    xs := ExtsAreEncoded(body, room, s[2..]);
  }
}
