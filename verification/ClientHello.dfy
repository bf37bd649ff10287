/** Parsing, encoding and finalising a ClientHello (client_hello.rs). */
module ClientHellos {
  import opened Basics
  import opened ParseBuffers
  import opened PreSharedKeys
  import opened Extensions

  const MAX_EXTENSIONS: nat := 16

  /** Everything before the extensions. */
  datatype Fields = Fields(version: nat, random: bytes, sessionId: bytes, suites: bytes, compression: bytes)

  /** `bindersAt` is how many leading bytes of the message the binders cover. */
  datatype Hello = Hello(fields: Fields, exts: seq<ClientExt>, bindersAt: nat)

  /** cipher_suites (an even, non-zero number of bytes) and legacy_compression_methods. */
  function GetLists(s: bytes): (r: Option<Got<(bytes, bytes)>>) {
    if |s| < 2 then None
    else
      var n := FromU16(s[0], s[1]);
      var p := 2 + n;
      if n < 2 || n % 2 != 0 || |s| < p + 1 || s[p] < 1 then None
      else
        var q := p + 1 + s[p] as int;
        if |s| < q then None else Some(Got((s[2..p], s[p + 1..q]), s[q..]))
  }

  /** Type, length and fixed fields; `v.1` is the length the handshake header announces. */
  function GetFields(m: bytes): (r: Result<Got<(Fields, nat)>, TlsError>)
    ensures r.Ok? ==> |r.value.v.0.sessionId| <= 32 && |r.value.v.0.random| == 32
    ensures r.Ok? ==> |r.value.rest| <= |m| && r.value.rest == m[|m| - |r.value.rest|..]
  {
    if |m| < 39 || m[0] != CLIENT_HELLO then Err(InvalidHandshake)
    else if m[38] > 32 then Err(InvalidSessionIdLength)
    else
      var p := 39 + m[38] as int;
      if |m| < p then Err(InvalidHandshake)
      else
        match GetLists(m[p..])
        case None => Err(InvalidHandshake)
        case Some(Got((suites, compression), rest)) =>
          Ok(Got((Fields(FromU16(m[4], m[5]), m[6..38], m[39..p], suites, compression),
                  FromU24(m[1], m[2], m[3])), rest))
  }

  /** pre_shared_key must be the last extension kept, so it can occur at most once. */
  predicate PskMisplaced(exts: seq<ClientExt>) {
    exists i :: 0 <= i < |exts| - 1 && exts[i].PreSharedKey?
  }

  /** Bytes the binders section takes, computed back from the end of the message. */
  function BinderBytes(exts: seq<ClientExt>): nat {
    if exts != [] && exts[|exts| - 1].PreSharedKey?
    then |BinderSection(exts[|exts| - 1].psks.binders)| else 0
  }

  /** `binders_start_offset` for a message of `total` bytes. */
  function Boundary(exts: seq<ClientExt>, total: nat): (r: Result<nat, TlsError>)
    ensures r.Ok? ==> r.value <= total
  {
    if PskMisplaced(exts) then Err(Abort(ILLEGAL_PARAMETER))
    else if BinderBytes(exts) > total then Err(InvalidHandshake)
    else Ok(total - BinderBytes(exts))
  }

  /** The extensions of a message of `size` bytes that announces `total`, and so the whole message. */
  function WithExtensions(f: Fields, total: nat, size: nat, g: Got<seq<ClientExt>>): (r: Result<Got<Hello>, TlsError>)
    ensures r.Ok? ==> r.value.v.bindersAt <= size && r.value.v.fields == f
  {
    if size - |g.rest| != total then Err(InvalidHandshake)
    else
      match Boundary(g.v, total)
      case Err(e) => Err(e)
      case Ok(at) => Ok(Got(Hello(f, g.v, at), g.rest))
  }

  function GetHello(m: bytes): (r: Result<Got<Hello>, TlsError>)
    ensures r.Ok? ==> r.value.v.bindersAt <= |m|
    ensures r.Ok? ==> |r.value.v.fields.sessionId| <= 32
  {
    match GetFields(m)
    case Err(e) => Err(e)
    case Ok(Got((fields, bodyLen), rest)) =>
      match GetVector(ClientBody, MAX_EXTENSIONS, rest)
      case Err(e) => Err(e)
      case Ok(g) => WithExtensions(fields, 4 + bodyLen, |m|, g)
  }

  /** Handshake header, version, random and session id: all the fields before the two lists. */
  method ParseHead(buf: ParseBuffer) returns (r: Result<(nat, nat, bytes, bytes), TlsError>)
    requires buf.pos == 0
    modifies buf
    ensures buf.Valid()
    ensures var m := buf.buffer;
            if |m| < 39 || m[0] != CLIENT_HELLO then r == Err(InvalidHandshake)
            else if m[38] > 32 then r == Err(InvalidSessionIdLength)
            else if |m| < 39 + m[38] as int then r == Err(InvalidHandshake)
            else
              && buf.pos == 39 + m[38] as int
              && r == Ok((FromU24(m[1], m[2], m[3]), FromU16(m[4], m[5]), m[6..38], m[39..buf.pos]))
  {
    var kind := buf.ReadU8();
    if kind.Err? || kind.value != CLIENT_HELLO {
      return Err(InvalidHandshake);
    }
    var bodyLen := buf.ReadU24();
    if bodyLen.Err? {
      return Err(InvalidHandshake);
    }
    var version := buf.ReadU16();
    if version.Err? {
      return Err(InvalidHandshake);
    }
    var random := buf.Slice(32);
    if random.Err? {
      return Err(InvalidHandshake);
    }
    var sidLen := buf.ReadU8();
    if sidLen.Err? {
      return Err(InvalidHandshake);
    }
    if sidLen.value > 32 {
      return Err(InvalidSessionIdLength);
    }
    var sid := buf.Slice(sidLen.value);
    if sid.Err? {
      return Err(InvalidHandshake);
    }
    r := Ok((bodyLen.value, version.value, random.value, sid.value));
  }

  /** The part of `ClientHelloRef::parse` before the extensions. */
  method ParseFields(buf: ParseBuffer) returns (r: Result<(Fields, nat), TlsError>)
    requires buf.pos == 0
    modifies buf
    ensures buf.Valid()
    ensures match GetFields(buf.buffer)
            case Ok(g) => r == Ok(g.v) && buf.Rest() == g.rest
            case Err(e) => r == Err(e)
  {
    var head := ParseHead(buf);
    if head.Err? {
      return Err(head.error);
    }
    var (bodyLen, version, random, sid) := head.value;
    var lists := ParseLists(buf);
    if lists.Err? {
      return Err(lists.error);
    }
    r := Ok((Fields(version, random, sid, lists.value.0, lists.value.1), bodyLen));
  }

  /** cipher_suites and legacy_compression_methods. */
  method ParseLists(buf: ParseBuffer) returns (r: Result<(bytes, bytes), TlsError>)
    requires buf.Valid()
    modifies buf
    ensures buf.Valid()
    ensures match GetLists(old(buf.Rest()))
            case Some(g) => r == Ok(g.v) && buf.Rest() == g.rest
            case None => r == Err(InvalidHandshake)
  {
    ghost var b, at := buf.buffer, buf.pos;
    var suitesLen := buf.ReadU16();
    if suitesLen.Err? || suitesLen.value < 2 || suitesLen.value % 2 != 0 {
      return Err(InvalidHandshake);
    }
    var suites := buf.Slice(suitesLen.value);
    if suites.Err? {
      return Err(InvalidHandshake);
    }
    var compLen := buf.ReadU8();
    if compLen.Err? || compLen.value < 1 {
      return Err(InvalidHandshake);
    }
    var comp := buf.Slice(compLen.value);
    if comp.Err? {
      return Err(InvalidHandshake);
    }
    ListsAt(b, at, suitesLen.value, compLen.value);
    r := Ok((suites.value, comp.value));
  }

  /** Where the two lists lie in the message, `n` and `k` being their lengths. */
  lemma {:induction false} ListsAt(b: bytes, at: nat, n: nat, k: byte)
    requires at + 3 + n + k <= |b| && n == FromU16(b[at], b[at + 1]) && k == b[at + 2 + n]
    requires n >= 2 && n % 2 == 0 && k >= 1
    ensures GetLists(b[at..])
         == Some(Got((b[at + 2..at + 2 + n], b[at + 3 + n..at + 3 + n + k]), b[at + 3 + n + k..]))
  {
    SliceOfTail(b, at, 2, 2 + n);
    SliceOfTail(b, at, 3 + n, 3 + n + k);
  }

  /** `psk_indices`: how many pre_shared_key extensions there are, and where the first is. */
  method FindPsks(exts: seq<ClientExt>) returns (count: nat, first: nat)
    ensures count > 1 || (count == 1 && first != |exts| - 1) <==> PskMisplaced(exts)
    ensures count > 0 ==> first < |exts| && exts[first].PreSharedKey?
    ensures count == 0 ==> forall i :: 0 <= i < |exts| ==> !exts[i].PreSharedKey?
  {
    count, first := 0, 0;
    for i := 0 to |exts|
      invariant count > 0 ==> first < i && exts[first].PreSharedKey?
      invariant count > 0 ==> forall k :: 0 <= k < first ==> !exts[k].PreSharedKey?
      invariant count == 0 ==> forall k :: 0 <= k < i ==> !exts[k].PreSharedKey?
      invariant count == 1 ==> forall k :: first < k < i ==> !exts[k].PreSharedKey?
      invariant count > 1 ==> exists k :: first < k < i && exts[k].PreSharedKey?
    {
      if exts[i].PreSharedKey? {
        if count == 0 {
          first := i;
        }
        count := count + 1;
      }
    }
    assert count > 0 && first < |exts| - 1 ==> PskMisplaced(exts);
  }

  /** The `wire_len` loop: 2 bytes for the list length, 1 + length for each binder. */
  method WireLen(binders: seq<bytes>) returns (n: nat)
    ensures n == |BinderSection(binders)|
  {
    n := 2;
    for i := 0 to |binders|
      invariant n + |EncodeAll(EncodeBinder, binders[i..])| == |BinderSection(binders)|
    {
      assert binders[i..][0] == binders[i] && binders[i..][1..] == binders[i + 1..];
      n := n + 1 + |binders[i]|;
    }
  }

  method FindBoundary(exts: seq<ClientExt>, total: nat) returns (r: Result<nat, TlsError>)
    ensures r == Boundary(exts, total)
  {
    var count, first := FindPsks(exts);
    if count > 1 {
      return Err(Abort(ILLEGAL_PARAMETER));
    }
    if count == 0 {
      return Ok(total);
    }
    if first != |exts| - 1 {
      return Err(Abort(ILLEGAL_PARAMETER));
    }
    var wireLen := WireLen(exts[first].psks.binders);
    if wireLen > total {
      return Err(InvalidHandshake);
    }
    return Ok(total - wireLen);
  }

  /** The part of `ClientHelloRef::parse` after the fields: the extensions, then the binder boundary. */
  method ParseExtensions(buf: ParseBuffer, f: Fields, total: nat) returns (r: Result<Got<Hello>, TlsError>)
    requires buf.Valid()
    modifies buf
    ensures match GetVector(ClientBody, MAX_EXTENSIONS, old(buf.Rest()))
            case Err(e) => r == Err(e)
            case Ok(g) => r == WithExtensions(f, total, |buf.buffer|, g)
  {
    ghost var rest := buf.Rest();
    var exts := ParseVector(buf, ClientBody, MAX_EXTENSIONS);
    if exts.Err? {
      return Err(exts.error);
    }
    if buf.pos != total {
      return Err(InvalidHandshake);
    }
    var at := FindBoundary(exts.value, total);
    if at.Err? {
      return Err(at.error);
    }
    return Ok(Got(Hello(f, exts.value, at.value), buf.Rest()));
  }

  /** `ClientHelloRef::parse` on a whole message. */
  method Parse(m: bytes) returns (r: Result<Got<Hello>, TlsError>)
    ensures r == GetHello(m)
  {
    var buf := new ParseBuffer(m);
    var head := ParseFields(buf);
    if head.Err? {
      return Err(head.error);
    }
    r := ParseExtensions(buf, head.value.0, 4 + head.value.1);
  }

  // --- Canonical messages ---

  predicate WireFields(f: Fields) {
    && f.version < 65536 && |f.random| == 32 && |f.sessionId| <= 32
    && 2 <= |f.suites| < 65536 && |f.suites| % 2 == 0
    && 1 <= |f.compression| < 256
  }

  function EncodeLists(suites: bytes, compression: bytes): bytes {
    U16(|suites|) + suites + [|compression| % 256] + compression
  }

  function EncodeFields(f: Fields): bytes {
    U16(f.version) + f.random + [|f.sessionId| % 256] + f.sessionId + EncodeLists(f.suites, f.compression)
  }

  /** A ClientHello with these fields and this framed extension list. */
  function EncodeHello(f: Fields, xs: seq<Raw>): bytes {
    Message(CLIENT_HELLO, EncodeFields(f) + Prefixed(EncodeAll(EncodeRaw, xs)))
  }

  lemma {:induction false} ListsOfEncoded(suites: bytes, compression: bytes, rest: bytes)
    requires 2 <= |suites| < 65536 && |suites| % 2 == 0 && 1 <= |compression| < 256
    ensures GetLists(EncodeLists(suites, compression) + rest) == Some(Got((suites, compression), rest))
  {
    var s := EncodeLists(suites, compression) + rest;
    var p := 2 + |suites|;
    U16Read(|suites|);
    assert s[2..p] == suites && s[p + 1..p + 1 + |compression|] == compression;
    assert s[p + 1 + |compression|..] == rest;
  }

  /** The length read from a handshake header, whatever was written there. */
  function Announced(n: nat): nat { FromU24(U24(n)[0], U24(n)[1], U24(n)[2]) }

  /** The parts of a ClientHello, one after another. */
  predicate Laid(m: bytes, u: bytes, v: bytes, random: bytes, sid: bytes, lists: bytes) {
    var p := 39 + |sid|;
    && |m| == p + |lists| && m[0] == CLIENT_HELLO && m[1..4] == u && m[4..6] == v && m[6..38] == random
    && m[38] == |sid| && m[39..p] == sid && m[p..] == lists
  }

  lemma {:induction false} HeadLayout(u: bytes, v: bytes, random: bytes, k: byte, sid: bytes, lists: bytes)
    requires |u| == 3 && |v| == 2 && |random| == 32 && k == |sid|
    ensures Laid([CLIENT_HELLO] + u + v + random + [k] + sid + lists, u, v, random, sid, lists)
  {
  }

  lemma {:induction false} FieldsFrom(m: bytes, f: Fields, n: nat, lists: bytes, rest: bytes)
    requires WireFields(f) && GetLists(lists) == Some(Got((f.suites, f.compression), rest))
    requires Laid(m, U24(n), U16(f.version), f.random, f.sessionId, lists)
    ensures GetFields(m) == Ok(Got((f, Announced(n)), rest))
  {
    assert m[1] == m[1..4][0] && m[2] == m[1..4][1] && m[3] == m[1..4][2] && m[4] == m[4..6][0] && m[5] == m[4..6][1];
    U16Read(f.version);
  }

  lemma {:induction false} FieldsOfEncoded(f: Fields, n: nat, rest: bytes)
    requires WireFields(f)
    ensures GetFields([CLIENT_HELLO] + U24(n) + EncodeFields(f) + rest) == Ok(Got((f, Announced(n)), rest))
  {
    var lists, k := EncodeLists(f.suites, f.compression), |f.sessionId| % 256;
    FieldsRegrouped([CLIENT_HELLO] + U24(n), U16(f.version), f.random, [k], f.sessionId, lists, rest);
    HeadLayout(U24(n), U16(f.version), f.random, k, f.sessionId, lists + rest);
    ListsOfEncoded(f.suites, f.compression, rest);
    FieldsFrom([CLIENT_HELLO] + U24(n) + EncodeFields(f) + rest, f, n, lists + rest, rest);
  }

  lemma {:induction false} FieldsRegrouped(a: bytes, b: bytes, c: bytes, d: bytes, e: bytes, l: bytes, rest: bytes)
    ensures a + (b + c + d + e + l) + rest == a + b + c + d + e + (l + rest)
  {
    assert a + (b + c + d + e + l) == a + b + c + d + e + l;
  }

  lemma {:induction false} FieldsOfHello(f: Fields, xs: seq<Raw>)
    requires WireFields(f)
    ensures var m, list := EncodeHello(f, xs), EncodeAll(EncodeRaw, xs);
            && |m| == 6 + |EncodeFields(f)| + |list| && |EncodeFields(f)| < 70000
            && GetFields(m) == Ok(Got((f, Announced(|m| - 4)), Prefixed(list)))
  {
    var list := EncodeAll(EncodeRaw, xs);
    var n := |EncodeFields(f) + Prefixed(list)|;
    Assoc([CLIENT_HELLO] + U24(n), EncodeFields(f), Prefixed(list));
    FieldsOfEncoded(f, n, Prefixed(list));
  }

  /** What a message of `total` bytes parses to once its extension list has. */
  function Parsed(f: Fields, exts: Result<seq<ClientExt>, TlsError>, total: nat): Result<Got<Hello>, TlsError> {
    match exts
    case Err(e) => Err(e)
    case Ok(list) =>
      match Boundary(list, total)
      case Err(e) => Err(e)
      case Ok(at) => Ok(Got(Hello(f, list, at), []))
  }

  lemma {:induction false} ParsedFrom(
    m: bytes, f: Fields, bodyLen: nat, rest: bytes, exts: Result<seq<ClientExt>, TlsError>)
    requires GetFields(m) == Ok(Got((f, bodyLen), rest)) && |m| == 4 + bodyLen
    requires match exts
             case Ok(es) => GetVector(ClientBody, MAX_EXTENSIONS, rest) == Ok(Got(es, []))
             case Err(e) => GetVector(ClientBody, MAX_EXTENSIONS, rest) == Err(e)
    ensures GetHello(m) == Parsed(f, exts, |m|)
  {
  }

  /** Every canonical ClientHello parses to its fields and extensions, with nothing left over. */
  lemma {:induction false} HelloRoundTrip(f: Fields, xs: seq<Raw>)
    requires WireFields(f)
    requires forall i :: 0 <= i < |xs| ==> WireRaw(xs[i])
    requires |EncodeAll(EncodeRaw, xs)| < 65536
    ensures GetHello(EncodeHello(f, xs)) == Parsed(f, Collect(ClientBody, MAX_EXTENSIONS, xs), |EncodeHello(f, xs)|)
  {
    var m, list := EncodeHello(f, xs), EncodeAll(EncodeRaw, xs);
    FieldsOfHello(f, xs);
    U24Read(|m| - 4);
    VectorOfEncoded(ClientBody, MAX_EXTENSIONS, xs);
    ParsedFrom(m, f, |m| - 4, Prefixed(list), Collect(ClientBody, MAX_EXTENSIONS, xs));
  }

  /** The same for a list that is known to be read as `exts`. */
  lemma {:induction false} HelloReadAs(f: Fields, xs: seq<Raw>, exts: seq<ClientExt>, at: nat)
    requires WireFields(f) && (forall i :: 0 <= i < |xs| ==> WireRaw(xs[i])) && |EncodeAll(EncodeRaw, xs)| < 65536
    requires Collect(ClientBody, MAX_EXTENSIONS, xs) == Ok(exts) && Boundary(exts, |EncodeHello(f, xs)|) == Ok(at)
    ensures GetHello(EncodeHello(f, xs)) == Ok(Got(Hello(f, exts, at), []))
  {
    HelloRoundTrip(f, xs);
  }

  lemma {:induction false} HelloExtensions(f: Fields, xs: seq<Raw>)
    requires WireFields(f) && (forall i :: 0 <= i < |xs| ==> WireRaw(xs[i])) && |EncodeAll(EncodeRaw, xs)| < 65536
    ensures var r, exts := GetHello(EncodeHello(f, xs)), Collect(ClientBody, MAX_EXTENSIONS, xs);
            r.Ok? ==> exts.Ok? && r.value.v.exts == exts.value
  {
    HelloRoundTrip(f, xs);
  }

  /** A list longer than its 16-bit length is never read to its end. */
  lemma {:induction false} LongListRefused(f: Fields, xs: seq<Raw>)
    requires WireFields(f) && |EncodeAll(EncodeRaw, xs)| >= 65536
    ensures GetHello(EncodeHello(f, xs)).Ok? ==> GetHello(EncodeHello(f, xs)).value.rest != []
  {
    FieldsOfHello(f, xs);
    LongVector(ClientBody, MAX_EXTENSIONS, EncodeAll(EncodeRaw, xs));
  }

  lemma {:induction false} LongVector<E>(body: (nat, bytes) -> Result<E, TlsError>, room: nat, list: bytes)
    requires |list| >= 65536
    ensures GetVector(body, room, Prefixed(list)).Ok? ==> GetVector(body, room, Prefixed(list)).value.rest != []
  {
    U16Cut(|list|);
  }

  // --- Where the binders really start ---

  predicate OffersPsk(exts: seq<ClientExt>) { exts != [] && exts[|exts| - 1].PreSharedKey? }

  function OfferedBinders(exts: seq<ClientExt>): seq<bytes>
    requires OffersPsk(exts)
  {
    exts[|exts| - 1].psks.binders
  }

  /** Bytes on the wire after the binder list: unread extension data and skipped extensions. */
  function Trailing(xs: seq<Raw>): nat {
    if xs == [] then 0
    else if xs[0].kind == PRE_SHARED_KEY && GetPsks(xs[0].data).Some?
    then |GetPsks(xs[0].data).value.rest| + |EncodeAll(EncodeRaw, xs[1..])|
    else Trailing(xs[1..])
  }

  /** All that the argument below needs to know about the extension parsers. */
  ghost predicate PskAware(body: (nat, bytes) -> Result<ClientExt, TlsError>) {
    forall t: nat, d: bytes ::
      && (body(t, d).Ok? ==> (body(t, d).value.PreSharedKey? <==> t == PRE_SHARED_KEY && GetPsks(d).Some?))
      && (body(t, d).Ok? && body(t, d).value.PreSharedKey? ==> body(t, d).value.psks == GetPsks(d).value.v)
      && (body(t, d) == Err(UnknownExtensionType) ==> t != PRE_SHARED_KEY)
  }

  lemma {:induction false} PskInRaw(x: Raw) returns (pre: bytes)
    requires GetPsks(x.data).Some?
    ensures var g := GetPsks(x.data).value; EncodeRaw(x) == pre + BinderSection(g.v.binders) + g.rest
  {
    PsksSound(x.data);
    var g := GetPsks(x.data).value;
    var k := |x.data| - |BinderSection(g.v.binders)| - |g.rest|;
    pre := U16(x.kind) + U16(|x.data|) + x.data[..k];
    assert x.data == x.data[..k] + (BinderSection(g.v.binders) + g.rest);
  }

  lemma {:induction false} MisplacedTail(e: ClientExt, more: seq<ClientExt>)
    ensures !PskMisplaced([e] + more) ==> !PskMisplaced(more)
    ensures !PskMisplaced([e] + more) && e.PreSharedKey? ==> more == []
  {
    var exts := [e] + more;
    if PskMisplaced(more) {
      var i :| 0 <= i < |more| - 1 && more[i].PreSharedKey?;
      assert exts[i + 1].PreSharedKey?;
    }
    assert exts[0] == e;
  }

  lemma {:induction false} Regroup(a: bytes, b: bytes, c: bytes, d: bytes)
    ensures a + b + c + d == a + b + (c + d)
    ensures a + (b + c + d) == a + b + c + d
  {
  }

  lemma {:induction false} PskInList(body: (nat, bytes) -> Result<ClientExt, TlsError>, room: nat, xs: seq<Raw>)
    returns (pre: bytes, post: bytes)
    requires PskAware(body)
    requires Collect(body, room, xs).Ok?
    requires var exts := Collect(body, room, xs).value; OffersPsk(exts) && !PskMisplaced(exts)
    ensures EncodeAll(EncodeRaw, xs) == pre + BinderSection(OfferedBinders(Collect(body, room, xs).value)) + post
    ensures |post| == Trailing(xs)
    decreases |xs|
  {
    var x, tail := xs[0], xs[1..];
    var exts := Collect(body, room, xs).value;
    if body(x.kind, x.data).Ok? {
      var e, more := body(x.kind, x.data).value, Collect(body, room - 1, tail).value;
      MisplacedTail(e, more);
      if e.PreSharedKey? {
        pre := PskInRaw(x);
        post := GetPsks(x.data).value.rest + EncodeAll(EncodeRaw, tail);
        Regroup(pre, BinderSection(e.psks.binders), GetPsks(x.data).value.rest, EncodeAll(EncodeRaw, tail));
        return;
      }
      assert more[|more| - 1] == exts[|exts| - 1];
      pre, post := PskInList(body, room - 1, tail);
    } else {
      pre, post := PskInList(body, room, tail);
    }
    Regroup(EncodeRaw(x), pre, BinderSection(OfferedBinders(exts)), post);
    pre := EncodeRaw(x) + pre;
  }

  lemma {:induction false} ClientBodyPskAware()
    ensures PskAware(ClientBody)
  {
  }

  lemma {:induction false} SliceBeforeEnd(m: bytes, a: bytes, b: bytes, c: bytes)
    requires |a + b + c| <= |m| && m[|m| - |a + b + c|..] == a + b + c
    ensures m[|m| - |c| - |b|..|m| - |c|] == b
  {
    var k := |m| - |a + b + c|;
    assert m[k..][|a|..|a| + |b|] == b;
  }

  lemma {:induction false} HelloExts(m: bytes) returns (xs: seq<Raw>)
    requires GetHello(m).Ok? && GetHello(m).value.rest == []
    ensures Collect(ClientBody, MAX_EXTENSIONS, xs) == Ok(GetHello(m).value.v.exts)
    ensures var list := EncodeAll(EncodeRaw, xs); |list| <= |m| && m[|m| - |list|..] == list
    ensures var h := GetHello(m).value.v; !PskMisplaced(h.exts) && h.bindersAt == |m| - BinderBytes(h.exts)
  {
    var rest := GetFields(m).value.rest;
    xs := VectorIsEncoded(ClientBody, MAX_EXTENSIONS, rest);
  }

  lemma {:induction false} BindersOnWire(m: bytes, exts: seq<ClientExt>, xs: seq<Raw>)
    requires Collect(ClientBody, MAX_EXTENSIONS, xs) == Ok(exts) && OffersPsk(exts) && !PskMisplaced(exts)
    requires var list := EncodeAll(EncodeRaw, xs); |list| <= |m| && m[|m| - |list|..] == list
    ensures var n := |BinderSection(OfferedBinders(exts))|;
            && n + Trailing(xs) <= |m|
            && m[|m| - Trailing(xs) - n..|m| - Trailing(xs)] == BinderSection(OfferedBinders(exts))
  {
    ClientBodyPskAware();
    var pre, post := PskInList(ClientBody, MAX_EXTENSIONS, xs);
    SliceBeforeEnd(m, pre, BinderSection(OfferedBinders(exts)), post);
  }

  /**
   * Where an accepted message's binder list lies on the wire (`start`), and what the
   * parser computes instead: it is right exactly when nothing follows the list.
   */
  lemma {:induction false} BinderBoundary(m: bytes) returns (xs: seq<Raw>, start: nat)
    requires GetHello(m).Ok? && GetHello(m).value.rest == [] && OffersPsk(GetHello(m).value.v.exts)
    ensures Collect(ClientBody, MAX_EXTENSIONS, xs) == Ok(GetHello(m).value.v.exts)
    ensures var section := BinderSection(OfferedBinders(GetHello(m).value.v.exts));
            && start + |section| + Trailing(xs) == |m|
            && m[start..start + |section|] == section
    ensures GetHello(m).value.v.bindersAt == start + Trailing(xs)
    ensures GetHello(m).value.v.bindersAt == start <==> Trailing(xs) == 0
  {
    xs := HelloExts(m);
    start := BoundaryOf(m, GetHello(m).value.v.exts, GetHello(m).value.v.bindersAt, xs);
  }

  lemma {:induction false} BoundaryOf(m: bytes, exts: seq<ClientExt>, at: nat, xs: seq<Raw>) returns (start: nat)
    requires Collect(ClientBody, MAX_EXTENSIONS, xs) == Ok(exts) && OffersPsk(exts) && !PskMisplaced(exts)
    requires var list := EncodeAll(EncodeRaw, xs); |list| <= |m| && m[|m| - |list|..] == list
    requires at == |m| - BinderBytes(exts)
    ensures var section := BinderSection(OfferedBinders(exts));
            && start + |section| + Trailing(xs) == |m|
            && m[start..start + |section|] == section
    ensures at == start + Trailing(xs)
  {
    BindersOnWire(m, exts, xs);
    start := |m| - Trailing(xs) - |BinderSection(OfferedBinders(exts))|;
  }
}
