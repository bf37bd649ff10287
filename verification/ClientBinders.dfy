/** The client's binders (`ClientHello::finalize`) against the server's check. */
module ClientBinders {
  import opened Basics
  import opened Crypto
  import opened KeySchedules
  import opened ParseBuffers
  import opened PreSharedKeys
  import opened Extensions
  import opened ClientHellos

  const BINDER_ENTRY: nat := 1 + HASH_LEN

  function Repeat(b: bytes, n: nat): (r: seq<bytes>)
    ensures |r| == n && forall i :: 0 <= i < n ==> r[i] == b
  {
    seq(n, _ => b)
  }

  /** Everything up to and including the header of the last extension, whose data is `n` bytes. */
  function BeforeLast(f: Fields, xs: seq<Raw>, kind: nat, n: nat): bytes {
    var list := EncodeAll(EncodeRaw, xs);
    [CLIENT_HELLO] + U24(|EncodeFields(f)| + 6 + |list| + n)
    + EncodeFields(f) + U16(|list| + 4 + n) + list + (U16(kind) + U16(n))
  }

  lemma {:induction false} Flatten(a: bytes, b: bytes, c: bytes, d: bytes, e: bytes, data: bytes)
    ensures a + (b + (c + (d + (e + data)))) == a + b + c + d + e + data
  {
  }

  lemma {:induction false} LastDataAtEnd(f: Fields, xs: seq<Raw>, x: Raw)
    ensures EncodeHello(f, xs + [x]) == BeforeLast(f, xs, x.kind, |x.data|) + x.data
  {
    EncodeAllAppend(EncodeRaw, xs, x);
    var list := EncodeAll(EncodeRaw, xs);
    Flatten([CLIENT_HELLO] + U24(|EncodeFields(f)| + 6 + |list| + |x.data|), EncodeFields(f),
            U16(|list| + 4 + |x.data|), list, U16(x.kind) + U16(|x.data|), x.data);
  }

  /** The part of the message the binders cover: all of it but the binder section. */
  function Covered(f: Fields, xs: seq<Raw>, ids: seq<bytes>): bytes {
    var idList := Prefixed(EncodeAll(EncodeIdentity, ids));
    BeforeLast(f, xs, PRE_SHARED_KEY, |idList| + 2 + BINDER_ENTRY * |ids|) + idList
  }

  /** A ClientHello whose last extension offers `ids` with these binders. */
  function HelloWithPsks(f: Fields, xs: seq<Raw>, ids: seq<bytes>, binders: seq<bytes>): bytes {
    EncodeHello(f, xs + [PskRaw(ids, binders)])
  }

  /** The same message as `encode` leaves it: zero bytes where the binders go. */
  function HelloToFinalize(f: Fields, xs: seq<Raw>, ids: seq<bytes>): bytes {
    var data := Prefixed(EncodeAll(EncodeIdentity, ids)) + U16(BINDER_ENTRY * |ids|) + Zeros(BINDER_ENTRY * |ids|);
    EncodeHello(f, xs + [Raw(PRE_SHARED_KEY, data)])
  }

  lemma {:induction false} SectionLen(binder: bytes, n: nat)
    requires |binder| == HASH_LEN
    ensures |EncodeAll(EncodeBinder, Repeat(binder, n))| == BINDER_ENTRY * n
  {
    EncodeAllLen(EncodeBinder, Repeat(binder, n), BINDER_ENTRY);
  }

  lemma {:induction false} CoveredThen(f: Fields, xs: seq<Raw>, ids: seq<bytes>, section: bytes)
    requires |section| == 2 + BINDER_ENTRY * |ids|
    ensures var data := Prefixed(EncodeAll(EncodeIdentity, ids)) + section;
            EncodeHello(f, xs + [Raw(PRE_SHARED_KEY, data)]) == Covered(f, xs, ids) + section
  {
    var idList := Prefixed(EncodeAll(EncodeIdentity, ids));
    LastDataAtEnd(f, xs, Raw(PRE_SHARED_KEY, idList + section));
    var start := BeforeLast(f, xs, PRE_SHARED_KEY, |idList| + 2 + BINDER_ENTRY * |ids|);
    Assoc(start, idList, section);
  }

  lemma {:induction false} CoveredThenBinders(f: Fields, xs: seq<Raw>, ids: seq<bytes>, binder: bytes)
    requires |binder| == HASH_LEN
    ensures HelloWithPsks(f, xs, ids, Repeat(binder, |ids|))
         == Covered(f, xs, ids) + BinderSection(Repeat(binder, |ids|))
  {
    SectionLen(binder, |ids|);
    CoveredThen(f, xs, ids, BinderSection(Repeat(binder, |ids|)));
  }

  lemma {:induction false} CoveredThenZeros(f: Fields, xs: seq<Raw>, ids: seq<bytes>)
    ensures HelloToFinalize(f, xs, ids)
         == Covered(f, xs, ids) + (U16(BINDER_ENTRY * |ids|) + Zeros(BINDER_ENTRY * |ids|))
  {
    var idList := Prefixed(EncodeAll(EncodeIdentity, ids));
    var n := BINDER_ENTRY * |ids|;
    CoveredThen(f, xs, ids, U16(n) + Zeros(n));
    Assoc(idList, U16(n), Zeros(n));
  }

  /** The buffer with the first `i` binders written at `at`. */
  function WithBinders(before: bytes, at: nat, binder: bytes, i: nat): bytes
    requires |binder| == HASH_LEN && at + BINDER_ENTRY * i <= |before|
  {
    before[..at] + EncodeAll(EncodeBinder, Repeat(binder, i)) + before[at + BINDER_ENTRY * i..]
  }

  lemma {:induction false} OneMoreBinder(before: bytes, at: nat, binder: bytes, i: nat)
    requires |binder| == HASH_LEN && at + BINDER_ENTRY * (i + 1) <= |before|
    ensures var now, p := WithBinders(before, at, binder, i), at + BINDER_ENTRY * i;
            && |now| == |before|
            && now[..p] + EncodeBinder(binder) + now[p + BINDER_ENTRY..] == WithBinders(before, at, binder, i + 1)
  {
    var written := EncodeAll(EncodeBinder, Repeat(binder, i));
    SectionLen(binder, i);
    EncodeAllAppend(EncodeBinder, Repeat(binder, i), binder);
    assert Repeat(binder, i + 1) == Repeat(binder, i) + [binder];
    var now, p := WithBinders(before, at, binder, i), at + BINDER_ENTRY * i;
    assert now[..p] == before[..at] + written;
    assert now[p + BINDER_ENTRY..] == before[p + BINDER_ENTRY..];
    Assoc(before[..at], written, EncodeBinder(binder));
  }

  /** The loop of `finalize`: one binder per identity, all over the same transcript. */
  method WriteBinders(enc: array<byte>, at: nat, n: nat, ks: KeySchedule) returns (r: Result<(), TlsError>)
    requires at + BINDER_ENTRY * n == enc.Length
    modifies enc
    ensures ks.binderKey.Some? ==>
      var binder := FinishedMac(ks.c, ks.binderKey.value, ks.transcript);
      r.Ok? && enc[..] == old(enc[..])[..at] + EncodeAll(EncodeBinder, Repeat(binder, n))
    ensures ks.binderKey.None? && n > 0 ==> r.Err?
    ensures enc[..at] == old(enc[..])[..at]
  {
    ghost var before := enc[..];
    ghost var binder :=
      if ks.binderKey.Some? then FinishedMac(ks.c, ks.binderKey.value, ks.transcript) else Zeros(HASH_LEN);
    for i := 0 to n
      invariant enc[..] == WithBinders(before, at, binder, i)
      invariant i > 0 ==> ks.binderKey.Some?
    {
      OneMoreBinder(before, at, binder, i);
      var created :- ks.CreatePskBinder(ks.transcript);
      CopyInto(enc, at + BINDER_ENTRY * i, [|created| % 256] + created);
    }
    return Ok(());
  }

  /**
   * An encoded message with its `n` placeholders filled: each binder is the MAC over `base` and what precedes
   * the list.
   */
  function FinalizedBytes(c: Crypto, key: Term, base: bytes, own: bytes, n: nat): bytes
    requires 2 + BINDER_ENTRY * n <= |own|
  {
    var at := |own| - BINDER_ENTRY * n;
    own[..at] + EncodeAll(EncodeBinder, Repeat(FinishedMac(c, key, base + own[..at - 2]), n))
  }

  /**
   * `ClientHello::finalize` with a PSK: hashes the message up to the binder list,
   * writes one binder per identity over the placeholder, then hashes the rest.
   */
  method FinalizePsk(enc: array<byte>, n: nat, ks: KeySchedule) returns (r: Result<(), TlsError>)
    requires 2 + BINDER_ENTRY * n <= enc.Length
    modifies enc, ks`transcript
    ensures ks.binderKey.Some? ==>
      r.Ok? && enc[..] == FinalizedBytes(ks.c, ks.binderKey.value, old(ks.transcript), old(enc[..]), n)
    ensures r.Ok? ==> ks.transcript == old(ks.transcript) + enc[..]
  {
    var at := enc.Length - BINDER_ENTRY * n;
    ghost var covered := enc[..at - 2];
    ks.UpdateTranscript(enc[..at - 2]);
    assert covered == old(enc[..])[..at - 2] == old(enc[..])[..at][..at - 2];
    r := WriteBinders(enc, at, n, ks);
    if r.Ok? {
      ghost var rest := enc[at - 2..];
      ks.UpdateTranscript(enc[at - 2..]);
      assert enc[..] == covered + rest by {
        assert enc[..at][..at - 2] == enc[..at - 2];
      }
      Assoc(old(ks.transcript), covered, rest);
    }
  }

  /** `ClientHello::finalize`. */
  method Finalize(enc: array<byte>, identities: Option<nat>, ks: KeySchedule) returns (r: Result<(), TlsError>)
    requires identities.Some? ==> 2 + BINDER_ENTRY * identities.value <= enc.Length
    modifies enc, ks`transcript
    ensures identities.None? ==> r.Ok? && enc[..] == old(enc[..])
    ensures identities.Some? && ks.binderKey.Some? ==>
      r.Ok? && enc[..] == FinalizedBytes(ks.c, ks.binderKey.value, old(ks.transcript), old(enc[..]), identities.value)
    ensures r.Ok? ==> ks.transcript == old(ks.transcript) + enc[..]
  {
    if identities.Some? {
      r := FinalizePsk(enc, identities.value, ks);
    } else {
      ks.UpdateTranscript(enc[..]);
      r := Ok(());
    }
  }

  lemma {:induction false} CutTail(a: bytes, b: bytes, c: bytes)
    ensures var s := a + (b + c); s[..|s| - |c|] == a + b && s[..|s| - |c| - |b|] == a
  {
  }

  lemma {:induction false} BeforeZeros(f: Fields, xs: seq<Raw>, ids: seq<bytes>)
    ensures var m, k := HelloToFinalize(f, xs, ids), BINDER_ENTRY * |ids|;
            && k + 2 <= |m| && m[..|m| - k - 2] == Covered(f, xs, ids)
            && m[..|m| - k] == Covered(f, xs, ids) + U16(k)
  {
    CoveredThenZeros(f, xs, ids);
    CutTail(Covered(f, xs, ids), U16(BINDER_ENTRY * |ids|), Zeros(BINDER_ENTRY * |ids|));
  }

  /** What `finalize` leaves in the buffer is the canonical message with those binders. */
  lemma {:induction false} FinalizedIsCanonical(f: Fields, xs: seq<Raw>, ids: seq<bytes>, binder: bytes)
    requires |binder| == HASH_LEN
    ensures var m, n := HelloToFinalize(f, xs, ids), |ids|;
            var at := |m| - BINDER_ENTRY * n;
            && at >= 2
            && m[..at - 2] == Covered(f, xs, ids)
            && m[..at] + EncodeAll(EncodeBinder, Repeat(binder, n)) == HelloWithPsks(f, xs, ids, Repeat(binder, n))
  {
    BeforeZeros(f, xs, ids);
    CoveredThenBinders(f, xs, ids, binder);
    SectionLen(binder, |ids|);
    Assoc(Covered(f, xs, ids), U16(BINDER_ENTRY * |ids|), EncodeAll(EncodeBinder, Repeat(binder, |ids|)));
  }

  /** A message the client can encode: well-formed fields, parseable extensions, 1 to 4 identities. */
  predicate CanOffer(f: Fields, xs: seq<Raw>, ids: seq<bytes>) {
    && WireFields(f)
    && (forall i :: 0 <= i < |xs| ==> WireRaw(xs[i]))
    && 1 <= |ids| <= MAX_PSKS
    && (forall i :: 0 <= i < |ids| ==> 1 <= |ids[i]| < 65536)
    && |EncodeAll(EncodeRaw, xs)| + |EncodeAll(EncodeIdentity, ids)| + 8 + BINDER_ENTRY * |ids| < 65536
    && Collect(ClientBody, MAX_EXTENSIONS, xs).Ok?
    && var exts := Collect(ClientBody, MAX_EXTENSIONS, xs).value;
       |exts| < MAX_EXTENSIONS && forall i :: 0 <= i < |exts| ==> !exts[i].PreSharedKey?
  }

  function PskRaw(ids: seq<bytes>, binders: seq<bytes>): Raw { Raw(PRE_SHARED_KEY, EncodePsks(ids, binders)) }

  lemma {:induction false} PskRawParses(ids: seq<bytes>, binder: bytes)
    requires 1 <= |ids| <= MAX_PSKS && |binder| == HASH_LEN
    requires forall i :: 0 <= i < |ids| ==> 1 <= |ids[i]| < 65536
    requires |EncodeAll(EncodeIdentity, ids)| < 65536
    ensures var binders := Repeat(binder, |ids|);
            && ClientBody(PRE_SHARED_KEY, EncodePsks(ids, binders)) == Ok(PreSharedKey(Psks(ids, binders, HASH_LEN)))
            && |EncodePsks(ids, binders)| == |EncodeAll(EncodeIdentity, ids)| + 4 + BINDER_ENTRY * |ids|
  {
    var binders := Repeat(binder, |ids|);
    SectionLen(binder, |ids|);
    PsksRoundTrip(ids, binders, []);
    assert EncodePsks(ids, binders) + [] == EncodePsks(ids, binders);
  }

  /** The boundary once the list of extensions ends in `PreSharedKey(p)` and nowhere else holds one. */
  lemma {:induction false} BoundaryWithLast(exts: seq<ClientExt>, p: OfferedPsks, total: nat)
    requires forall i :: 0 <= i < |exts| ==> !exts[i].PreSharedKey?
    requires |BinderSection(p.binders)| <= total
    ensures Boundary(exts + [PreSharedKey(p)], total) == Ok(total - |BinderSection(p.binders)|)
  {
  }

  /** An extension the parser takes as the offer `p`, small enough to follow `xs`. */
  ghost predicate Acceptable(xs: seq<Raw>, x: Raw, p: OfferedPsks) {
    && WireRaw(x) && |EncodeAll(EncodeRaw, xs)| + 4 + |x.data| < 65536
    && ClientBody(x.kind, x.data) == Ok(PreSharedKey(p))
  }

  lemma {:induction false} OfferFits(f: Fields, xs: seq<Raw>, ids: seq<bytes>, binder: bytes)
    requires CanOffer(f, xs, ids) && |binder| == HASH_LEN
    ensures var binders := Repeat(binder, |ids|);
            && Acceptable(xs, PskRaw(ids, binders), Psks(ids, binders, HASH_LEN))
            && |EncodeHello(f, xs + [PskRaw(ids, binders)])| == |Covered(f, xs, ids)| + |BinderSection(binders)|
  {
    PskRawParses(ids, binder);
    CoveredThenBinders(f, xs, ids, binder);
  }

  lemma {:induction false} EndsInOffer(f: Fields, ys: seq<Raw>, exts: seq<ClientExt>, p: OfferedPsks, at: nat)
    requires WireFields(f) && (forall i :: 0 <= i < |ys| ==> WireRaw(ys[i])) && |EncodeAll(EncodeRaw, ys)| < 65536
    requires Collect(ClientBody, MAX_EXTENSIONS, ys) == Ok(exts + [PreSharedKey(p)])
    requires forall i :: 0 <= i < |exts| ==> !exts[i].PreSharedKey?
    requires |EncodeHello(f, ys)| == at + |BinderSection(p.binders)|
    ensures GetHello(EncodeHello(f, ys)) == Ok(Got(Hello(f, exts + [PreSharedKey(p)], at), []))
  {
    BoundaryWithLast(exts, p, |EncodeHello(f, ys)|);
    HelloReadAs(f, ys, exts + [PreSharedKey(p)], at);
  }

  /** A message parses with any acceptable pre_shared_key extension `x` put last. */
  lemma {:induction false} ParsesWithLast(f: Fields, xs: seq<Raw>, x: Raw, p: OfferedPsks, at: nat)
    requires WireFields(f) && (forall i :: 0 <= i < |xs| ==> WireRaw(xs[i])) && Acceptable(xs, x, p)
    requires Collect(ClientBody, MAX_EXTENSIONS, xs).Ok?
    requires var exts := Collect(ClientBody, MAX_EXTENSIONS, xs).value;
             |exts| < MAX_EXTENSIONS && forall i :: 0 <= i < |exts| ==> !exts[i].PreSharedKey?
    requires |EncodeHello(f, xs + [x])| == at + |BinderSection(p.binders)|
    ensures var exts := Collect(ClientBody, MAX_EXTENSIONS, xs).value + [PreSharedKey(p)];
            GetHello(EncodeHello(f, xs + [x])) == Ok(Got(Hello(f, exts, at), []))
  {
    var exts := Collect(ClientBody, MAX_EXTENSIONS, xs).value;
    FramedAppend(ClientBody, MAX_EXTENSIONS, xs, x);
    EndsInOffer(f, xs + [x], exts, p, at);
  }

  lemma {:induction false} OfferParses(f: Fields, xs: seq<Raw>, ids: seq<bytes>, binder: bytes)
    requires CanOffer(f, xs, ids) && |binder| == HASH_LEN
    ensures var binders := Repeat(binder, |ids|);
            var exts := Collect(ClientBody, MAX_EXTENSIONS, xs).value + [PreSharedKey(Psks(ids, binders, HASH_LEN))];
            GetHello(HelloWithPsks(f, xs, ids, binders)) == Ok(Got(Hello(f, exts, |Covered(f, xs, ids)|), []))
  {
    var binders := Repeat(binder, |ids|);
    OfferFits(f, xs, ids, binder);
    ParsesWithLast(f, xs, PskRaw(ids, binders), Psks(ids, binders, HASH_LEN), |Covered(f, xs, ids)|);
  }

  /**
   * Section 4.2.11.2 of RFC 8446: the server's binder boundary is where the client
   * stopped hashing, so a binder made with a PSK verifies on a server with that PSK,
   * whatever transcript (`base`) preceded the message.
   */
  lemma {:induction false} ClientBindersVerify(
    c: Crypto, binderKey: Term, base: bytes, f: Fields, xs: seq<Raw>, ids: seq<bytes>)
    requires CanOffer(f, xs, ids)
    ensures var binder := FinishedMac(c, binderKey, base + Covered(f, xs, ids));
            var m := HelloWithPsks(f, xs, ids, Repeat(binder, |ids|));
            && GetHello(m).Ok? && GetHello(m).value.rest == []
            && var h := GetHello(m).value.v;
               && OffersPsk(h.exts) && |OfferedBinders(h.exts)| == |ids|
               && forall i :: 0 <= i < |ids| ==>
                    BinderMatches(c, binderKey, base + m[..h.bindersAt], OfferedBinders(h.exts)[i])
  {
    var binder := FinishedMac(c, binderKey, base + Covered(f, xs, ids));
    OfferParses(f, xs, ids, binder);
    CoveredThenBinders(f, xs, ids, binder);
    var m := HelloWithPsks(f, xs, ids, Repeat(binder, |ids|));
    assert m[..|Covered(f, xs, ids)|] == Covered(f, xs, ids);
  }
}
