/** The binder boundary on a message that ends in an extension nobody knows. */
module BoundaryExample {
  import opened Basics
  import opened ParseBuffers
  import opened PreSharedKeys
  import opened Extensions
  import opened ClientHellos
  import opened ClientBinders

  const STRANGE: Raw := Raw(0x7777, [1])

  /** One identity and its binder, and then an extension of unknown type. */
  function StrangeHello(f: Fields): bytes {
    EncodeHello(f, [PskRaw([[1]], Repeat(Zeros(HASH_LEN), 1)), STRANGE])
  }

  lemma {:induction false} StrangeExts()
    ensures var psk := PskRaw([[1]], Repeat(Zeros(HASH_LEN), 1));
            && WireRaw(psk) && WireRaw(STRANGE) && |EncodeRaw(psk)| == 48 && |EncodeRaw(STRANGE)| == 5
            && ClientBody(psk.kind, psk.data) == Ok(PreSharedKey(Psks([[1]], Repeat(Zeros(HASH_LEN), 1), HASH_LEN)))
            && |BinderSection(Repeat(Zeros(HASH_LEN), 1))| == 35
            && GetPsks(psk.data) == Some(Got(Psks([[1]], Repeat(Zeros(HASH_LEN), 1), HASH_LEN), []))
  {
    var ids, binder: bytes := [[1]], Zeros(HASH_LEN);
    assert ids[1..] == [];
    assert |EncodeAll(EncodeIdentity, ids)| == 7;
    PskRawParses(ids, binder);
    SectionLen(binder, 1);
    PsksRoundTrip(ids, Repeat(binder, 1), []);
    assert EncodePsks(ids, Repeat(binder, 1)) + [] == EncodePsks(ids, Repeat(binder, 1));
  }

  /** A list of one known extension and one of unknown type. */
  lemma {:induction false} KnownThenStrange<E>(
    body: (nat, bytes) -> Result<E, TlsError>, room: nat, x: Raw, y: Raw, e: E)
    requires room > 0 && body(x.kind, x.data) == Ok(e) && body(y.kind, y.data) == Err(UnknownExtensionType)
    ensures Collect(body, room, [x, y]) == Ok([e])
    ensures |EncodeAll(EncodeRaw, [x, y])| == |EncodeRaw(x)| + |EncodeRaw(y)|
  {
    assert [x, y][1..] == [y] && [y][1..] == [];
    assert Collect(body, room - 1, [y]) == Collect(body, room - 1, []) == Ok([]);
    assert EncodeAll(EncodeRaw, [y]) == EncodeRaw(y) + EncodeAll(EncodeRaw, []);
  }

  lemma {:induction false} StrangeCollected()
    ensures var xs := [PskRaw([[1]], Repeat(Zeros(HASH_LEN), 1)), STRANGE];
            && Collect(ClientBody, MAX_EXTENSIONS, xs)
               == Ok([PreSharedKey(Psks([[1]], Repeat(Zeros(HASH_LEN), 1), HASH_LEN))])
            && |EncodeAll(EncodeRaw, xs)| == 53 && Trailing(xs) == 5
  {
    StrangeExts();
    var psk := PskRaw([[1]], Repeat(Zeros(HASH_LEN), 1));
    KnownThenStrange(ClientBody, MAX_EXTENSIONS, psk, STRANGE,
                     PreSharedKey(Psks([[1]], Repeat(Zeros(HASH_LEN), 1), HASH_LEN)));
    assert [psk, STRANGE][1..] == [STRANGE] && [STRANGE][1..] == [];
  }

  lemma {:induction false} ListEndsHello(f: Fields, xs: seq<Raw>)
    ensures var m, list := EncodeHello(f, xs), EncodeAll(EncodeRaw, xs);
            |list| <= |m| && m[|m| - |list|..] == list
  {
  }

  lemma {:induction false} BoundaryAlone(p: OfferedPsks, total: nat)
    requires |BinderSection(p.binders)| <= total
    ensures Boundary([PreSharedKey(p)], total) == Ok(total - |BinderSection(p.binders)|)
  {
  }

  /** What the parser reports when only the PSK extension is known. */
  lemma {:induction false} Reported(f: Fields, xs: seq<Raw>, p: OfferedPsks, at: nat)
    requires WireFields(f) && (forall i :: 0 <= i < |xs| ==> WireRaw(xs[i])) && |EncodeAll(EncodeRaw, xs)| < 65536
    requires Collect(ClientBody, MAX_EXTENSIONS, xs) == Ok([PreSharedKey(p)])
    requires |EncodeHello(f, xs)| == at + |BinderSection(p.binders)|
    ensures GetHello(EncodeHello(f, xs)) == Ok(Got(Hello(f, [PreSharedKey(p)], at), []))
  {
    BoundaryAlone(p, at + |BinderSection(p.binders)|);
    HelloReadAs(f, xs, [PreSharedKey(p)], at);
  }

  /** Where the binder list really is. */
  lemma {:induction false} Real(f: Fields, xs: seq<Raw>, p: OfferedPsks, at: nat)
    requires Collect(ClientBody, MAX_EXTENSIONS, xs) == Ok([PreSharedKey(p)])
    requires |EncodeHello(f, xs)| == at + |BinderSection(p.binders)|
    ensures var start := at - Trailing(xs);
            0 <= start && EncodeHello(f, xs)[start..start + |BinderSection(p.binders)|] == BinderSection(p.binders)
  {
    ListEndsHello(f, xs);
    BindersOnWire(EncodeHello(f, xs), [PreSharedKey(p)], xs);
  }

  /** The parser puts the binder list at `at`, in the last `n` bytes; it really ends `t` bytes earlier. */
  predicate Misreported(m: bytes, f: Fields, p: OfferedPsks, at: nat, n: nat, t: nat) {
    && |m| == at + n && t <= at
    && GetHello(m) == Ok(Got(Hello(f, [PreSharedKey(p)], at), []))
    && m[at - t..at - t + n] == BinderSection(p.binders)
  }

  lemma {:induction false} OffByTrailing(f: Fields, xs: seq<Raw>, p: OfferedPsks, at: nat)
    requires WireFields(f) && (forall i :: 0 <= i < |xs| ==> WireRaw(xs[i])) && |EncodeAll(EncodeRaw, xs)| < 65536
    requires Collect(ClientBody, MAX_EXTENSIONS, xs) == Ok([PreSharedKey(p)])
    requires |EncodeHello(f, xs)| == at + |BinderSection(p.binders)|
    ensures Misreported(EncodeHello(f, xs), f, p, at, |BinderSection(p.binders)|, Trailing(xs))
  {
    Real(f, xs, p, at);
    Reported(f, xs, p, at);
  }

  /**
   * The parser accepts the message, and reports a boundary five bytes too late: the binder list
   * ends where the unknown extension begins, not where the message ends.
   */
  lemma {:induction false} StrangeExtensionShiftsBoundary(f: Fields)
    requires WireFields(f)
    ensures |StrangeHello(f)| >= 35
    ensures var p := Psks([[1]], Repeat(Zeros(HASH_LEN), 1), HASH_LEN);
            Misreported(StrangeHello(f), f, p, |StrangeHello(f)| - 35, 35, 5)
  {
    StrangeExts();
    StrangeCollected();
    OffByTrailing(f, [PskRaw([[1]], Repeat(Zeros(HASH_LEN), 1)), STRANGE],
                  Psks([[1]], Repeat(Zeros(HASH_LEN), 1), HASH_LEN), |StrangeHello(f)| - 35);
  }
}
