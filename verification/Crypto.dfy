/**
 * The cryptography the code calls, kept symbolic. A `Term` records how a value
 * was computed; a `Crypto` interprets terms as bytes. Nothing is assumed about
 * the interpretation beyond lengths, the all-zero arrays, and that the AEAD
 * opens exactly what it sealed, so every theorem holds for each real suite.
 */
module Crypto {
  import opened Basics

  datatype Term =
    | Zero(n: nat)
    | Hash(data: bytes)
    | Extract(salt: Term, ikm: bytes)
    | Expand(prk: Term, info: bytes, n: nat)
    | Mac(key: Term, data: bytes)
    | Sealed(key: Term, nonce: bytes, aad: bytes, plain: bytes)

  function Len(t: Term): nat {
    match t
    case Zero(n) => n
    case Hash(_) => HASH_LEN
    case Extract(_, _) => HASH_LEN
    case Expand(_, _, n) => n
    case Mac(_, _) => HASH_LEN
    case Sealed(_, _, _, p) => |p| + TAG_LEN
  }

  datatype Suite = Suite(
    val: Term -> bytes,
    open: (Term, bytes, bytes, bytes) -> Option<bytes>,
    x25519: (bytes, bytes) -> bytes)

  ghost predicate Lawful(c: Suite) {
    && (forall t :: |c.val(t)| == Len(t))
    && (forall n: nat :: c.val(Zero(n)) == Zeros(n))
    && (forall k, n, a, p :: c.open(k, n, a, c.val(Sealed(k, n, a, p))) == Some(p))
    && (forall k, n, a, ct :: c.open(k, n, a, ct).Some? ==>
          c.val(Sealed(k, n, a, c.open(k, n, a, ct).value)) == ct)
    && (forall a, b :: |c.x25519(a, b)| == 32)
  }

  function ToyVal(t: Term): bytes {
    match t
    case Sealed(_, _, _, p) => p + Zeros(TAG_LEN)
    case _ => Zeros(Len(t))
  }

  function ToyOpen(k: Term, n: bytes, a: bytes, ct: bytes): Option<bytes> {
    if |ct| >= TAG_LEN && ct[|ct| - TAG_LEN..] == Zeros(TAG_LEN) then Some(ct[..|ct| - TAG_LEN]) else None
  }

  /** The laws are satisfiable: a suite that seals by appending a zero tag obeys them. */
  function ToySuite(): (c: Suite)
    ensures Lawful(c)
  {
    var c := Suite(ToyVal, ToyOpen, (a, b) => Zeros(31) + [1]);
    assert forall k, n, a, p :: c.open(k, n, a, c.val(Sealed(k, n, a, p))) == Some(p) by {
      forall k, n, a, p: bytes ensures ToyOpen(k, n, a, ToyVal(Sealed(k, n, a, p))) == Some(p) {
        var ct := p + Zeros(TAG_LEN);
        assert ct[|ct| - TAG_LEN..] == Zeros(TAG_LEN) && ct[..|ct| - TAG_LEN] == p;
      }
    }
    assert forall k, n, a, ct :: c.open(k, n, a, ct).Some? ==>
      c.val(Sealed(k, n, a, c.open(k, n, a, ct).value)) == ct;
    c
  }

  type Crypto = c: Suite | Lawful(c) witness ToySuite()

  // --- HKDF labels (src/key_schedule.rs:46-89) ---

  function Ascii(s: string): (r: bytes)
    ensures |r| == |s|
    ensures forall i :: 0 <= i < |s| ==> r[i] == (s[i] as int) % 256
  {
    seq(|s|, i requires 0 <= i < |s| => (s[i] as int) % 256)
  }

  const TLS13_PREFIX: bytes := Ascii("tls13 ")

  /** The HkdfLabel structure of section 7.1 of RFC 8446. */
  function HkdfLabel(n: nat, name: bytes, context: bytes): (r: bytes)
    ensures |r| == 10 + |name| + |context|
  {
    U16(n) + [(6 + |name|) % 256] + TLS13_PREFIX + name + [|context| % 256] + context
  }

  lemma {:induction false} LabelParts(n: nat, name: bytes, context: bytes)
    ensures var e := HkdfLabel(n, name, context);
            && e[..2] == U16(n)
            && e[2] == (6 + |name|) % 256
            && e[9..9 + |name|] == name
            && e[10 + |name|..] == context
  {
  }

  /** Distinct (length, name, context) triples never share an encoding. */
  lemma {:induction false} HkdfLabelInjective(n1: nat, l1: bytes, c1: bytes, n2: nat, l2: bytes, c2: bytes)
    requires n1 < 65536 && n2 < 65536
    requires |l1| < 250 && |l2| < 250
    requires HkdfLabel(n1, l1, c1) == HkdfLabel(n2, l2, c2)
    ensures n1 == n2 && l1 == l2 && c1 == c2
  {
    LabelParts(n1, l1, c1);
    LabelParts(n2, l2, c2);
    U16Read(n1);
    U16Read(n2);
  }

  function ExpandLabel(secret: Term, name: bytes, context: bytes, n: nat): Term {
    Expand(secret, HkdfLabel(n, name, context), n)
  }

  /**
   * `make_expanded_hkdf_label`: builds the label in a vector of capacity hash
   * length + 22. It overflows exactly when label and context are too long
   * together, so with labels of at most 12 bytes and contexts that are empty or
   * one hash long the error branches are never taken.
   */
  method MakeExpandedHkdfLabel(prk: Option<Term>, name: bytes, context: bytes, n: nat)
    returns (r: Result<Term, TlsError>)
    requires |name| < 250 && |context| < 256
    ensures r.Ok? <==> |name| + |context| <= HASH_LEN + 12 && prk.Some?
    ensures r.Ok? ==> r.value == ExpandLabel(prk.value, name, context, n)
    ensures r.Err? ==> r.error == InternalError
  {
    var capacity := HASH_LEN + 22;
    var v: bytes := [];
    v := v + U16(n);
    v := v + [6 + |name|];
    v := v + TLS13_PREFIX;
    if |v| + |name| > capacity {
      return Err(InternalError);
    }
    v := v + name;
    if |v| + 1 > capacity {
      return Err(InternalError);
    }
    v := v + [|context|];
    if |v| + |context| > capacity {
      return Err(InternalError);
    }
    v := v + context;
    if prk.None? {
      return Err(InternalError);
    }
    assert v == HkdfLabel(n, name, context);
    return Ok(Expand(prk.value, v, n));
  }

  // --- Per-record nonces (src/key_schedule.rs:379-414) ---

  const IV_LEN: nat := 12
  const COUNTER_LIMIT: nat := 0x1_0000_0000_0000_0000

  function Power2(k: nat): (r: nat)
    ensures r > 0
  {
    if k == 0 then 1 else 2 * Power2(k - 1)
  }

  /** Exclusive or of the low `k` bits, bit by bit. */
  function XorBits(a: nat, b: nat, k: nat): (r: nat)
    ensures r < Power2(k)
  {
    if k == 0 then 0 else 2 * XorBits(a / 2, b / 2, k - 1) + (a + b) % 2
  }

  function Xor(a: byte, b: byte): byte {
    assert Power2(8) == 256;
    XorBits(a, b, 8)
  }

  lemma {:induction false} Halves(x: nat, p: nat, y: nat, q: nat)
    requires p < 2 && q < 2 && 2 * x + p == 2 * y + q
    ensures x == y && p == q
  {
  }

  lemma {:induction false} SameParity(a: nat, b: nat, c: nat)
    requires (a + b) % 2 == (a + c) % 2
    ensures b % 2 == c % 2
  {
  }

  lemma {:induction false} XorBitsCancel(a: nat, b: nat, c: nat, k: nat)
    requires b < Power2(k) && c < Power2(k)
    requires XorBits(a, b, k) == XorBits(a, c, k)
    ensures b == c
  {
    if k > 0 {
      Halves(XorBits(a / 2, b / 2, k - 1), (a + b) % 2, XorBits(a / 2, c / 2, k - 1), (a + c) % 2);
      SameParity(a, b, c);
      XorBitsCancel(a / 2, b / 2, c / 2, k - 1);
    }
  }

  /** The low `k` big-endian bytes of `n`. */
  function BigEndian(n: nat, k: nat): (r: bytes)
    ensures |r| == k
  {
    if k == 0 then [] else BigEndian(n / 256, k - 1) + [n % 256]
  }

  function Power256(k: nat): (r: nat)
    ensures r > 0
  {
    if k == 0 then 1 else 256 * Power256(k - 1)
  }

  lemma {:induction false} BigEndianInjective(m: nat, n: nat, k: nat)
    requires m < Power256(k) && n < Power256(k)
    requires BigEndian(m, k) == BigEndian(n, k)
    ensures m == n
  {
    if k > 0 {
      var a, b := BigEndian(m, k), BigEndian(n, k);
      assert a[..k - 1] == BigEndian(m / 256, k - 1) && b[..k - 1] == BigEndian(n / 256, k - 1);
      assert a[k - 1] == m % 256 && b[k - 1] == n % 256;
      BigEndianInjective(m / 256, n / 256, k - 1);
    }
  }

  /** Section 5.3 of RFC 8446: the counter, left-padded to the IV length, XORed into the IV. */
  function Nonce(iv: bytes, counter: nat): (r: bytes)
    requires |iv| == IV_LEN
    ensures |r| == IV_LEN
  {
    var padded := Zeros(4) + BigEndian(counter, 8);
    seq(IV_LEN, i requires 0 <= i < IV_LEN => Xor(iv[i], padded[i]))
  }

  lemma {:induction false} NonceInjective(iv: bytes, m: nat, n: nat)
    requires |iv| == IV_LEN
    requires m < COUNTER_LIMIT && n < COUNTER_LIMIT
    requires Nonce(iv, m) == Nonce(iv, n)
    ensures m == n
  {
    var a, b := BigEndian(m, 8), BigEndian(n, 8);
    forall i | 0 <= i < 8 ensures a[i] == b[i] {
      assert Nonce(iv, m)[4 + i] == Xor(iv[4 + i], a[i]);
      assert Nonce(iv, n)[4 + i] == Xor(iv[4 + i], b[i]);
      XorBitsCancel(iv[4 + i], a[i], b[i], 8);
    }
    assert a == b;
    assert Power256(8) == COUNTER_LIMIT;
    BigEndianInjective(m, n, 8);
  }

  /** `pad`: copies `input` right-aligned into a zeroed array, last byte first. */
  method Pad(input: bytes, width: nat) returns (padded: array<byte>)
    requires |input| <= width
    ensures fresh(padded) && padded[..] == Zeros(width - |input|) + input
  {
    padded := new byte[width](_ => 0);
    for index := 0 to |input|
      invariant padded.Length == width
      invariant forall k :: 0 <= k < width - index ==> padded[k] == 0
      invariant forall k :: width - index <= k < width ==> padded[k] == input[k - (width - |input|)]
    {
      padded[width - index - 1] := input[|input| - 1 - index];
    }
  }

  /** `get_nonce`: XORs the padded counter into the IV byte by byte. */
  method GetNonce(iv: bytes, counter: nat) returns (nonce: bytes)
    requires |iv| == IV_LEN
    ensures nonce == Nonce(iv, counter)
  {
    var padded := Pad(BigEndian(counter, 8), IV_LEN);
    var out := new byte[IV_LEN](_ => 0);
    for index := 0 to IV_LEN
      invariant padded[..] == Zeros(4) + BigEndian(counter, 8)
      invariant forall k :: 0 <= k < index ==> out[k] == Nonce(iv, counter)[k]
    {
      out[index] := Xor(iv[index], padded[index]);
    }
    nonce := out[..];
  }
}
