/** Bytes, big-endian integers, and the result types shared by every module. */
module Basics {

  type byte = b: int | 0 <= b < 256
  type bytes = seq<byte>

  datatype Option<+T> = None | Some(value: T)

  datatype Result<+T, +E> = Ok(value: T) | Err(error: E) {
    predicate IsFailure() { Err? }

    function PropagateFailure<U>(): (r: Result<U, E>)
      requires Err?
    {
      Err(error)
    }

    function Extract(): T
      requires Ok?
    {
      value
    }

    function MapErr<F>(e: F): (r: Result<T, F>) {
      if Ok? then Ok(value) else Err(e)
    }
  }

  /** Errors of the cursor reads (src/parse_buffer.rs). */
  datatype ParseError = InsufficientBytes | InsufficientSpace | InvalidData

  /**
   * The errors the modelled code returns. `NoSpace` stands for both
   * `InsufficientSpace` and `EncodeError` when output does not fit;
   * `CounterExhausted` stands for the panic in `increment_counter`, `Panicked` for
   * the other panics of the client's read path.
   */
  datatype TlsError =
    | ParseFailure(cause: ParseError)
    | InvalidHandshake
    | InvalidSessionIdLength
    | InvalidExtensionsLength
    | InvalidCipherSuite
    | InvalidCertificateRequest
    | InvalidKeyShare
    | InvalidSignature
    | UnknownExtensionType
    | DecodeError
    | Abort(description: byte)
    | HandshakeAborted(alert: byte)
    | InvalidRecord
    | NoSpace
    | CryptoError
    | InternalError
    | IoError
    | ConnectionClosed
    | MissingHandshake
    | Unimplemented
    | CounterExhausted
    | Panicked

  // Alert descriptions the server aborts with (src/alert.rs).
  const HANDSHAKE_FAILURE: byte := 40
  const ILLEGAL_PARAMETER: byte := 47
  const DECRYPT_ERROR: byte := 51
  const PROTOCOL_VERSION: byte := 70
  const MISSING_EXTENSION: byte := 109
  const UNKNOWN_PSK_IDENTITY: byte := 115

  // Record content types and handshake message types.
  const CHANGE_CIPHER_SPEC: byte := 20
  const ALERT: byte := 21
  const HANDSHAKE: byte := 22
  const APPLICATION_DATA: byte := 23

  const CLIENT_HELLO: byte := 1
  const SERVER_HELLO: byte := 2
  const ENCRYPTED_EXTENSIONS: byte := 8
  const FINISHED: byte := 20
  const MESSAGE_HASH: byte := 254

  const HASH_LEN: nat := 32
  const TAG_LEN: nat := 16

  predicate KnownContentType(b: byte) { b == 0 || 20 <= b <= 23 }

  /** Big-endian integers; like the source's `as u8`/`as u16` casts they truncate silently. */
  function U16(n: nat): (r: bytes)
    ensures |r| == 2
  {
    [n / 256 % 256, n % 256]
  }

  function U24(n: nat): (r: bytes)
    ensures |r| == 3
  {
    [n / 65536 % 256, n / 256 % 256, n % 256]
  }

  function U32(n: nat): (r: bytes)
    ensures |r| == 4
  {
    U16(n / 65536) + U16(n)
  }

  function FromU16(hi: int, lo: int): int { hi * 256 + lo }

  function FromU24(hi: int, mid: int, lo: int): int { hi * 65536 + mid * 256 + lo }

  lemma {:induction false} U16Read(n: nat)
    requires n < 65536
    ensures FromU16(U16(n)[0], U16(n)[1]) == n
  {
  }

  lemma {:induction false} U16Write(hi: byte, lo: byte)
    ensures U16(FromU16(hi, lo)) == [hi, lo]
  {
  }

  lemma {:induction false} U24Read(n: nat)
    requires n < 0x100_0000
    ensures FromU24(U24(n)[0], U24(n)[1], U24(n)[2]) == n
  {
    var q := n / 256;
    assert n == 256 * q + n % 256 && q < 65536;
    assert q == 256 * (q / 256) + q % 256 && q / 256 < 256 && q / 256 == n / 65536;
  }

  lemma {:induction false} U16Cut(n: nat)
    ensures FromU16(U16(n)[0], U16(n)[1]) == n % 65536
  {
    var q := n / 256;
    assert n == 256 * q + n % 256 && q == 256 * (q / 256) + q % 256;
    assert n == 65536 * (q / 256) + (256 * (q % 256) + n % 256);
  }

  function Zeros(n: nat): (r: bytes)
    ensures |r| == n
    ensures forall i :: 0 <= i < n ==> r[i] == 0
  {
    seq(n, _ => 0)
  }

  /** A plaintext or ciphertext record: type, version 3.3, 16-bit length, body. */
  function Record(contentType: byte, body: bytes): (r: bytes)
    ensures |r| == 5 + |body|
  {
    [contentType, 3, 3] + U16(|body|) + body
  }

  /** A handshake message: type, 24-bit length, body. */
  function Message(kind: byte, body: bytes): (r: bytes)
    ensures |r| == 4 + |body|
  {
    [kind] + U24(|body|) + body
  }

  /** `acc` followed by the elements of a successful `r`; how a collecting loop ends. */
  function Prepend<T, E>(acc: seq<T>, r: Result<seq<T>, E>): (out: Result<seq<T>, E>)
    ensures acc == [] ==> out == r
    ensures r == Ok([]) ==> out == Ok(acc)
  {
    assert r.Ok? && r.value == [] ==> acc + r.value == acc;
    assert r.Ok? && acc == [] ==> acc + r.value == r.value;
    if r.Ok? then Ok(acc + r.value) else r
  }

  lemma {:induction false} PrependPrepend<T, E>(a: seq<T>, b: seq<T>, r: Result<seq<T>, E>)
    ensures Prepend(a, Prepend(b, r)) == Prepend(a + b, r)
  {
    if r.Ok? {
      assert a + (b + r.value) == (a + b) + r.value;
    }
  }

  lemma {:induction false} Assoc(a: bytes, b: bytes, c: bytes)
    ensures a + (b + c) == a + b + c
  {
  }

  lemma {:induction false} AssocTail(a: bytes, b: bytes, c: bytes, d: bytes)
    ensures a + b + (c + d) == a + (b + c + d)
  {
  }

  /** A slice of what is left after a cut is a slice of the whole. */
  lemma {:induction false} SliceOfTail(s: bytes, at: nat, i: nat, j: nat)
    requires i <= j && at + j <= |s|
    ensures s[at..][i..j] == s[at + i..at + j] && s[at..][j..] == s[at + j..]
  {
  }

  lemma {:induction false} SliceOfFront(s: bytes, k: nat, i: nat, j: nat)
    requires i <= j <= k <= |s|
    ensures s[..k][i..j] == s[i..j]
  {
  }

  /** `copy_from_slice` into part of a buffer. */
  method CopyInto(a: array<byte>, at: nat, data: bytes)
    requires at + |data| <= a.Length
    modifies a
    ensures a[..] == old(a[..])[..at] + data + old(a[..])[at + |data|..]
  {
    forall i | 0 <= i < |data| {
      a[at + i] := data[i];
    }
  }
}
