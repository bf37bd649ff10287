/** Opening a protected record in place and stripping padding and type (src/connection.rs:27-67). */
module Decrypts {
  import opened Basics
  import opened Crypto
  import opened KeySchedules
  import opened ServerSpec
  import opened Framing
  import opened CryptoBuffers

  /** Where the content ends: before the last non-zero byte, or before the last byte if there is none. */
  function ContentEnd(p: bytes): (r: nat)
    requires p != []
    ensures r < |p| && forall i :: r < i < |p| ==> p[i] == 0
  {
    match LastNonZero(p)
    case Some(end) => end
    case None => |p| - 1
  }

  /** Type and content of a plaintext. An empty one is not provided for. */
  function ContentOf(p: bytes): (r: Result<(byte, bytes), TlsError>) {
    if p == [] then Err(Panicked)
    else if !KnownContentType(p[ContentEnd(p)]) then Err(InvalidRecord)
    else Ok((p[ContentEnd(p)], p[..ContentEnd(p)]))
  }

  /** Type and content of a protected record. */
  function OpenFrame(c: Crypto, t: Traffic, f: Frame): (r: Result<(byte, bytes), TlsError>) {
    match c.open(t.key, NonceOf(c, t), f.header, f.body)
    case None => Err(CryptoError)
    case Some(p) => ContentOf(p)
  }

  /** `decrypt_in_place`: the plaintext over the ciphertext, and the tag cut off. */
  method DecryptInPlace(c: Crypto, t: Traffic, header: bytes, buf: CryptoBuffer) returns (r: Result<(), TlsError>)
    requires buf.Valid()
    modifies buf`len, buf.buf
    ensures buf.Valid()
    ensures match c.open(t.key, NonceOf(c, t), header, old(buf.Contents()))
            case None => r == Err(CryptoError) && buf.buf[..] == old(buf.buf[..])
            case Some(p) => r.Ok? && buf.Contents() == p && |p| + TAG_LEN == old(buf.len)
  {
    var nonce := GetNonce(c.val(t.iv), t.counter);
    var at := buf.lo + buf.offset;
    var plain := c.open(t.key, nonce, header, buf.buf[at..at + buf.len]);
    if plain.None? {
      return Err(CryptoError);
    }
    assert |c.val(Sealed(t.key, nonce, header, plain.value))| == |plain.value| + TAG_LEN;
    CopyInto(buf.buf, at, plain.value);
    buf.Truncate(|plain.value|);
    r := Ok(());
  }

  /** The part of `decrypt_record` before the content is looked at; `buf` ends up holding the content. */
  method OpenContent(c: Crypto, t: Traffic, header: bytes, buf: CryptoBuffer) returns (r: Result<byte, TlsError>)
    requires buf.Valid()
    modifies buf`len, buf.buf
    ensures buf.Valid()
    ensures match OpenFrame(c, t, Frame(header, old(buf.Contents())))
            case Err(e) => r == Err(e)
            case Ok((kind, content)) => r == Ok(kind) && buf.Contents() == content
  {
    var decrypted := DecryptInPlace(c, t, header, buf);
    if decrypted.Err? {
      return Err(CryptoError);
    }
    r := StripContent(buf);
  }

  /** Padding and type are cut off the plaintext in `buf`. */
  method StripContent(buf: CryptoBuffer) returns (r: Result<byte, TlsError>)
    requires buf.Valid()
    modifies buf`len
    ensures buf.Valid()
    ensures match ContentOf(old(buf.Contents()))
            case Err(e) => r == Err(e)
            case Ok((kind, content)) => r == Ok(kind) && buf.Contents() == content
  {
    ghost var p := buf.Contents();
    var start := buf.lo + buf.offset;
    var last := LastNonZero(buf.buf[start..start + buf.len]);
    if last.Some? {
      buf.Truncate(last.value + 1);
    }
    if buf.len == 0 {
      return Err(Panicked);
    }
    assert buf.Contents() == p[..buf.len];
    var kind := buf.buf[start + buf.len - 1];
    if !KnownContentType(kind) {
      return Err(InvalidRecord);
    }
    buf.Truncate(buf.len - 1);
    assert buf.Contents() == p[..buf.len];
    r := Ok(kind);
  }
}
