/** Sealing records in place. */
module Sealing {
  import opened Basics
  import opened Crypto
  import opened KeySchedules
  import opened ServerSpec
  import opened OutWriters

  /** Every record sealed so far; nothing but `SealRecord` writes to it. */
  class SealLog {
    ghost var seals: seq<Seal>

    constructor ()
      ensures seals == []
    {
      seals := [];
    }
  }

  /** `encrypt_in_place`: `n` bytes of plaintext at `at` become ciphertext and tag. */
  method EncryptInPlace(c: Crypto, a: array<byte>, at: nat, n: nat, t: Traffic, aad: bytes)
    requires at + n + TAG_LEN <= a.Length
    modifies a
    ensures a[..] == Overwrite(old(a[..]), at, c.val(Sealed(t.key, NonceOf(c, t), aad, old(a[at..at + n]))))
  {
    var nonce := GetNonce(c.val(t.iv), t.counter);
    CopyInto(a, at, c.val(Sealed(t.key, nonce, aad, a[at..at + n])));
  }

  /** Ciphertext over the plaintext, then the length over its placeholder. */
  lemma {:induction false} SealedOver(s: bytes, start: nat, head: bytes, len: bytes, ct: bytes)
    requires start + 5 + |ct| <= |s| && |len| == 2 && |head| == 3 && s[start..start + 3] == head
    ensures var t := Overwrite(Overwrite(s, start + 5, ct), start + 3, len);
            t[..start + 5 + |ct|] == s[..start] + (head + len + ct)
  {
    var a, p, q, rest := s[..start], s[start + 3..start + 5], s[start + 5..start + 5 + |ct|], s[start + 5 + |ct|..];
    assert s == a + head + p + q + rest;
    OverwriteMiddle(a + head + p, q, rest, ct);
    assert a + head + p + ct + rest == (a + head) + p + (ct + rest);
    OverwriteMiddle(a + head, p, ct + rest, len);
    assert (a + head) + len + (ct + rest) == a + (head + len + ct) + rest;
  }

  /** Seals the `n` bytes after the header at `start`, and writes the length into the header. */
  method SealRecord(c: Crypto, a: array<byte>, start: nat, n: nat, t: Traffic, log: SealLog)
    requires start + 5 + n + TAG_LEN <= a.Length
    requires a[start..start + 3] == [APPLICATION_DATA, 3, 3]
    modifies a, log
    ensures log.seals == old(log.seals) + [SealOf(t, old(a[start + 5..start + 5 + n]))]
    ensures a[..start + 5 + n + TAG_LEN] == old(a[..start]) + SealedRecord(c, t, old(a[start + 5..start + 5 + n]))
  {
    ghost var s := a[..];
    ghost var ct := c.val(Sealed(t.key, NonceOf(c, t), Aad(n + TAG_LEN), a[start + 5..start + 5 + n]));
    SealedOver(s, start, [APPLICATION_DATA, 3, 3], U16(n + TAG_LEN), ct);
    log.seals := log.seals + [SealOf(t, a[start + 5..start + 5 + n])];
    EncryptInPlace(c, a, start + 5, n, t, Aad(n + TAG_LEN));
    ghost var sealed := a[..];
    CopyInto(a, start + 3, U16(n + TAG_LEN));
    assert a[..] == Overwrite(sealed, start + 3, U16(n + TAG_LEN));
  }
}
