/** The bounded, in-place output buffer with back-patched length prefixes (src/buffer.rs). */
module CryptoBuffers {
  import opened Basics
  import opened OutWriters

  /** Writes into the borrowed slice `buf[lo..hi]`; its contents are `len` bytes from `offset` on. */
  class CryptoBuffer {
    const buf: array<byte>
    const lo: nat
    const hi: nat
    var offset: nat
    var len: nat

    constructor (buf: array<byte>, lo: nat, hi: nat, len: nat)
      requires lo + len <= hi <= buf.Length
      ensures Valid() && this.buf == buf && this.lo == lo && this.hi == hi && offset == 0 && this.len == len
    {
      this.buf, this.lo, this.hi := buf, lo, hi;
      offset, this.len := 0, len;
    }

    ghost predicate Valid()
      reads this
    {
      lo + offset + len <= hi <= buf.Length
    }

    /** Where the next byte goes. */
    function End(): nat
      reads this
    {
      lo + offset + len
    }

    /** The array up to there: what was in front of the buffer, then its contents. */
    function Prefix(): (r: bytes)
      requires Valid()
      reads this, buf
      ensures |r| == End()
    {
      buf[..End()]
    }

    /** `as_slice`. */
    function Contents(): (r: bytes)
      requires Valid()
      reads this, buf
      ensures |r| == len
    {
      buf[lo + offset..End()]
    }

    method ExtendFromSlice(other: bytes) returns (r: Result<(), TlsError>)
      requires Valid()
      modifies this`len, buf
      ensures Valid()
      ensures if old(End()) + |other| <= hi then r == Ok(()) && Prefix() == old(Prefix()) + other
              else r == Err(NoSpace) && Prefix() == old(Prefix())
    {
      if hi - lo - (offset + len) < |other| {
        return Err(NoSpace);
      }
      CopyInto(buf, lo + offset + len, other);
      len := len + |other|;
      r := Ok(());
    }

    method Push(b: byte) returns (r: Result<(), TlsError>)
      requires Valid()
      modifies this`len, buf
      ensures Valid()
      ensures if old(End()) + 1 <= hi then r == Ok(()) && Prefix() == old(Prefix()) + [b]
              else r == Err(NoSpace) && Prefix() == old(Prefix())
    {
      if hi - lo - (offset + len) == 0 {
        return Err(NoSpace);
      }
      buf[lo + offset + len] := b;
      len := len + 1;
      r := Ok(());
    }

    method PushU16(n: nat) returns (r: Result<(), TlsError>)
      requires Valid()
      modifies this`len, buf
      ensures Valid()
      ensures if old(End()) + 2 <= hi then r == Ok(()) && Prefix() == old(Prefix()) + U16(n)
              else r == Err(NoSpace) && Prefix() == old(Prefix())
    {
      r := ExtendFromSlice(U16(n));
    }

    /** The first half of `with_u16_length`: a zero placeholder, and where it is. */
    method BeginU16() returns (r: Result<nat, TlsError>)
      requires Valid()
      modifies this`len, buf
      ensures Valid()
      ensures if old(End()) + 2 <= hi
              then r == Ok(old(len)) && Prefix() == old(Prefix()) + [0, 0] && len == old(len) + 2
              else r == Err(NoSpace)
    {
      var at := len;
      var pushed := PushU16(0);
      if pushed.Err? {
        return Err(NoSpace);
      }
      assert U16(0) == [0, 0];
      return Ok(at);
    }

    /** The second half: the number of bytes since, silently truncated to 16 bits, over the placeholder. */
    method EndU16(at: nat, ghost before: bytes, ghost body: bytes)
      requires Valid() && lo + offset + at == |before| && Prefix() == before + [0, 0] + body
      modifies buf
      ensures Valid() && Prefix() == before + (U16(|body|) + body)
    {
      assert |Prefix()| == |before| + 2 + |body|;
      CopyInto(buf, lo + offset + at, U16(len - (at + 2)));
      PatchedPrefix(before, body);
    }

    /** `with_u24_length`, in the same two halves. */
    method BeginU24() returns (r: Result<nat, TlsError>)
      requires Valid()
      modifies this`len, buf
      ensures Valid()
      ensures if old(End()) + 3 <= hi
              then r == Ok(old(len)) && Prefix() == old(Prefix()) + [0, 0, 0] && len == old(len) + 3
              else r == Err(NoSpace)
    {
      var at := len;
      var pushed := ExtendFromSlice([0, 0, 0]);
      if pushed.Err? {
        return Err(NoSpace);
      }
      return Ok(at);
    }

    method EndU24(at: nat, ghost before: bytes, ghost body: bytes)
      requires Valid() && lo + offset + at == |before| && Prefix() == before + [0, 0, 0] + body
      modifies buf
      ensures Valid() && Prefix() == before + (U24(|body|) + body)
    {
      assert |Prefix()| == |before| + 3 + |body|;
      CopyInto(buf, lo + offset + at, U24(len - (at + 3)));
      OverwriteMiddle(before, [0, 0, 0], body, U24(|body|));
      Assoc(before, U24(|body|), body);
    }

    /** `truncate`: ignored when longer than the buffer can hold. */
    method Truncate(n: nat)
      requires Valid()
      modifies this`len
      ensures Valid() && len == if n <= hi - lo - offset then n else old(len)
    {
      if n <= hi - lo - offset {
        len := n;
      }
    }

    /** `offset` (also `forward` and `rewind`): moves the start, keeping the end where it is. */
    method MoveTo(newOffset: nat)
      requires Valid() && newOffset <= offset + len
      modifies this`offset, this`len
      ensures Valid() && offset == newOffset && End() == old(End())
    {
      len := len + offset - newOffset;
      offset := newOffset;
    }
  }

  /** Finishing a prefixed field: placeholder and body become length and body. */
  lemma {:induction false} PatchedPrefix(before: bytes, body: bytes)
    ensures Overwrite(before + [0, 0] + body, |before|, U16(|body|)) == before + (U16(|body|) + body)
  {
    OverwriteMiddle(before, [0, 0], body, U16(|body|));
    Assoc(before, U16(|body|), body);
  }
}
