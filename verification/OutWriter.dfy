/** Sequential output into a caller-owned buffer, with lengths patched in afterwards (server.rs:803-1098). */
module OutWriters {
  import opened Basics

  /** `s` with `data` written over it at `at`. */
  function Overwrite(s: bytes, at: nat, data: bytes): (r: bytes)
    requires at + |data| <= |s|
    ensures |r| == |s|
  {
    s[..at] + data + s[at + |data|..]
  }

  lemma {:induction false} OverwriteMiddle(a: bytes, p: bytes, b: bytes, data: bytes)
    requires |p| == |data|
    ensures Overwrite(a + p + b, |a|, data) == a + data + b
  {
    var s := a + p + b;
    assert s[..|a|] == a && s[|a| + |data|..] == b;
  }

  lemma {:induction false} OverwritePrefix(s: bytes, at: nat, data: bytes, n: nat)
    requires at + |data| <= n <= |s|
    ensures Overwrite(s, at, data)[..n] == Overwrite(s[..n], at, data)
  {
    assert s[..n][..at] == s[..at];
    assert s[..n][at + |data|..] == s[at + |data|..][..n - at - |data|];
  }

  class OutWriter {
    const buf: array<byte>
    var pos: nat

    constructor (buf: array<byte>)
      ensures this.buf == buf && pos == 0
    {
      this.buf := buf;
      pos := 0;
    }

    ghost predicate Valid()
      reads this
    {
      pos <= buf.Length
    }

    function Written(): (r: bytes)
      requires Valid()
      reads this, buf
      ensures |r| == pos
    {
      buf[..pos]
    }

    method Append(data: bytes) returns (r: Result<(), TlsError>)
      requires Valid()
      modifies this`pos, buf
      ensures Valid()
      ensures if old(pos) + |data| <= buf.Length then r == Ok(()) && Written() == old(Written()) + data
              else r == Err(NoSpace) && Written() == old(Written())
    {
      var end := pos + |data|;
      if end > buf.Length {
        return Err(NoSpace);
      }
      CopyInto(buf, pos, data);
      pos := end;
      r := Ok(());
    }

    /** Writing a length over its placeholder. */
    method Patch(at: nat, data: bytes)
      requires Valid() && at + |data| <= pos
      modifies buf
      ensures Valid() && Written() == Overwrite(old(Written()), at, data)
    {
      CopyInto(buf, at, data);
    }
  }

  /** Record header and handshake header, lengths still zero. */
  method BeginMessage(w: OutWriter, kind: byte) returns (r: Result<(), TlsError>)
    requires w.Valid() && w.pos == 0
    modifies w, w.buf
    ensures w.Valid()
    ensures if 9 <= w.buf.Length then r.Ok? && w.Written() == [HANDSHAKE, 3, 3] + [0, 0] + [kind] + [0, 0, 0]
            else r == Err(NoSpace)
  {
    var r1 := w.Append([HANDSHAKE, 3, 3, 0, 0]);
    if r1.Err? {
      return r1;
    }
    r := w.Append([kind, 0, 0, 0]);
  }

  /** Fills in the two lengths, turning header placeholders and body into a record. */
  method EndMessage(w: OutWriter, kind: byte, ghost body: bytes)
    requires w.Valid() && w.Written() == [HANDSHAKE, 3, 3] + [0, 0] + [kind] + [0, 0, 0] + body
    modifies w.buf
    ensures w.Valid() && w.Written() == Record(HANDSHAKE, Message(kind, body))
  {
    var n := w.pos - 9;
    w.Patch(6, U24(n));
    assert w.Written() == [HANDSHAKE, 3, 3] + [0, 0] + [kind] + U24(n) + body by {
      OverwriteMiddle([HANDSHAKE, 3, 3] + [0, 0] + [kind], [0, 0, 0], body, U24(n));
    }
    w.Patch(3, U16(n + 4));
    assert w.Written() == [HANDSHAKE, 3, 3] + U16(n + 4) + ([kind] + U24(n) + body) by {
      assert [HANDSHAKE, 3, 3] + [0, 0] + [kind] + U24(n) + body
             == [HANDSHAKE, 3, 3] + [0, 0] + ([kind] + U24(n) + body);
      OverwriteMiddle([HANDSHAKE, 3, 3], [0, 0], [kind] + U24(n) + body, U16(n + 4));
    }
  }
}
