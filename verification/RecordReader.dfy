/** Reading records off a transport in whatever pieces it delivers them (src/record_reader.rs). */
module RecordReaders {
  import opened Basics
  import opened ParseBuffers
  import opened Framing

  /** What the peer has sent and nobody has read yet. */
  class Transport {
    var stream: bytes

    constructor (stream: bytes)
      ensures this.stream == stream
    {
      this.stream := stream;
    }

    /** Delivers any number of bytes from one up to what is asked for; nothing only at the end of the stream. */
    method Read(into: array<byte>, at: nat, most: nat) returns (n: nat)
      requires at + most <= into.Length
      modifies this, into
      ensures n <= most && n <= |old(stream)| && (0 < most && old(stream) != [] ==> 0 < n)
      ensures stream == old(stream)[n..]
      ensures into[..] == old(into[..])[..at] + old(stream)[..n] + old(into[..])[at + n..]
    {
      n := 0;
      if 0 < most && stream != [] {
        n :| 1 <= n <= most && n <= |stream|;
      }
      CopyInto(into, at, stream[..n]);
      stream := stream[n..];
    }
  }

  /** The next record of `s`, as a reader with a buffer of `cap` bytes sees it. */
  function NextFrame(s: bytes, cap: nat): (r: Result<Got<Frame>, TlsError>)
    ensures r.Ok? ==> WireFrame(r.value.v) && s == EncodeFrame(r.value.v) + r.value.rest && |r.value.rest| < |s|
  {
    if |s| < 5 then Err(IoError)
    else if !KnownContentType(s[0]) then Err(InvalidRecord)
    else
      var n := FromU16(s[3], s[4]);
      if n > cap then Err(NoSpace)
      else if |s| < 5 + n then Err(IoError)
      else Ok(Got(Frame(s[..5], s[5..5 + n]), s[5 + n..]))
  }

  /** A body the reader's buffer can hold, of a type it knows. */
  predicate Readable(f: Frame, cap: nat)
    requires WireFrame(f)
  {
    KnownContentType(f.header[0]) && |f.body| <= cap
  }

  /** Every record read until the first error, and that error. */
  function ReadAll(s: bytes, cap: nat): (seq<Frame>, TlsError)
    decreases |s|
  {
    match NextFrame(s, cap)
    case Err(e) => ([], e)
    case Ok(Got(f, rest)) => var (more, e) := ReadAll(rest, cap); ([f] + more, e)
  }

  lemma {:induction false} FramesAreWire(s: bytes)
    ensures forall i :: 0 <= i < |Frames(s).v| ==> WireFrame(Frames(s).v[i])
    decreases |s|
  {
    var next := GetFrame(s);
    if next.Some? { FramesAreWire(next.value.rest); }
  }

  predicate AllReadable(fs: seq<Frame>, cap: nat)
    requires forall i :: 0 <= i < |fs| ==> WireFrame(fs[i])
  {
    forall i :: 0 <= i < |fs| ==> Readable(fs[i], cap)
  }

  lemma {:induction false} AllReadableStep(f: Frame, fs: seq<Frame>, cap: nat)
    requires WireFrame(f) && forall i :: 0 <= i < |fs| ==> WireFrame(fs[i])
    ensures AllReadable([f] + fs, cap) <==> Readable(f, cap) && AllReadable(fs, cap)
  {
    var all := [f] + fs;
    assert all[0] == f;
    assert forall i :: 0 <= i < |fs| ==> all[i + 1] == fs[i];
  }

  /** One step of both readings. */
  lemma {:induction false} ReadStep(s: bytes, cap: nat)
    requires GetFrame(s).Some?
    ensures var Got(f, rest) := GetFrame(s).value;
            && WireFrame(f) && |rest| < |s| && Frames(s).v == [f] + Frames(rest).v
            && ReadAll(s, cap).0 == if Readable(f, cap) then [f] + ReadAll(rest, cap).0 else []
  {
  }

  /**
   * Reading to the end yields exactly the records of the stream precisely when every one of
   * them is readable; how the bytes arrive plays no part.
   */
  lemma {:induction false} ReadsTheStreamExactlyWhen(s: bytes, cap: nat)
    ensures forall i :: 0 <= i < |Frames(s).v| ==> WireFrame(Frames(s).v[i])
    ensures ReadAll(s, cap).0 == Frames(s).v <==> AllReadable(Frames(s).v, cap)
    ensures ReadAll(s, cap).0 <= Frames(s).v
    decreases |s|
  {
    FramesAreWire(s);
    var next := GetFrame(s);
    if next.Some? {
      var Got(f, rest) := next.value;
      ReadStep(s, cap);
      ReadsTheStreamExactlyWhen(rest, cap);
      var read, more := ReadAll(rest, cap).0, Frames(rest).v;
      AllReadableStep(f, more, cap);
      assert [f] + read == [f] + more ==> read == more by {
        assert ([f] + read)[1..] == read && ([f] + more)[1..] == more;
      }
    }
  }

  /** `next_record_header_blocking`. */
  method ReadHeader(t: Transport) returns (r: Result<bytes, TlsError>)
    modifies t
    ensures if |old(t.stream)| < 5 then r == Err(IoError)
            else if !KnownContentType(old(t.stream)[0]) then r == Err(InvalidRecord)
            else r == Ok(old(t.stream)[..5]) && t.stream == old(t.stream)[5..]
  {
    var buf := new byte[5](_ => 0);
    var total := 0;
    ghost var all := t.stream;
    while total != 5
      invariant total <= 5 && total <= |all| && buf[..total] == all[..total] && t.stream == all[total..]
      invariant fresh(buf)
      decreases 5 - total
    {
      var n := t.Read(buf, total, 5 - total);
      if n == 0 {
        return Err(IoError);
      }
      assert all[..total + n] == all[..total] + all[total..][..n];
      total := total + n;
    }
    assert buf[..] == buf[..5];
    if !KnownContentType(buf[0]) {
      return Err(InvalidRecord);
    }
    r := Ok(buf[..]);
  }

  class RecordReader {
    const buf: array<byte>
    /** How much of the buffer has been handed out as records. */
    var decoded: nat
    /** How many bytes after that have been read but not handed out. */
    var pending: nat

    constructor (buf: array<byte>)
      ensures Valid() && this.buf == buf && pending == 0
    {
      this.buf := buf;
      decoded, pending := 0, 0;
    }

    ghost predicate Valid()
      reads this
    {
      decoded + pending <= buf.Length
    }

    /** `ensure_contiguous`: when the record would not fit at the end, pending bytes move to the front. */
    method EnsureContiguous(len: nat) returns (r: Result<(), TlsError>)
      requires Valid()
      modifies `decoded, buf
      ensures if decoded + len <= buf.Length then r.Ok? else r == Err(NoSpace)
      ensures r.Ok? <==> old(decoded) + len <= buf.Length || len <= buf.Length
      ensures Valid() && buf[decoded..decoded + pending] == old(buf[decoded..decoded + pending])
      ensures old(decoded) + len <= buf.Length ==> decoded == old(decoded)
    {
      if decoded + len > buf.Length {
        if len > buf.Length {
          return Err(NoSpace);
        }
        CopyInto(buf, 0, buf[decoded..decoded + pending]);
        decoded := 0;
      }
      r := Ok(());
    }

    /** One read of the loop below: what arrives goes behind the pending bytes. */
    method ReadSome(t: Transport, remain: nat) returns (n: nat)
      requires Valid() && decoded + pending + remain <= buf.Length
      modifies `pending, buf, t
      ensures n <= remain && n <= |old(t.stream)| && (0 < remain && old(t.stream) != [] ==> 0 < n)
      ensures pending == old(pending) + n && t.stream == old(t.stream)[n..]
      ensures buf[decoded..decoded + pending] == old(buf[decoded..decoded + pending]) + old(t.stream)[..n]
    {
      ghost var before := buf[..];
      n := t.Read(buf, decoded + pending, remain);
      assert buf[..decoded + pending + n] == before[..decoded + pending] + old(t.stream)[..n];
      pending := pending + n;
    }

    /** `advance_blocking`: reads until `amount` bytes are pending. */
    method Advance(t: Transport, amount: nat) returns (r: Result<(), TlsError>)
      requires Valid() && pending == 0
      modifies this, buf, t
      ensures Valid()
      ensures if amount > buf.Length then r == Err(NoSpace)
              else if |old(t.stream)| < amount then r == Err(IoError)
              else
                && r.Ok? && pending == amount && t.stream == old(t.stream)[amount..]
                && buf[decoded..decoded + amount] == old(t.stream)[..amount]
    {
      var contiguous := EnsureContiguous(amount);
      if contiguous.Err? {
        return contiguous;
      }
      ghost var all := t.stream;
      var remain := amount;
      while pending < amount
        invariant pending <= amount && pending <= |all| && remain == amount - pending && decoded + amount <= buf.Length
        invariant t.stream == all[pending..] && buf[decoded..decoded + pending] == all[..pending]
      {
        ghost var done := pending;
        var n := ReadSome(t, remain);
        if n == 0 {
          return Err(IoError);
        }
        assert all[..done + n] == all[..done] + all[done..][..n];
        remain := remain - n;
      }
      r := Ok(());
    }

    /** `read_blocking`: the header, and where in the buffer the body lies. */
    method ReadRecord(t: Transport) returns (r: Result<(bytes, nat), TlsError>)
      requires Valid() && pending == 0
      modifies this, buf, t
      ensures Valid()
      ensures match NextFrame(old(t.stream), buf.Length)
              case Err(e) => r == Err(e)
              case Ok(Got(f, rest)) =>
                && r.Ok? && r.value.0 == f.header && decoded == r.value.1 + |f.body| <= buf.Length
                && buf[r.value.1..decoded] == f.body && t.stream == rest && pending == 0
    {
      ghost var all := t.stream;
      var header := ReadHeader(t);
      if header.Err? {
        return Err(header.error);
      }
      var n: nat := FromU16(header.value[3], header.value[4]);
      var advanced := Advance(t, n);
      if advanced.Err? {
        return Err(advanced.error);
      }
      var at := decoded;
      decoded := decoded + n;
      pending := pending - n;
      assert all[5..][..n] == all[5..5 + n] && all[5..][n..] == all[5 + n..];
      r := Ok((header.value, at));
    }
  }
}
