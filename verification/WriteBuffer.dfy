/** The client's write buffer: one record at a time, sealed in place (src/write_buffer.rs, src/record.rs:28-78). */
module WriteBuffers {
  import opened Basics
  import opened Crypto
  import opened KeySchedules
  import opened ServerSpec
  import opened OutWriters
  import opened CryptoBuffers
  import opened Sealing

  /** Kept free at the end of the buffer (`TLS_RECORD_OVERHEAD`). */
  const OVERHEAD: nat := 128

  datatype ClientRecordHeader = HandshakeHeader(encrypted: bool) | AlertHeader(encrypted: bool) | DataHeader

  predicate IsEncrypted(h: ClientRecordHeader) { h.DataHeader? || h.encrypted }

  /** The first three bytes on the wire; an alert before the handshake goes out as a ChangeCipherSpec record. */
  function HeaderBytes(h: ClientRecordHeader): (r: bytes)
    ensures |r| == 3
    ensures IsEncrypted(h) ==> r == [APPLICATION_DATA, 3, 3]
  {
    match h
    case HandshakeHeader(false) => [HANDSHAKE, 3, 1]
    case AlertHeader(false) => [CHANGE_CIPHER_SPEC, 3, 1]
    case _ => [APPLICATION_DATA, 3, 3]
  }

  /** The payload of a close_notify alert, level warning. */
  const CLOSE_NOTIFY: bytes := [1, 0]

  function Trailer(h: ClientRecordHeader): byte {
    match h
    case HandshakeHeader(_) => HANDSHAKE
    case AlertHeader(_) => ALERT
    case DataHeader => APPLICATION_DATA
  }

  /** What follows the header: the payload, or its ciphertext under a header with the final length. */
  function ClosedBody(c: Crypto, t: Traffic, h: ClientRecordHeader, payload: bytes): (r: bytes)
    ensures |r| == if IsEncrypted(h) then |payload| + 1 + TAG_LEN else |payload|
  {
    if IsEncrypted(h)
    then c.val(Sealed(t.key, NonceOf(c, t), Aad(|payload| + 1 + TAG_LEN), payload + [Trailer(h)]))
    else payload
  }

  /** The record a header and payload become. */
  function ClosedRecord(c: Crypto, t: Traffic, h: ClientRecordHeader, payload: bytes): (r: bytes)
    ensures |r| == 5 + |payload| + if IsEncrypted(h) then 1 + TAG_LEN else 0
    ensures IsEncrypted(h) ==> r == SealedRecord(c, t, payload + [Trailer(h)])
  {
    var body := ClosedBody(c, t, h, payload);
    HeaderBytes(h) + U16(|body|) + body
  }

  /**
   * `encrypt`: seals the contents of `buf` where they are. The capacity check ignores the
   * offset of the contents; the tag itself is only appended when it fits behind them.
   */
  method Encrypt(c: Crypto, t: Traffic, buf: CryptoBuffer) returns (r: Result<(), TlsError>)
    requires buf.Valid()
    modifies buf`len, buf.buf
    ensures buf.Valid()
    ensures if old(buf.End()) + TAG_LEN <= buf.hi
            then && r.Ok? && buf.len == old(buf.len) + TAG_LEN
                 && buf.Prefix() == old(buf.buf[..buf.lo + buf.offset])
                      + c.val(Sealed(t.key, NonceOf(c, t), Aad(buf.len), old(buf.Contents())))
            else r == Err(NoSpace)
  {
    var n := buf.len + TAG_LEN;
    if n > buf.hi - buf.lo {
      return Err(NoSpace);
    }
    var aad := [APPLICATION_DATA, 3, 3] + U16(n);
    if buf.End() + TAG_LEN > buf.hi {
      return Err(NoSpace);
    }
    EncryptInPlace(c, buf.buf, buf.lo + buf.offset, buf.len, t, aad);
    buf.len := n;
    r := Ok(());
  }

  /** The length over its placeholder, in front of bytes that are already final. */
  lemma {:induction false} LengthPatched(s: bytes, head: bytes, len: bytes, body: bytes)
    requires |head| == 3 && |len| == 2 && |s| == 5 + |body| && s[..3] == head && s[5..] == body
    ensures Overwrite(s, 3, len) == head + len + body
  {
  }

  class WriteBuffer {
    const buffer: array<byte>
    var pos: nat
    var header: Option<ClientRecordHeader>

    constructor (buffer: array<byte>)
      requires OVERHEAD + 5 <= buffer.Length
      ensures Valid() && this.buffer == buffer && header == None
    {
      this.buffer := buffer;
      pos, header := 0, None;
    }

    ghost predicate Valid()
      reads this, buffer
    {
      && OVERHEAD + 5 <= buffer.Length
      && (header.None? ==> pos == 0)
      && (header.Some? ==> 5 <= pos <= buffer.Length - OVERHEAD && buffer[..3] == HeaderBytes(header.value))
    }

    /** A record is open, and there is room to seal it. */
    ghost predicate Open()
      reads this, buffer
    {
      && header.Some? && 5 <= pos <= buffer.Length
      && (IsEncrypted(header.value) ==> pos + 1 + TAG_LEN <= buffer.Length)
      && buffer[..3] == HeaderBytes(header.value)
    }

    /** The payload of the open record. */
    function Payload(): (r: bytes)
      requires Open()
      reads this, buffer
      ensures |r| == pos - 5
    {
      buffer[5..pos]
    }

    predicate IsFull()
      requires Valid()
      reads this, buffer
    {
      pos == buffer.Length - OVERHEAD
    }

    /** `start_record`: type, version and a zero length. */
    method StartRecord(h: ClientRecordHeader)
      requires Valid() && header.None?
      modifies this, buffer
      ensures Valid() && header == Some(h) && Payload() == []
    {
      header := Some(h);
      var buf := new CryptoBuffer(buffer, 0, buffer.Length, pos);
      var r1 := buf.Push(HeaderBytes(h)[0]);
      var r2 := buf.ExtendFromSlice(HeaderBytes(h)[1..]);
      var r3 := buf.PushU16(0);
      assert buf.Prefix()[..3] == HeaderBytes(h);
      buf.MoveTo(0);
      pos := buf.len;
    }

    /** `append`: as much as fits below the reserved space. */
    method Append(data: bytes) returns (n: nat)
      requires Valid() && header.Some?
      modifies `pos, buffer
      ensures Valid() && n <= |data| && Payload() == old(Payload()) + data[..n]
      ensures n == |data| || IsFull()
    {
      var space := buffer.Length - OVERHEAD - pos;
      n := if |data| < space then |data| else space;
      ghost var head := buffer[..5];
      if n > 0 {
        CopyInto(buffer, pos, data[..n]);
        pos := pos + n;
      }
      assert buffer[..3] == head[..3];
    }

    /** Pushes the type marker and seals everything behind the header; the reserved space suffices. */
    method SealPayload(c: Crypto, t: Traffic)
      requires Open() && IsEncrypted(header.value)
      modifies `pos, buffer
      ensures pos == old(pos) + 1 + TAG_LEN <= buffer.Length
      ensures buffer[..pos] == old(buffer[..5]) + ClosedBody(c, t, header.value, old(Payload()))
    {
      ghost var head, payload := buffer[..5], Payload();
      var buf := new CryptoBuffer(buffer, 0, buffer.Length, pos);
      var pushed := buf.Push(Trailer(header.value));
      assert buffer[..5] == head && buffer[5..pos + 1] == payload + [Trailer(header.value)];
      buf.MoveTo(5);
      var sealed := Encrypt(c, t, buf);
      buf.MoveTo(0);
      pos := buf.len;
    }

    /** `close_record`: seals the payload if the record is protected, and writes the final length. */
    method CloseRecord(c: Crypto, t: Traffic) returns (record: bytes)
      requires Open()
      modifies this, buffer
      ensures header.None? && pos == 0
      ensures record == ClosedRecord(c, t, old(header).value, old(Payload()))
    {
      var h := header.value;
      ghost var head, body := buffer[..5], ClosedBody(c, t, h, Payload());
      assert head[..3] == HeaderBytes(h);
      if IsEncrypted(h) {
        SealPayload(c, t);
      }
      assert buffer[..pos] == head + body;
      ghost var before := buffer[..];
      CopyInto(buffer, 3, U16(pos - 5));
      record := buffer[..pos];
      assert record == buffer[..][..pos];
      OverwritePrefix(before, 3, U16(pos - 5), pos);
      assert before[..pos] == head + body;
      LengthPatched(head + body, HeaderBytes(h), U16(pos - 5), body);
      pos, header := 0, None;
    }

    /** The payload behind the header, as far as the buffer goes. */
    method EncodePayload(payload: bytes) returns (r: Result<(), TlsError>)
      requires Valid() && header.Some? && pos == 5
      modifies `pos, buffer
      ensures r.Ok? <==> 5 + |payload| <= buffer.Length
      ensures r.Ok? ==>
        pos == 5 + |payload| && buffer[..3] == HeaderBytes(header.value) && buffer[5..pos] == payload
    {
      var buf := new CryptoBuffer(buffer, 0, buffer.Length, pos);
      buf.MoveTo(pos);
      r := buf.ExtendFromSlice(payload);
      if r.Err? {
        return;
      }
      assert buffer[..3] == HeaderBytes(header.value) && buffer[5..5 + |payload|] == payload;
      buf.MoveTo(0);
      pos := buf.len;
    }

    /** `write_record`: a whole record in one call; anything of the buffer may be used for its payload. */
    method WriteRecord(c: Crypto, t: Traffic, h: ClientRecordHeader, payload: bytes)
      returns (r: Result<bytes, TlsError>)
      requires Valid()
      modifies this, buffer
      ensures old(header).Some? ==> r == Err(InternalError)
      ensures old(header).None? ==>
        if |ClosedRecord(c, t, h, payload)| <= buffer.Length
        then r == Ok(ClosedRecord(c, t, h, payload)) && Valid() && header.None? else r == Err(NoSpace)
    {
      if header.Some? {
        return Err(InternalError);
      }
      StartRecord(h);
      var encoded := EncodePayload(payload);
      if encoded.Err? {
        return Err(NoSpace);
      }
      if IsEncrypted(h) && pos + 1 + TAG_LEN > buffer.Length {
        return Err(NoSpace);
      }
      var record := CloseRecord(c, t);
      r := Ok(record);
    }
  }
}
