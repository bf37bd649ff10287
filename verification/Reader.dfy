/**
 * `read`, `fill_buf` and `consume` on the client (src/blocking.rs:189-231): the application sees the
 * decrypted payloads as one stream.
 */
module Readers {
  import opened Basics
  import opened Crypto
  import opened KeySchedules
  import opened ServerSpec
  import opened Framing
  import opened CryptoBuffers
  import opened RecordReaders
  import opened ServerMessages
  import opened Decrypts

  /** Decrypted but not yet read; still on the transport; the read keys; the transcript; whether the peer closed. */
  datatype Reader = Reader(unread: bytes, stream: bytes, keys: Traffic, digest: bytes, isOpen: bool)

  // --- What a record does (src/common/decrypted_read_handler.rs) ---

  /** Every alert ends reading; close_notify also closes the connection. */
  function AlertError(content: bytes): TlsError {
    if |content| < 2 then ParseFailure(InsufficientBytes)
    else if !(1 <= content[0] <= 2) || !KnownAlert(content[1]) then DecodeError
    else if content[1] == 0 then ConnectionClosed
    else InternalError
  }

  predicate Closes(kind: byte, content: bytes) { kind == ALERT && AlertError(content) == ConnectionClosed }

  /** Session tickets are read and ignored; other handshake messages are not provided for. */
  function IgnoreTickets(): Callback<()> {
    (_: (), _: bytes, m: Incoming) => if m.body.Ticket? then Ok(()) else Err(Panicked)
  }

  /** A protected record's content, before the counter moves on. */
  function HandleContent(
    c: Crypto, get: MessageReader, r: Reader, kind: byte, content: bytes)
    : Result<Reader, TlsError>
  {
    if kind == APPLICATION_DATA then Ok(r.(unread := content))
    else if kind == HANDSHAKE then
      match ReadCoalesced(c, get, IgnoreTickets(), (), r.digest, content)
      case Err(e) => Err(e)
      case Ok(reading) => Ok(r.(digest := reading.digest))
    else if kind == ALERT then Err(AlertError(content))
    else Err(Unimplemented)
  }

  /** A record that was handled moves the counter on. */
  function Counted(s: Result<Reader, TlsError>): Result<Reader, TlsError> {
    if s.Err? then s
    else if CanAdvance(s.value.keys) then Ok(s.value.(keys := Advanced(s.value.keys)))
    else Err(CounterExhausted)
  }

  function HandleProtected(c: Crypto, get: MessageReader, r: Reader, f: Frame): Result<Reader, TlsError> {
    match OpenFrame(c, r.keys, f)
    case Err(e) => Err(e)
    case Ok((kind, content)) => Counted(HandleContent(c, get, r, kind, content))
  }

  /** An unprotected record's one message, alert, or nothing usable. */
  function HandlePlain(c: Crypto, get: MessageReader, r: Reader, kind: byte, body: bytes): Result<Reader, TlsError> {
    if kind == HANDSHAKE then
      match ReadMessage(c, get, r.digest, body)
      case Err(e) => Err(e)
      case Ok(Got(part, _)) =>
        if part.message.body.Ticket? then Ok(r.(digest := r.digest + part.taken)) else Err(Panicked)
    else if kind == ALERT then Err(AlertError(body))
    else if kind == CHANGE_CIPHER_SPEC then Err(InternalError)
    else Err(Unimplemented)
  }

  function Handle(c: Crypto, get: MessageReader, r: Reader, f: Frame): Result<Reader, TlsError>
    requires WireFrame(f)
  {
    if f.header[0] == APPLICATION_DATA then HandleProtected(c, get, r, f)
    else HandlePlain(c, get, r, f.header[0], f.body)
  }

  /** `read_application_data`. */
  function NextData(c: Crypto, get: MessageReader, cap: nat, r: Reader): (s: Result<Reader, TlsError>)
    ensures s.Ok? ==> |s.value.stream| < |r.stream| && s.value.isOpen == r.isOpen
  {
    match NextFrame(r.stream, cap)
    case Err(e) => Err(e)
    case Ok(Got(f, rest)) => Handle(c, get, r.(stream := rest), f)
  }

  ghost predicate Shrinks(fetch: Reader -> Result<Reader, TlsError>) {
    forall r :: fetch(r).Ok? ==> |fetch(r).value.stream| < |r.stream| && fetch(r).value.isOpen == r.isOpen
  }

  /** A way to read and handle one more record. */
  type Fetch = f: Reader -> Result<Reader, TlsError> | Shrinks(f) witness r => Err(IoError)

  function Records(c: Crypto, get: MessageReader, cap: nat): Fetch {
    (r: Reader) => NextData(c, get, cap, r)
  }

  /** `read_buffered`: records until there is something to read. */
  function Filled(fetch: Fetch, r: Reader): (s: Result<Reader, TlsError>)
    ensures s.Ok? ==> s.value.unread != [] && s.value.isOpen == r.isOpen
    decreases |r.stream|
  {
    if r.unread != [] then Ok(r)
    else
      match fetch(r)
      case Err(e) => Err(e)
      case Ok(next) => Filled(fetch, next)
  }

  // --- The calls ---

  datatype Op = Read(n: nat) | FillBuf | Consume(n: nat)

  function Least(a: nat, b: nat): (r: nat)
    ensures r <= a && r <= b && (r == a || r == b)
  {
    if a < b then a else b
  }

  function Popped(r: Reader, n: nat): Reader { r.(unread := r.unread[Least(n, |r.unread|)..]) }

  /** `n` bytes or fewer off the front of the window. */
  function Pop(r: Reader, n: nat): (Reader, bytes) { (Popped(r, n), r.unread[..Least(n, |r.unread|)]) }

  /** The reader after a call, and the bytes the call took from the stream. */
  function Did(fetch: Fetch, r: Reader, op: Op): (s: Result<(Reader, bytes), TlsError>)
    ensures s.Ok? && op.Read? && op.n > 0 ==> 1 <= |s.value.1| <= op.n
  {
    if op.Consume? then Ok(Pop(r, op.n))
    else if op == Read(0) then Ok((r, []))
    else if !r.isOpen then Err(MissingHandshake)
    else
      match Filled(fetch, r)
      case Err(e) => Err(e)
      case Ok(f) => if op.Read? then Ok(Pop(f, op.n)) else Ok((f, []))
  }

  /** A run of calls up to the first that fails. */
  function Run(fetch: Fetch, r: Reader, ops: seq<Op>): (Reader, bytes)
    decreases |ops|
  {
    if ops == [] then (r, [])
    else
      match Did(fetch, r, ops[0])
      case Err(_) => (r, [])
      case Ok((next, got)) => var (last, more) := Run(fetch, next, ops[1..]); (last, got + more)
  }

  /** Every payload still to come, up to the first record that cannot be handled. */
  function Plain(fetch: Fetch, r: Reader): bytes
    decreases |r.stream|
  {
    match fetch(r.(unread := []))
    case Err(_) => []
    case Ok(next) => next.unread + Plain(fetch, next)
  }

  /** All the application will ever get. */
  function Everything(fetch: Fetch, r: Reader): bytes { r.unread + Plain(fetch, r) }

  lemma {:induction false} FillKeepsEverything(fetch: Fetch, r: Reader)
    requires Filled(fetch, r).Ok?
    ensures Everything(fetch, Filled(fetch, r).value) == Everything(fetch, r)
    decreases |r.stream|
  {
    if r.unread == [] {
      assert r.(unread := []) == r;
      FillKeepsEverything(fetch, fetch(r).value);
      assert [] + Plain(fetch, r) == Plain(fetch, r);
    }
  }

  lemma {:induction false} PopKeepsEverything(fetch: Fetch, r: Reader, n: nat)
    ensures Pop(r, n).1 + Everything(fetch, Pop(r, n).0) == Everything(fetch, r)
  {
    var k := Least(n, |r.unread|);
    assert Popped(r, n).(unread := []) == r.(unread := []);
    Assoc(r.unread[..k], r.unread[k..], Plain(fetch, r));
    assert r.unread[..k] + r.unread[k..] == r.unread;
  }

  lemma {:induction false} StepKeepsEverything(fetch: Fetch, r: Reader, op: Op)
    requires Did(fetch, r, op).Ok?
    ensures var (next, got) := Did(fetch, r, op).value; got + Everything(fetch, next) == Everything(fetch, r)
  {
    if op.Consume? {
      PopKeepsEverything(fetch, r, op.n);
    } else if op != Read(0) {
      FillKeepsEverything(fetch, r);
      if op.Read? { PopKeepsEverything(fetch, Filled(fetch, r).value, op.n); }
    }
  }

  /**
   * Whatever mix of calls: what they took, followed by all that is still to come, is the
   * concatenation of the decrypted payloads.
   */
  lemma {:induction false} NothingLostOrRepeated(fetch: Fetch, r: Reader, ops: seq<Op>)
    ensures var (last, got) := Run(fetch, r, ops); got + Everything(fetch, last) == Everything(fetch, r)
    decreases |ops|
  {
    if ops != [] && Did(fetch, r, ops[0]).Ok? {
      var (next, got) := Did(fetch, r, ops[0]).value;
      StepKeepsEverything(fetch, r, ops[0]);
      NothingLostOrRepeated(fetch, next, ops[1..]);
      var (last, more) := Run(fetch, next, ops[1..]);
      Assoc(got, more, Everything(fetch, last));
    }
  }

  // --- The reader itself ---

  /** The window of decrypted bytes in the record buffer (src/common/decrypted_buffer_info.rs). */
  class DecryptedBufferInfo {
    var offset: nat
    var len: nat
    var consumed: nat

    constructor ()
      ensures offset == 0 && len == 0 && consumed == 0
    {
      offset, len, consumed := 0, 0, 0;
    }

    ghost predicate InRange(buffer: array<byte>)
      reads this
    {
      consumed <= len && offset + len <= buffer.Length
    }

    /** The decrypted bytes nobody has consumed. */
    function Window(buffer: array<byte>): (r: bytes)
      requires InRange(buffer)
      reads this, buffer
      ensures |r| == len - consumed
    {
      buffer[offset + consumed..offset + len]
    }

    /** `create_read_buffer`: a view of what has not been consumed. */
    method CreateReadBuffer(buffer: array<byte>) returns (b: ReadBuffer)
      requires InRange(buffer)
      ensures fresh(b) && b.info == this && b.data == Window(buffer) && b.consumed == 0 && !b.used
    {
      b := new ReadBuffer(buffer[offset + consumed..offset + len], this);
    }

    /** Booking `n` more bytes as consumed takes them off the front. */
    method Book(buffer: array<byte>, n: nat)
      requires InRange(buffer) && n <= len - consumed
      modifies `consumed
      ensures InRange(buffer) && Window(buffer) == old(Window(buffer))[n..]
    {
      consumed := consumed + n;
    }
  }

  /** Access to buffered bytes; what was consumed is booked when it is dropped (src/read_buffer.rs). */
  class ReadBuffer {
    const data: bytes
    const info: DecryptedBufferInfo
    var consumed: nat
    var used: bool

    constructor (data: bytes, info: DecryptedBufferInfo)
      ensures this.data == data && this.info == info && consumed == 0 && !used
    {
      this.data, this.info := data, info;
      consumed, used := 0, false;
    }

    ghost predicate Valid()
      reads this
    {
      consumed <= |data|
    }

    /** What has not been popped. */
    function Rest(): bytes
      requires Valid()
      reads this
    {
      data[consumed..]
    }

    method Peek(count: nat) returns (s: bytes)
      requires Valid()
      modifies `used
      ensures used && s == Rest()[..Least(count, |Rest()|)]
      ensures consumed == 0 && |data| <= count ==> s == data
    {
      var n := Least(count, |data| - consumed);
      used := true;
      s := data[consumed..consumed + n];
    }

    method Pop(count: nat) returns (s: bytes)
      requires Valid()
      modifies this
      ensures Valid() && used && |s| == Least(count, |old(Rest())|) && s == old(Rest())[..|s|]
      ensures consumed == old(consumed) + |s|
    {
      var n := Least(count, |data| - consumed);
      var start := consumed;
      consumed := consumed + n;
      used := true;
      s := data[start..start + n];
    }

    method PopInto(into: array<byte>) returns (n: nat)
      requires Valid()
      modifies this, into
      ensures Valid() && used && n == Least(into.Length, |old(Rest())|)
      ensures into[..n] == old(Rest())[..n] && consumed == old(consumed) + n
    {
      var s := Pop(into.Length);
      CopyInto(into, 0, s);
      assert into[..|s|] == s;
      n := |s|;
    }

    /** Dropping books what was popped, or everything if the buffer was never looked at. */
    method Drop(buffer: array<byte>)
      requires Valid() && info.InRange(buffer) && data == info.Window(buffer)
      modifies info`consumed
      ensures info.InRange(buffer) && info.Window(buffer) == if used then data[consumed..] else []
    {
      info.Book(buffer, if used then consumed else |data|);
    }
  }

  class TlsReader {
    const c: Crypto
    const get: MessageReader
    const transport: Transport
    const records: RecordReader
    const info: DecryptedBufferInfo
    var keys: Traffic
    var digest: bytes
    var isOpen: bool

    constructor (c: Crypto, get: MessageReader, transport: Transport, buf: array<byte>, keys: Traffic, digest: bytes)
      ensures Valid() && this.c == c && this.get == get && records.buf == buf && this.transport == transport
      ensures fresh(records) && fresh(info)
      ensures Now() == Reader([], transport.stream, keys, digest, true)
    {
      this.c, this.get, this.transport := c, get, transport;
      records := new RecordReader(buf);
      info := new DecryptedBufferInfo();
      this.keys, this.digest, isOpen := keys, digest, true;
    }

    ghost predicate Valid()
      reads records, info
    {
      records.Valid() && records.pending == 0 && info.InRange(records.buf) && Apart()
    }

    /** The parts are different objects. */
    ghost predicate Apart() {
      && (info as object) != this && (info as object) != records && (info as object) != transport
      && (info as object) != records.buf && (transport as object) != this && (transport as object) != records
      && (transport as object) != records.buf && (records as object) != this && (records as object) != records.buf
    }

    /** The decrypted bytes nobody has consumed. */
    function Window(): (r: bytes)
      requires info.InRange(records.buf)
      reads info, records.buf
      ensures |r| == info.len - info.consumed
    {
      info.Window(records.buf)
    }

    function Now(): Reader
      requires Valid()
      reads this, records, info, records.buf, transport
    {
      Reader(Window(), transport.stream, keys, digest, isOpen)
    }

    /** The reader is what the specification says, or the error is. */
    ghost predicate Became(spec: Result<Reader, TlsError>, r: Result<(), TlsError>)
      reads this, records, info, records.buf, transport
    {
      match spec
      case Err(e) => r == Err(e)
      case Ok(next) => r.Ok? && Valid() && Now() == next
    }

    /** A protected record's content lies at `at`; only application data moves the window. */
    method HandleOpened(kind: byte, at: nat, n: nat, ghost content: bytes) returns (r: Result<(), TlsError>)
      requires Valid() && Now().unread == [] && at + n <= records.buf.Length && records.buf[at..at + n] == content
      modifies this, info
      ensures Valid() && Became(HandleContent(c, get, old(Now()), kind, content), r)
      ensures isOpen == (old(isOpen) && !Closes(kind, content))
    {
      if kind == APPLICATION_DATA {
        info.offset, info.len, info.consumed := at, n, 0;
      } else if kind == HANDSHAKE {
        var decoded := DecodeCoalesced(c, get, IgnoreTickets(), (), digest, records.buf[at..at + n]);
        if decoded.Err? {
          return Err(decoded.error);
        }
        digest := decoded.value.digest;
      } else if kind == ALERT {
        var e := AlertError(records.buf[at..at + n]);
        if e == ConnectionClosed {
          isOpen := false;
        }
        return Err(e);
      } else {
        return Err(Unimplemented);
      }
      r := Ok(());
    }

    /** Decrypts a record where it lies: its type, and how long its content is. */
    method OpenHere(header: bytes, at: nat, n: nat, ghost body: bytes) returns (r: Result<(byte, nat), TlsError>)
      requires at + n <= records.buf.Length && records.buf[at..at + n] == body
      modifies records.buf
      ensures match OpenFrame(c, keys, Frame(header, body))
              case Err(e) => r == Err(e)
              case Ok((kind, content)) =>
                r == Ok((kind, |content|)) && |content| <= n && records.buf[at..at + |content|] == content
    {
      var buf := new CryptoBuffer(records.buf, at, at + n, n);
      assert buf.Contents() == body;
      var kind := OpenContent(c, keys, header, buf);
      if kind.Err? {
        return Err(kind.error);
      }
      assert buf.Contents() == records.buf[at..at + buf.len];
      r := Ok((kind.value, buf.len));
    }

    /** A protected record: decrypted where it lies, handled, and only then counted. */
    method HandleProtectedRecord(header: bytes, at: nat, n: nat, ghost body: bytes) returns (r: Result<(), TlsError>)
      requires Valid() && Now().unread == [] && at + n <= records.buf.Length && records.buf[at..at + n] == body
      modifies this, info, records.buf
      ensures Valid() && (isOpen ==> old(isOpen))
      ensures Became(HandleProtected(c, get, old(Now()), Frame(header, body)), r)
    {
      var content := OpenHere(header, at, n, body);
      if content.Err? {
        return Err(content.error);
      }
      assert Window() == [];
      ghost var plain := OpenFrame(c, keys, Frame(header, body)).value.1;
      ghost var spec := HandleContent(c, get, Now(), content.value.0, plain);
      r := HandleOpened(content.value.0, at, content.value.1, plain);
      r := Count(r, spec);
    }

    /** `increment_counter` after a record that was handled. */
    method Count(handled: Result<(), TlsError>, ghost spec: Result<Reader, TlsError>) returns (r: Result<(), TlsError>)
      requires Valid() && Became(spec, handled)
      modifies `keys
      ensures Valid() && Became(Counted(spec), r)
    {
      if handled.Err? {
        return handled;
      }
      if !CanAdvance(keys) {
        return Err(CounterExhausted);
      }
      keys := Advanced(keys);
      r := Ok(());
    }

    method HandlePlainRecord(kind: byte, body: bytes) returns (r: Result<(), TlsError>)
      requires Valid()
      modifies this
      ensures Valid() && (isOpen ==> old(isOpen))
      ensures Became(HandlePlain(c, get, old(Now()), kind, body), r)
    {
      if kind == HANDSHAKE {
        var got := ReadMessage(c, get, digest, body);
        if got.Err? {
          return Err(got.error);
        }
        digest := digest + got.value.v.taken;
        return if got.value.v.message.body.Ticket? then Ok(()) else Err(Panicked);
      }
      if kind == ALERT {
        var e := AlertError(body);
        if e == ConnectionClosed {
          isOpen := false;
        }
        return Err(e);
      }
      return if kind == CHANGE_CIPHER_SPEC then Err(InternalError) else Err(Unimplemented);
    }

    /** `read_application_data`; it is only called once everything decrypted has been consumed. */
    method ReadApplicationData() returns (r: Result<(), TlsError>)
      requires Valid() && Now().unread == []
      modifies this, info, records, records.buf, transport
      ensures isOpen ==> old(isOpen)
      ensures Became(NextData(c, get, records.buf.Length, old(Now())), r)
    {
      ghost var before := Now();
      var got := records.ReadRecord(transport);
      if got.Err? {
        return Err(got.error);
      }
      var (header, at) := got.value;
      var n := records.decoded - at;
      ghost var f := Frame(header, records.buf[at..at + n]);
      assert Window() == [];
      assert Now() == before.(stream := transport.stream);
      assert NextData(c, get, records.buf.Length, before) == Handle(c, get, Now(), f);
      if header[0] == APPLICATION_DATA {
        r := HandleProtectedRecord(header, at, n, f.body);
      } else {
        r := HandlePlainRecord(header[0], records.buf[at..at + n]);
      }
    }

    /** `read_buffered`: reads records until the window is not empty. */
    method Fill() returns (r: Result<(), TlsError>)
      requires Valid()
      modifies this, info, records, records.buf, transport
      ensures if !old(isOpen) then r == Err(MissingHandshake) && Valid() && Now() == old(Now())
              else Became(Filled(Records(c, get, records.buf.Length), old(Now())), r)
    {
      if !isOpen {
        return Err(MissingHandshake);
      }
      ghost var fetch := Records(c, get, records.buf.Length);
      while info.len - info.consumed == 0
        invariant Valid() && Filled(fetch, old(Now())) == Filled(fetch, Now())
        decreases |transport.stream|
      {
        assert Now().unread == [];
        r := ReadApplicationData();
        if r.Err? {
          return r;
        }
      }
      r := Ok(());
    }

    /** Takes from the front of the window through a read buffer. */
    method PopInto(into: array<byte>) returns (n: nat)
      requires Valid() && into != records.buf
      modifies info`consumed, into
      ensures Valid() && n == Least(into.Length, |old(Window())|)
      ensures into[..n] == old(Window())[..n] && Window() == old(Window())[n..]
    {
      var b := info.CreateReadBuffer(records.buf);
      n := b.PopInto(into);
      b.Drop(records.buf);
    }

    /** `read`. */
    method Read(into: array<byte>) returns (r: Result<nat, TlsError>)
      requires Valid() && into != records.buf
      modifies this, info, records, records.buf, transport, into
      ensures match Did(Records(c, get, records.buf.Length), old(Now()), Op.Read(into.Length))
              case Err(e) => r == Err(e)
              case Ok((next, got)) =>
                r == Ok(|got|) && Valid() && Now() == next && |got| <= into.Length && into[..|got|] == got
    {
      if into.Length == 0 {
        return Ok(0);
      }
      var filled := Fill();
      if filled.Err? {
        return Err(filled.error);
      }
      var n := PopInto(into);
      r := Ok(n);
    }

    /** Shows the whole window and books nothing. */
    method Peek() returns (s: bytes)
      requires Valid()
      modifies info`consumed
      ensures Valid() && s == old(Window()) == Window()
    {
      var b := info.CreateReadBuffer(records.buf);
      s := b.Peek(|b.data|);
      b.Drop(records.buf);
    }

    /** `fill_buf`: shows everything in the window and consumes nothing. */
    method FillBuf() returns (r: Result<bytes, TlsError>)
      requires Valid()
      modifies this, info, records, records.buf, transport
      ensures match Did(Records(c, get, records.buf.Length), old(Now()), Op.FillBuf)
              case Err(e) => r == Err(e)
              case Ok((next, _)) => r == Ok(next.unread) && Valid() && Now() == next
    {
      var filled := Fill();
      if filled.Err? {
        return Err(filled.error);
      }
      var s := Peek();
      r := Ok(s);
    }

    method Consume(n: nat)
      requires Valid()
      modifies info`consumed
      ensures Valid() && Now() == Popped(old(Now()), n)
    {
      var b := info.CreateReadBuffer(records.buf);
      var s := b.Pop(n);
      b.Drop(records.buf);
    }
  }
}
