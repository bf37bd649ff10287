/** Sealed payloads to client application: what a peer seals is what `read` and friends hand out. */
module ClientDelivery {
  import opened Basics
  import opened Crypto
  import opened KeySchedules
  import opened ParseBuffers
  import opened ServerSpec
  import opened Framing
  import opened AppRecords
  import opened RecordReaders
  import opened ServerMessages
  import opened Decrypts
  import opened Readers
  import W = Writers

  /** A sealed payload opens to itself, even if it is empty or ends in zeros. */
  lemma {:induction false} SealedOpens(c: Crypto, t: Traffic, payload: bytes)
    ensures OpenFrame(c, t, W.RecordOf(c, t, payload)) == Ok((APPLICATION_DATA, payload))
  {
    MarkerFound(payload, APPLICATION_DATA, 0);
    var p := payload + [APPLICATION_DATA];
    assert p == payload + [APPLICATION_DATA] + Zeros(0);
  }

  lemma {:induction false} FrontRead(f: Frame, rest: bytes, cap: nat)
    requires WireFrame(f) && Readable(f, cap)
    ensures NextFrame(EncodeFrame(f) + rest, cap) == Ok(Got(f, rest))
  {
    FrameFront(f, rest);
    assert (EncodeFrame(f) + rest)[0] == f.header[0];
  }

  /** One sealed record at the front of the stream: its payload becomes the window. */
  lemma {:induction false} OneRecord(c: Crypto, get: MessageReader, cap: nat, r: Reader, payload: bytes, rest: bytes)
    requires CanAdvance(r.keys) && |payload| + 1 + TAG_LEN < 65536 && |payload| + 1 + TAG_LEN <= cap
    requires r.stream == EncodeFrame(W.RecordOf(c, r.keys, payload)) + rest
    ensures NextData(c, get, cap, r) == Ok(r.(unread := payload, stream := rest, keys := Advanced(r.keys)))
  {
    var f := W.RecordOf(c, r.keys, payload);
    U16Read(|payload| + 1 + TAG_LEN);
    FrontRead(f, rest, cap);
    SealedOpens(c, r.keys, payload);
  }

  /** Whatever is already in the window: the payloads sealed at the reader's counter on are what follows it. */
  lemma {:induction false} PlainIsPayloads(c: Crypto, get: MessageReader, cap: nat, r: Reader, payloads: seq<bytes>)
    requires r.keys.counter + |payloads| < COUNTER_LIMIT
    requires forall i :: 0 <= i < |payloads| ==>
      |payloads[i]| + 1 + TAG_LEN < 65536 && |payloads[i]| + 1 + TAG_LEN <= cap
    requires r.stream == EncodeAll(EncodeFrame, W.RecordsOf(c, r.keys, payloads))
    ensures Plain(Readers.Records(c, get, cap), r) == W.Concat(payloads)
    decreases |payloads|
  {
    if payloads == [] {
      assert r.stream == [];
      assert Readers.Records(c, get, cap)(r.(unread := [])) == Err(IoError);
    } else {
      var next := FrontFetched(c, get, cap, r, payloads);
      PlainIsPayloads(c, get, cap, next, payloads[1..]);
      W.ConcatFront(payloads);
    }
  }

  /** The first of several sealed payloads is fetched, and the others are what is left. */
  lemma {:induction false} FrontFetched(c: Crypto, get: MessageReader, cap: nat, r: Reader, payloads: seq<bytes>)
    returns (next: Reader)
    requires payloads != [] && CanAdvance(r.keys)
    requires |payloads[0]| + 1 + TAG_LEN < 65536 && |payloads[0]| + 1 + TAG_LEN <= cap
    requires r.keys.counter + |payloads| < COUNTER_LIMIT
    requires r.stream == EncodeAll(EncodeFrame, W.RecordsOf(c, r.keys, payloads))
    ensures Readers.Records(c, get, cap)(r.(unread := [])) == Ok(next)
    ensures next.unread == payloads[0] && next.keys == Advanced(r.keys) == W.At(r.keys, 1) && next.isOpen == r.isOpen
    ensures next.stream == EncodeAll(EncodeFrame, W.RecordsOf(c, next.keys, payloads[1..]))
  {
    W.LaterFrames(c, r.keys, payloads);
    var frames := W.RecordsOf(c, r.keys, payloads);
    var later := W.RecordsOf(c, W.At(r.keys, 1), payloads[1..]);
    assert frames[0] == W.RecordOf(c, r.keys, payloads[0]) && frames[1..] == later;
    var rest := EncodeAll(EncodeFrame, later);
    OneRecord(c, get, cap, r.(unread := []), payloads[0], rest);
    next := r.(unread := payloads[0], stream := rest, keys := Advanced(r.keys));
  }

  /**
   * For every sequence of payloads a peer seals under the client's read keys, every buffer that
   * holds its records, and every mix of calls: the bytes taken so far are a prefix of the
   * payloads' concatenation, and the rest of it is still to come.
   */
  lemma {:induction false} ClientReadsWhatWasSealed(
    c: Crypto, get: MessageReader, cap: nat, t: Traffic, digest: bytes, payloads: seq<bytes>, ops: seq<Readers.Op>)
    requires t.counter + |payloads| < COUNTER_LIMIT
    requires forall i :: 0 <= i < |payloads| ==>
      |payloads[i]| + 1 + TAG_LEN < 65536 && |payloads[i]| + 1 + TAG_LEN <= cap
    ensures var fetch := Readers.Records(c, get, cap);
            var (last, got) := Readers.Run(fetch, Reader([], W.Emitted(c, t, payloads), t, digest, true), ops);
            got + Everything(fetch, last) == W.Concat(payloads)
  {
    var fetch := Readers.Records(c, get, cap);
    var r := Reader([], W.Emitted(c, t, payloads), t, digest, true);
    W.EmittedIsEncoded(c, t, payloads);
    PlainIsPayloads(c, get, cap, r, payloads);
    NothingLostOrRepeated(fetch, r, ops);
    assert [] + W.Concat(payloads) == W.Concat(payloads);
  }

  // --- From the server's side ---

  /** A server session sending application data records one after another: the session and the bytes sent. */
  function SendAll(c: Crypto, s: Session, payloads: seq<bytes>, cap: nat): (Session, bytes) {
    if payloads == [] then (s, [])
    else
      var n := |payloads| - 1;
      var (s1, sent) := SendAll(c, s, payloads[..n], cap);
      var o := Protect(c, s1, payloads[n] + [APPLICATION_DATA], cap);
      (o.session, sent + if o.reply.Ok? && o.reply.value.Protected? then o.reply.value.bytes else [])
  }

  lemma {:induction false} SendAllEmits(c: Crypto, s: Session, payloads: seq<bytes>, cap: nat)
    requires s.ks.server.counter + |payloads| < COUNTER_LIMIT
    requires forall i :: 0 <= i < |payloads| ==>
      |payloads[i]| + 1 + TAG_LEN < 65536 && |payloads[i]| + 6 + TAG_LEN <= cap
    ensures SendAll(c, s, payloads, cap)
         == (s.(ks := s.ks.(server := W.At(s.ks.server, |payloads|))), W.Emitted(c, s.ks.server, payloads))
    decreases |payloads|
  {
    if payloads == [] {
      assert W.At(s.ks.server, 0) == s.ks.server;
    } else {
      SendAllEmits(c, s, payloads[..|payloads| - 1], cap);
    }
  }

  /** Whatever a server session sends, a client on the other end of the same keys reads, by any mix of calls. */
  lemma {:induction false} ClientReadsWhatServerSent(
    c: Crypto, s: Session, payloads: seq<bytes>, out: nat,
    get: MessageReader, cap: nat, digest: bytes, ops: seq<Readers.Op>)
    requires s.ks.server.counter + |payloads| < COUNTER_LIMIT
    requires forall i :: 0 <= i < |payloads| ==>
      |payloads[i]| + 1 + TAG_LEN < 65536 && |payloads[i]| + 6 + TAG_LEN <= out && |payloads[i]| + 1 + TAG_LEN <= cap
    ensures var fetch := Readers.Records(c, get, cap);
            var stream := SendAll(c, s, payloads, out).1;
            var (last, got) := Readers.Run(fetch, Reader([], stream, s.ks.server, digest, true), ops);
            got + Everything(fetch, last) == W.Concat(payloads)
  {
    SendAllEmits(c, s, payloads, out);
    ClientReadsWhatWasSealed(c, get, cap, s.ks.server, digest, payloads, ops);
  }
}
