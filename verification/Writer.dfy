/** `write` and `flush` (src/blocking.rs:135-177): what the application writes is what the records carry. */
module Writers {
  import opened Basics
  import opened Crypto
  import opened KeySchedules
  import opened ParseBuffers
  import opened ServerSpec
  import opened Framing
  import opened WriteBuffers

  /** The payloads sealed so far, and that of the open record. */
  datatype Writer = Writer(sealed: seq<bytes>, current: Option<bytes>)

  const NEW_WRITER: Writer := Writer([], None)

  datatype Op = Write(data: bytes) | Flush

  /** The most payload a record can hold in a buffer of `cap` bytes. */
  function Room(cap: nat): nat
    requires OVERHEAD + 5 <= cap
  {
    cap - OVERHEAD - 5
  }

  function Unsent(w: Writer): bytes { if w.current.Some? then w.current.value else [] }

  function Flushed(w: Writer): Writer {
    if w.current.Some? then Writer(w.sealed + [w.current.value], None) else w
  }

  /** A full record is always sealed at once. */
  predicate Fits(cap: nat, w: Writer)
    requires OVERHEAD + 5 <= cap
  {
    && (w.current.Some? ==> |w.current.value| < Room(cap))
    && forall i :: 0 <= i < |w.sealed| ==> |w.sealed[i]| <= Room(cap)
  }

  /** How many bytes a write takes. */
  function Taken(cap: nat, w: Writer, data: bytes): (n: nat)
    requires OVERHEAD + 5 <= cap && Fits(cap, w)
    ensures n <= |data|
  {
    var space := Room(cap) - |Unsent(w)|;
    if |data| < space then |data| else space
  }

  /** The bytes an operation takes over from the application. */
  function Taking(cap: nat, w: Writer, op: Op): bytes
    requires OVERHEAD + 5 <= cap && Fits(cap, w)
  {
    if op.Write? then op.data[..Taken(cap, w, op.data)] else []
  }

  function Wrote(cap: nat, w: Writer, data: bytes): Writer
    requires OVERHEAD + 5 <= cap && Fits(cap, w)
  {
    var payload := Unsent(w) + data[..Taken(cap, w, data)];
    if |payload| == Room(cap) then Writer(w.sealed + [payload], None) else Writer(w.sealed, Some(payload))
  }

  /** Taking as much as fits is what a write does. */
  lemma {:induction false} TakesWhatFits(cap: nat, w: Writer, data: bytes, n: nat)
    requires OVERHEAD + 5 <= cap && Fits(cap, w) && n <= |data|
    requires |Unsent(w)| + n <= Room(cap) && (n == |data| || |Unsent(w)| + n == Room(cap))
    ensures Taken(cap, w, data) == n
    ensures var open := Writer(w.sealed, Some(Unsent(w) + data[..n]));
            Wrote(cap, w, data) == if |Unsent(w)| + n == Room(cap) then Flushed(open) else open
    ensures Fits(cap, Wrote(cap, w, data))
  {
  }

  function Did(cap: nat, w: Writer, op: Op): (r: Writer)
    requires OVERHEAD + 5 <= cap && Fits(cap, w)
    ensures Fits(cap, r)
  {
    if op.Flush? then Flushed(w) else Wrote(cap, w, op.data)
  }

  function Run(cap: nat, w: Writer, ops: seq<Op>): (r: Writer)
    requires OVERHEAD + 5 <= cap && Fits(cap, w)
    ensures Fits(cap, r)
    decreases |ops|
  {
    if ops == [] then w else Run(cap, Did(cap, w, ops[0]), ops[1..])
  }

  /** The bytes the writes of a run reported as taken. */
  function Accepted(cap: nat, w: Writer, ops: seq<Op>): bytes
    requires OVERHEAD + 5 <= cap && Fits(cap, w)
    decreases |ops|
  {
    if ops == [] then []
    else Taking(cap, w, ops[0]) + Accepted(cap, Did(cap, w, ops[0]), ops[1..])
  }

  function Concat(parts: seq<bytes>): bytes {
    if parts == [] then [] else Concat(parts[..|parts| - 1]) + parts[|parts| - 1]
  }

  lemma {:induction false} ConcatAppend(parts: seq<bytes>, p: bytes)
    ensures Concat(parts + [p]) == Concat(parts) + p
  {
    assert (parts + [p])[..|parts|] == parts;
  }

  lemma {:induction false} ConcatFront(parts: seq<bytes>)
    requires parts != []
    ensures Concat(parts) == parts[0] + Concat(parts[1..])
  {
    var n := |parts| - 1;
    if n == 0 {
      assert parts[..0] == [] && parts[1..] == [];
      assert Concat(parts) == [] + parts[0] == parts[0] + [];
    } else {
      ConcatFront(parts[..n]);
      assert parts[..n][1..] == parts[1..][..n - 1];
      Assoc(parts[0], Concat(parts[1..][..n - 1]), parts[n]);
    }
  }

  function Stream(w: Writer): bytes { Concat(w.sealed) + Unsent(w) }

  lemma {:induction false} StepConserved(cap: nat, w: Writer, op: Op)
    requires OVERHEAD + 5 <= cap && Fits(cap, w)
    ensures w.sealed <= Did(cap, w, op).sealed
    ensures Stream(Did(cap, w, op)) == Stream(w) + Taking(cap, w, op)
  {
    match op {
      case Flush =>
        if w.current.Some? { ConcatAppend(w.sealed, w.current.value); }
      case Write(data) =>
        var payload := Unsent(w) + data[..Taken(cap, w, data)];
        ConcatAppend(w.sealed, payload);
    }
  }

  /** Whatever the writes and flushes: sealed payloads and buffered payload are the accepted bytes, in order. */
  lemma {:induction false} WritesConserved(cap: nat, w: Writer, ops: seq<Op>)
    requires OVERHEAD + 5 <= cap && Fits(cap, w)
    ensures Stream(Run(cap, w, ops)) == Stream(w) + Accepted(cap, w, ops)
    ensures w.sealed <= Run(cap, w, ops).sealed
    decreases |ops|
  {
    if ops != [] {
      var w1 := Did(cap, w, ops[0]);
      StepConserved(cap, w, ops[0]);
      WritesConserved(cap, w1, ops[1..]);
      Assoc(Stream(w), Taking(cap, w, ops[0]), Accepted(cap, w1, ops[1..]));
    }
  }

  /** Without a flush, every record sealed is full. */
  lemma {:induction false} OnlyFullRecords(cap: nat, w: Writer, ops: seq<Op>, i: nat)
    requires OVERHEAD + 5 <= cap && Fits(cap, w)
    requires forall k :: 0 <= k < |ops| ==> ops[k].Write?
    requires |w.sealed| <= i < |Run(cap, w, ops).sealed|
    ensures |Run(cap, w, ops).sealed[i]| == Room(cap)
    decreases |ops|
  {
    if ops != [] {
      var w1 := Did(cap, w, ops[0]);
      StepConserved(cap, w, ops[0]);
      WritesConserved(cap, w1, ops[1..]);
      if i >= |w1.sealed| { OnlyFullRecords(cap, w1, ops[1..], i); }
    }
  }

  /** Every non-empty write makes progress exactly when the buffer has a byte to spare: 134 bytes. */
  lemma {:induction false} ProgressExactlyWhen(cap: nat)
    requires OVERHEAD + 5 <= cap
    ensures (forall w, data :: Fits(cap, w) && data != [] ==> Taken(cap, w, data) >= 1) <==> 134 <= cap
  {
    if cap < 134 {
      assert Fits(cap, NEW_WRITER) && Taken(cap, NEW_WRITER, [0]) == 0;
    }
  }

  /** The length field of a record with `n` bytes of payload, as the reader will see it. */
  predicate LengthExact(n: nat) {
    var field := U16(n + 1 + TAG_LEN);
    FromU16(field[0], field[1]) == n + 1 + TAG_LEN
  }

  /** Every record's 16-bit length is exact precisely up to a buffer of 65651 bytes. */
  lemma {:induction false} LengthsExactlyWhen(cap: nat)
    requires OVERHEAD + 5 <= cap
    ensures (forall n: nat | n <= Room(cap) :: LengthExact(n)) <==> cap <= 65651
  {
    if cap <= 65651 {
      forall n: nat | n <= Room(cap) ensures LengthExact(n) {
        U16Read(n + 1 + TAG_LEN);
      }
    } else {
      assert !LengthExact(65519);
    }
  }

  // --- On the wire ---

  function At(t: Traffic, i: nat): Traffic
    requires t.counter + i < COUNTER_LIMIT
  {
    t.(counter := t.counter + i)
  }

  /** The records carrying `payloads`, the first at `t`'s counter. */
  function Emitted(c: Crypto, t: Traffic, payloads: seq<bytes>): bytes
    requires t.counter + |payloads| < COUNTER_LIMIT
  {
    if payloads == [] then []
    else
      var n := |payloads| - 1;
      Emitted(c, t, payloads[..n]) + SealedRecord(c, At(t, n), payloads[n] + [APPLICATION_DATA])
  }

  function RecordOf(c: Crypto, t: Traffic, payload: bytes): Frame {
    var n := |payload| + 1 + TAG_LEN;
    Frame(Aad(n), c.val(Sealed(t.key, NonceOf(c, t), Aad(n), payload + [APPLICATION_DATA])))
  }

  function RecordsOf(c: Crypto, t: Traffic, payloads: seq<bytes>): (r: seq<Frame>)
    requires t.counter + |payloads| < COUNTER_LIMIT
    ensures |r| == |payloads|
    ensures forall i :: 0 <= i < |payloads| ==> r[i] == RecordOf(c, At(t, i), payloads[i])
  {
    seq(|payloads|, i requires 0 <= i < |payloads| => RecordOf(c, At(t, i), payloads[i]))
  }

  lemma {:induction false} LaterFrames(c: Crypto, t: Traffic, payloads: seq<bytes>)
    requires 0 < |payloads| && t.counter + |payloads| < COUNTER_LIMIT
    ensures RecordsOf(c, t, payloads) == [RecordOf(c, t, payloads[0])] + RecordsOf(c, At(t, 1), payloads[1..])
  {
    assert At(t, 0) == t;
    forall i | 1 <= i < |payloads| ensures At(At(t, 1), i - 1) == At(t, i) {
    }
  }

  lemma {:induction false} EmittedIsEncoded(c: Crypto, t: Traffic, payloads: seq<bytes>)
    requires t.counter + |payloads| < COUNTER_LIMIT
    ensures Emitted(c, t, payloads) == EncodeAll(EncodeFrame, RecordsOf(c, t, payloads))
  {
    if payloads != [] {
      var n := |payloads| - 1;
      EmittedIsEncoded(c, t, payloads[..n]);
      EncodeAllAppend(EncodeFrame, RecordsOf(c, t, payloads[..n]), RecordOf(c, At(t, n), payloads[n]));
      assert RecordsOf(c, t, payloads) == RecordsOf(c, t, payloads[..n]) + [RecordOf(c, At(t, n), payloads[n])];
    }
  }

  lemma {:induction false} CountersDiffer(c: Crypto, t: Traffic, i: nat, j: nat)
    requires i < j && t.counter + j < COUNTER_LIMIT
    ensures NonceOf(c, At(t, i)) != NonceOf(c, At(t, j))
  {
    if NonceOf(c, At(t, i)) == NonceOf(c, At(t, j)) {
      NonceInjective(c.val(t.iv), t.counter + i, t.counter + j);
      assert false;
    }
  }

  /**
   * Whatever is written and flushed: the bytes that go out are records, and no two of them are sealed
   * under the same nonce.
   */
  lemma {:induction false} RecordNoncesDiffer(
    c: Crypto, t: Traffic, cap: nat, ops: seq<Op>, payloads: seq<bytes>, i: nat, j: nat)
    requires OVERHEAD + 5 <= cap && payloads == Run(cap, NEW_WRITER, ops).sealed
    requires i < j < |payloads| && t.counter + |payloads| < COUNTER_LIMIT
    ensures var records := RecordsOf(c, t, payloads);
            && Emitted(c, t, payloads) == EncodeAll(EncodeFrame, records)
            && records[i] == RecordOf(c, At(t, i), payloads[i]) && records[j] == RecordOf(c, At(t, j), payloads[j])
            && NonceOf(c, At(t, i)) != NonceOf(c, At(t, j))
  {
    EmittedIsEncoded(c, t, payloads);
    CountersDiffer(c, t, i, j);
  }

  /** The peer finds exactly these records on the wire, each under its own header as additional data. */
  lemma {:induction false} RecordsOnTheWire(c: Crypto, t: Traffic, payloads: seq<bytes>)
    requires t.counter + |payloads| < COUNTER_LIMIT
    requires forall i :: 0 <= i < |payloads| ==> |payloads[i]| + 1 + TAG_LEN < 65536
    ensures Frames(Emitted(c, t, payloads)) == Got(RecordsOf(c, t, payloads), [])
  {
    EmittedIsEncoded(c, t, payloads);
    forall i | 0 <= i < |payloads| ensures WireFrame(RecordsOf(c, t, payloads)[i]) {
      U16Read(|payloads[i]| + 1 + TAG_LEN);
    }
    FramesOfEncoded(RecordsOf(c, t, payloads));
  }

  // --- The writer itself ---

  class TlsWriter {
    const c: Crypto
    const records: WriteBuffer
    var isOpen: bool
    var keys: Traffic
    /** Everything handed to the transport. */
    var wire: bytes

    /** The payloads written so far, and where the wire and the keys stood before them. */
    ghost var model: Writer
    ghost const earlier: bytes
    ghost const start: Traffic

    constructor (c: Crypto, buffer: array<byte>, keys: Traffic, wire: bytes)
      requires OVERHEAD + 5 <= buffer.Length
      ensures Valid() && fresh(records) && records.buffer == buffer && isOpen
      ensures model == NEW_WRITER && this.c == c && earlier == wire && start == keys
    {
      this.c := c;
      records := new WriteBuffer(buffer);
      isOpen, this.keys, this.wire := true, keys, wire;
      model, earlier, start := NEW_WRITER, wire, keys;
    }

    /** Buffer, keys and wire agree with the model. */
    ghost predicate Synced()
      reads this, records, records.buffer
    {
      && records.Valid() && (records.header.Some? ==> records.header.value.DataHeader?)
      && model.current == (if records.header.None? then None else Some(records.Payload()))
      && start.counter + |model.sealed| < COUNTER_LIMIT && keys == At(start, |model.sealed|)
      && wire == earlier + Emitted(c, start, model.sealed)
    }

    ghost predicate Valid()
      reads this, records, records.buffer
    {
      Synced() && Fits(records.buffer.Length, model)
    }

    method Flush()
      requires Synced() && CanAdvance(keys)
      modifies this, records, records.buffer
      ensures Synced() && model == Flushed(old(model)) && isOpen == old(isOpen)
      ensures old(model).current.None? ==> keys == old(keys)
      ensures old(Valid()) ==> Valid()
    {
      if records.pos != 0 {
        var record := records.CloseRecord(c, keys);
        wire := wire + record;
        keys := Advanced(keys);
        model := Flushed(model);
        assert model.sealed[..|model.sealed| - 1] == old(model).sealed;
        Assoc(earlier, Emitted(c, start, old(model).sealed), record);
      }
    }

    /** A record of application data is open afterwards. */
    method OpenRecord()
      requires Synced() && CanAdvance(keys)
      modifies this, records, records.buffer
      ensures Synced() && isOpen == old(isOpen) && keys == old(keys)
      ensures model == Writer(old(model).sealed, Some(Unsent(old(model))))
    {
      if records.header != Some(DataHeader) {
        Flush();
        records.StartRecord(DataHeader);
        model := Writer(model.sealed, Some([]));
      }
    }

    /** Adds to the open record whatever still fits. */
    method Extend(data: bytes) returns (n: nat)
      requires Synced() && model.current.Some?
      modifies this`model, records, records.buffer
      ensures Synced() && n <= |data| && keys == old(keys) && isOpen == old(isOpen)
      ensures model == Writer(old(model).sealed, Some(old(model).current.value + data[..n]))
      ensures |model.current.value| <= Room(records.buffer.Length)
      ensures n == |data| || |model.current.value| == Room(records.buffer.Length)
    {
      n := records.Append(data);
      model := Writer(model.sealed, Some(records.Payload()));
    }

    /** A full record is sealed at once. */
    method SealIfFull()
      requires Synced() && CanAdvance(keys) && model.current.Some?
      modifies this, records, records.buffer
      ensures Synced() && isOpen == old(isOpen)
      ensures model == if |old(model).current.value| == Room(records.buffer.Length)
              then Flushed(old(model)) else old(model)
    {
      if records.IsFull() {
        Flush();
      }
    }

    /** Takes a prefix of `data`; a record is sealed as soon as it is full. */
    method Write(data: bytes) returns (r: Result<nat, TlsError>)
      requires Valid() && CanAdvance(keys)
      modifies this, records, records.buffer
      ensures Valid()
      ensures if old(isOpen)
              then && r == Ok(Taken(records.buffer.Length, old(model), data))
                   && model == Wrote(records.buffer.Length, old(model), data)
              else r == Err(MissingHandshake) && model == old(model) && wire == old(wire)
    {
      if !isOpen {
        return Err(MissingHandshake);
      }
      OpenRecord();
      var n := Extend(data);
      TakesWhatFits(records.buffer.Length, old(model), data, n);
      SealIfFull();
      r := Ok(n);
    }

    /** The close_notify record, protected once the handshake is done. */
    method WriteCloseNotify()
      requires records.Valid() && records.header.None? && CanAdvance(keys)
      modifies this, records, records.buffer
      ensures wire == old(wire) + ClosedRecord(c, old(keys), AlertHeader(isOpen), CLOSE_NOTIFY)
      ensures keys == Advanced(old(keys)) && model == old(model) && isOpen == old(isOpen)
    {
      var written := records.WriteRecord(c, keys, AlertHeader(isOpen), CLOSE_NOTIFY);
      wire := wire + written.value;
      keys := Advanced(keys);
    }

    /** `close`: what is buffered goes out first, then the alert. */
    method Close()
      requires Valid() && keys.counter + 2 < COUNTER_LIMIT
      modifies this, records, records.buffer
      ensures model == Flushed(old(model))
      ensures wire == earlier + Emitted(c, start, model.sealed)
                      + ClosedRecord(c, At(start, |model.sealed|), AlertHeader(isOpen), CLOSE_NOTIFY)
      ensures keys == At(start, |model.sealed| + 1)
    {
      Flush();
      WriteCloseNotify();
    }
  }
}
