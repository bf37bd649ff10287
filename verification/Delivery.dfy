/** Client writer to server session: the server reads what the application wrote. */
module Delivery {
  import opened Basics
  import opened Crypto
  import opened KeySchedules
  import opened ServerSpec
  import opened Framing
  import opened AppRecords
  import opened WriteBuffers
  import opened Writers

  function DataEvents(payloads: seq<bytes>): (r: seq<Event>)
    ensures |r| == |payloads| && forall i :: 0 <= i < |r| ==> r[i] == Data(payloads[i], 0)
  {
    seq(|payloads|, i requires 0 <= i < |payloads| => Data(payloads[i], 0))
  }

  function Records(frames: seq<Frame>): (r: seq<bytes>)
    ensures |r| == |frames| && forall i :: 0 <= i < |r| ==> r[i] == EncodeFrame(frames[i])
  {
    seq(|frames|, i requires 0 <= i < |frames| => EncodeFrame(frames[i]))
  }

  function Payload(r: Reply): bytes { if r.AppData? then r.payload else [] }

  /** The application data among the replies, joined. */
  function Payloads(rs: seq<Reply>): bytes {
    Concat(seq(|rs|, i requires 0 <= i < |rs| => Payload(rs[i])))
  }

  lemma {:induction false} LaterRecords(c: Crypto, t: Traffic, payloads: seq<bytes>)
    requires 0 < |payloads| && t.counter + |payloads| < COUNTER_LIMIT
    ensures Records(RecordsOf(c, t, payloads))
         == [EncodeFrame(RecordOf(c, t, payloads[0]))] + Records(RecordsOf(c, At(t, 1), payloads[1..]))
  {
    LaterFrames(c, t, payloads);
  }

  lemma {:induction false} WireIsRecords(c: Crypto, t: Traffic, payloads: seq<bytes>)
    requires t.counter + |payloads| < COUNTER_LIMIT
    ensures Wire(c, t, DataEvents(payloads)) == Records(RecordsOf(c, t, payloads))
    decreases |payloads|
  {
    if payloads != [] {
      var events := DataEvents(payloads);
      assert events[1..] == DataEvents(payloads[1..]);
      assert Inner(events[0]) == payloads[0] + [APPLICATION_DATA];
      WireIsRecords(c, At(t, 1), payloads[1..]);
      LaterRecords(c, t, payloads);
    }
  }

  lemma {:induction false} MeaningsOfData(payloads: seq<bytes>)
    ensures Meanings(DataEvents(payloads)) == seq(|payloads|, i requires 0 <= i < |payloads| => AppData(payloads[i]))
    decreases |payloads|
  {
    if payloads != [] {
      MeaningsOfData(payloads[1..]);
      assert DataEvents(payloads)[1..] == DataEvents(payloads[1..]);
    }
  }

  lemma {:induction false} PayloadsOfData(payloads: seq<bytes>)
    ensures Payloads(Meanings(DataEvents(payloads))) == Concat(payloads)
  {
    MeaningsOfData(payloads);
    var replies := Meanings(DataEvents(payloads));
    assert seq(|replies|, i requires 0 <= i < |replies| => Payload(replies[i])) == payloads;
  }

  lemma {:induction false} DataPlausible(c: Crypto, t: Traffic, payloads: seq<bytes>, room: nat)
    requires t.counter + |payloads| < COUNTER_LIMIT
    requires forall i :: 0 <= i < |payloads| ==>
      |payloads[i]| + 1 + TAG_LEN < 65536 && |payloads[i]| + 1 + TAG_LEN <= room
    ensures AllPlausible(c, t, DataEvents(payloads), room)
    decreases |payloads|
  {
    if payloads != [] {
      var events := DataEvents(payloads);
      assert events[1..] == DataEvents(payloads[1..]);
      assert |Inner(events[0])| == |payloads[0]| + 1;
      DataPlausible(c, Next(t, events[0]), payloads[1..], room);
    }
  }

  lemma {:induction false} ServerReadsPayloads(c: Crypto, s: Session, payloads: seq<bytes>, room: nat)
    requires s.ks.client.counter + |payloads| < COUNTER_LIMIT
    requires forall i :: 0 <= i < |payloads| ==>
      |payloads[i]| + 1 + TAG_LEN < 65536 && |payloads[i]| + 1 + TAG_LEN <= room
    ensures var frames := Frames(Emitted(c, s.ks.client, payloads));
            frames.rest == [] && Payloads(Received(c, s, Records(frames.v), room).0) == Concat(payloads)
  {
    RecordsOnTheWire(c, s.ks.client, payloads);
    WireIsRecords(c, s.ks.client, payloads);
    DataPlausible(c, s.ks.client, payloads, room);
    ReceivesExactlyWhatWasSent(c, s, DataEvents(payloads), room);
    PayloadsOfData(payloads);
  }

  /**
   * For every sequence of writes and flushes on a client whose write keys are the server's
   * read keys: framing the wire and opening each record yields the accepted bytes in order,
   * all but what is still buffered.
   */
  lemma {:induction false} ServerReadsWhatWasWritten(c: Crypto, s: Session, cap: nat, ops: seq<Op>, room: nat)
    requires OVERHEAD + 5 <= cap <= 65651 && Room(cap) + 1 + TAG_LEN <= room
    requires s.ks.client.counter + |Run(cap, NEW_WRITER, ops).sealed| < COUNTER_LIMIT
    ensures var w := Run(cap, NEW_WRITER, ops);
            var frames := Frames(Emitted(c, s.ks.client, w.sealed));
            && frames.rest == []
            && Payloads(Received(c, s, Records(frames.v), room).0) + Unsent(w) == Accepted(cap, NEW_WRITER, ops)
  {
    WritesConserved(cap, NEW_WRITER, ops);
    ServerReadsPayloads(c, s, Run(cap, NEW_WRITER, ops).sealed, room);
    assert Stream(NEW_WRITER) + Accepted(cap, NEW_WRITER, ops) == Accepted(cap, NEW_WRITER, ops);
  }
}
