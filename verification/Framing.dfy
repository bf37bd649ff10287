/** Splitting a byte stream into records: a five-byte header, then as many bytes as it announces. */
module Framing {
  import opened Basics
  import opened ParseBuffers

  datatype Frame = Frame(header: bytes, body: bytes)

  predicate WireFrame(f: Frame) { |f.header| == 5 && FromU16(f.header[3], f.header[4]) == |f.body| }

  /** A record as it comes off the wire. */
  type WireRecord = f: Frame | WireFrame(f) witness Frame([APPLICATION_DATA, 3, 3, 0, 0], [])

  function EncodeFrame(f: Frame): bytes { f.header + f.body }

  function GetFrame(s: bytes): (r: Option<Got<Frame>>)
    ensures r.Some? ==> WireFrame(r.value.v) && |r.value.rest| < |s| && s == EncodeFrame(r.value.v) + r.value.rest
  {
    if |s| < 5 then None
    else
      var end := 5 + FromU16(s[3], s[4]);
      if |s| < end then None else Some(Got(Frame(s[..5], s[5..end]), s[end..]))
  }

  /** All whole records of a stream, and the bytes after the last of them. */
  function Frames(s: bytes): (r: Got<seq<Frame>>)
    decreases |s|
  {
    match GetFrame(s)
    case None => Got([], s)
    case Some(Got(f, rest)) => var more := Frames(rest); Got([f] + more.v, more.rest)
  }

  lemma {:induction false} FrameFront(f: Frame, rest: bytes)
    requires WireFrame(f)
    ensures GetFrame(EncodeFrame(f) + rest) == Some(Got(f, rest))
  {
    var s := EncodeFrame(f) + rest;
    assert s[3] == f.header[3] && s[4] == f.header[4];
    assert s[..5] == f.header && s[5..5 + |f.body|] == f.body && s[5 + |f.body|..] == rest;
  }

  /** Framing recovers exactly the records that were put on the stream. */
  lemma {:induction false} FramesOfEncoded(fs: seq<Frame>)
    requires forall i :: 0 <= i < |fs| ==> WireFrame(fs[i])
    ensures Frames(EncodeAll(EncodeFrame, fs)) == Got(fs, [])
  {
    if fs != [] {
      FrameFront(fs[0], EncodeAll(EncodeFrame, fs[1..]));
      FramesOfEncoded(fs[1..]);
      assert fs == [fs[0]] + fs[1..];
    }
  }

  /** The frame of a record whose body fits the 16-bit length. */
  function RecordFrame(contentType: byte, body: bytes): Frame { Frame([contentType, 3, 3] + U16(|body|), body) }

  lemma {:induction false} RecordIsFrame(contentType: byte, body: bytes)
    requires |body| < 65536
    ensures WireFrame(RecordFrame(contentType, body))
    ensures EncodeFrame(RecordFrame(contentType, body)) == Record(contentType, body)
  {
    U16Read(|body|);
  }
}
