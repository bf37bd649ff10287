/** The pre_shared_key extension of a ClientHello (pre_shared_key.rs). */
module PreSharedKeys {
  import opened Basics
  import opened ParseBuffers

  const MAX_PSKS: nat := 4

  /** What the parser keeps: one binder per identity, all binders `hashSize` bytes long. */
  datatype Psks = Psks(identities: seq<bytes>, binders: seq<bytes>, hashSize: nat)

  type OfferedPsks = p: Psks | |p.identities| == |p.binders| <= MAX_PSKS witness Psks([], [], 0)

  type Reader = bytes -> Result<Got<bytes>, ParseError>

  /** An identity and the four ticket-age bytes after it, which are read and dropped. */
  function GetIdentity(s: bytes): (r: Result<Got<bytes>, ParseError>) {
    if |s| < 2 then Err(InsufficientBytes)
    else
      var n := FromU16(s[0], s[1]);
      if n < 1 then Err(InvalidData)
      else if |s| < 6 + n then Err(InsufficientBytes)
      else Ok(Got(s[2..2 + n], s[6 + n..]))
  }

  function GetBinder(s: bytes): (r: Result<Got<bytes>, ParseError>)
    ensures r.Ok? ==> |r.value.v| > 0
  {
    if |s| < 1 then Err(InsufficientBytes)
    else if s[0] < 32 then Err(InvalidData)
    else
      var end: nat := 1 + s[0] as int;
      if |s| < end then Err(InsufficientBytes) else Ok(Got(s[1..end], s[end..]))
  }

  /** All lengths are `hash`: the first length, or 0 when the list is empty. */
  predicate Uniform(binders: seq<bytes>, hash: nat) {
    if binders == [] then hash == 0
    else hash == |binders[0]| && forall i :: 0 <= i < |binders| ==> |binders[i]| == hash
  }

  function Prefixed(list: bytes): bytes { U16(|list|) + list }

  /** The identity list, the binder list and what follows; each list sits behind a 16-bit length. */
  datatype Cut = Cut(ids: bytes, binders: bytes, rest: bytes)

  function CutPsks(s: bytes): (r: Option<Cut>) {
    if |s| < 2 then None
    else
      var p := 2 + FromU16(s[0], s[1]);
      if p < 9 || |s| < p + 2 then None
      else
        var q := p + 2 + FromU16(s[p], s[p + 1]);
        if q < p + 35 || |s| < q then None else Some(Cut(s[2..p], s[p + 2..q], s[q..]))
  }

  /** The OfferedPsks structure of section 4.2.11 of RFC 8446, read from the front of `s`. */
  function GetPsks(s: bytes): (r: Option<Got<OfferedPsks>>) {
    match CutPsks(s)
    case None => None
    case Some(cut) =>
      var ids := GetList(GetIdentity, MAX_PSKS, cut.ids);
      var binders := GetList(GetBinder, MAX_PSKS, cut.binders);
      if ids.Ok? && binders.Ok? && 0 < |ids.value| == |binders.value|
         && Uniform(binders.value, |binders.value[0]|)
      then Some(Got(Psks(ids.value, binders.value, |binders.value[0]|), cut.rest))
      else None
  }

  lemma {:induction false} UniformStep(binders: seq<bytes>, hash: nat, b: bytes, more: Result<seq<bytes>, ParseError>)
    requires Uniform(binders, hash) && |b| > 0
    ensures binders == [] || hash == |b| ==> Uniform(binders + [b], |b|)
    ensures var all := Prepend(binders + [b], more);
            binders != [] && hash != |b| && all.Ok? ==> all.value != [] && !Uniform(all.value, |all.value[0]|)
  {
    var all := Prepend(binders + [b], more);
    if all.Ok? && binders != [] {
      assert all.value[0] == binders[0] && all.value[|binders|] == b;
    }
  }

  /** The binder loop of `PreSharedKeyClientHello::parse`: every length must equal the first. */
  method ReadUniform(read: Reader, room: nat, slice: bytes)
    returns (r: Result<seq<bytes>, ParseError>, hashSize: nat)
    requires forall s: bytes :: read(s).Ok? ==> |read(s).value.v| > 0
    ensures r.Ok? ==> r == GetList(read, room, slice) && Uniform(r.value, hashSize)
    ensures r.Err? && GetList(read, room, slice).Ok? ==>
      var all := GetList(read, room, slice).value; all != [] && !Uniform(all, |all[0]|)
  {
    var rest := slice;
    var binders: seq<bytes> := [];
    hashSize := 0;
    while rest != []
      invariant |binders| <= room && Uniform(binders, hashSize) && (binders != [] ==> hashSize > 0)
      invariant GetList(read, room, slice) == Prepend(binders, GetList(read, room - |binders|, rest))
      decreases room - |binders|
    {
      var b := read(rest);
      if b.Err? {
        return Err(b.error), 0;
      }
      if |binders| == room {
        return Err(InsufficientSpace), 0;
      }
      ListStep(read, room, slice, binders, rest);
      rest := b.value.rest;
      UniformStep(binders, hashSize, b.value.v, GetList(read, room - |binders| - 1, rest));
      binders := binders + [b.value.v];
      if hashSize == 0 {
        hashSize := |b.value.v|;
      } else if hashSize != |b.value.v| {
        return Err(InvalidData), 0;
      }
    }
    r := Ok(binders);
  }

  method ReadCut(data: bytes) returns (r: Result<Cut, ParseError>)
    ensures r.Ok? <==> CutPsks(data).Some?
    ensures r.Ok? ==> CutPsks(data) == Some(r.value)
  {
    var buf := new ParseBuffer(data);
    var n :- buf.ReadU16();
    if n < 7 {
      return Err(InvalidData);
    }
    var ids :- buf.Slice(n);
    var m :- buf.ReadU16();
    if m < 33 {
      return Err(InvalidData);
    }
    var binders :- buf.Slice(m);
    return Ok(Cut(ids, binders, buf.Rest()));
  }

  /** `PreSharedKeyClientHello::parse`; its caller turns every error into DecodeError. */
  method Parse(data: bytes) returns (r: Result<Got<OfferedPsks>, ParseError>)
    ensures r.Ok? <==> GetPsks(data).Some?
    ensures r.Ok? ==> GetPsks(data) == Some(r.value)
  {
    var cut :- ReadCut(data);
    var identities :- ReadAll(GetIdentity, MAX_PSKS, cut.ids);
    if identities == [] {
      return Err(InvalidData);
    }
    var binders, hashSize := ReadUniform(GetBinder, MAX_PSKS, cut.binders);
    if binders.Err? {
      return Err(binders.error);
    }
    if |binders.value| != |identities| {
      return Err(InvalidData);
    }
    return Ok(Got(Psks(identities, binders.value, hashSize), cut.rest));
  }

  // --- The encoder, and what parsing its output gives back ---

  /** An identity entry as the client writes it: external keys have ticket age 0. */
  function EncodeIdentity(name: bytes): bytes { U16(|name|) + name + U32(0) }

  function EncodeBinder(b: bytes): bytes { [|b| % 256] + b }

  /** The binders list with its length prefix: the part of the message binders do not cover. */
  function BinderSection(binders: seq<bytes>): bytes { Prefixed(EncodeAll(EncodeBinder, binders)) }

  /** The extension data a client puts on the wire, binders filled in. */
  function EncodePsks(ids: seq<bytes>, binders: seq<bytes>): bytes {
    Prefixed(EncodeAll(EncodeIdentity, ids)) + BinderSection(binders)
  }

  /** 1 to 4 non-empty identities and equal-length binders of 32 to 255 bytes that fit their prefixes. */
  predicate Encodable(ids: seq<bytes>, binders: seq<bytes>) {
    && 1 <= |ids| == |binders| <= MAX_PSKS
    && (forall i :: 0 <= i < |ids| ==> 1 <= |ids[i]| < 65536)
    && Uniform(binders, |binders[0]|)
    && 32 <= |binders[0]| < 256
    && |EncodeAll(EncodeIdentity, ids)| < 65536
  }

  lemma {:induction false} IdentityInverts(name: bytes)
    requires 1 <= |name| < 65536
    ensures Inverts(GetIdentity, EncodeIdentity, name)
  {
    forall tail: bytes ensures GetIdentity(EncodeIdentity(name) + tail) == Ok(Got(name, tail)) {
      var s := EncodeIdentity(name) + tail;
      U16Read(|name|);
      assert s[2..2 + |name|] == name && s[6 + |name|..] == tail;
    }
  }

  lemma {:induction false} BinderInverts(b: bytes)
    requires 32 <= |b| < 256
    ensures Inverts(GetBinder, EncodeBinder, b)
  {
    forall tail: bytes ensures GetBinder(EncodeBinder(b) + tail) == Ok(Got(b, tail)) {
      var s := EncodeBinder(b) + tail;
      assert s[1..1 + |b|] == b && s[1 + |b|..] == tail;
    }
  }

  lemma {:induction false} BinderSound()
    ensures Sound(GetBinder, EncodeBinder)
  {
    forall s: bytes | GetBinder(s).Ok?
      ensures s == EncodeBinder(GetBinder(s).value.v) + GetBinder(s).value.rest
    {
      var end: nat := 1 + s[0] as int;
      assert s == [s[0]] + s[1..end] + s[end..];
    }
  }

  lemma {:induction false} EncodedSizes(ids: seq<bytes>, binders: seq<bytes>)
    requires Encodable(ids, binders)
    ensures 7 <= |EncodeAll(EncodeIdentity, ids)|
    ensures |EncodeAll(EncodeBinder, binders)| == |binders| * (1 + |binders[0]|)
    ensures 33 <= |EncodeAll(EncodeBinder, binders)| <= 1024
  {
    var n := |binders[0]|;
    EncodeAllLen(EncodeBinder, binders, 1 + n);
    assert 1 + n <= |binders| * (1 + n) <= 4 * (1 + n);
    assert |EncodeIdentity(ids[0])| >= 7;
  }

  lemma {:induction false} CutOfEncoded(ids: bytes, binders: bytes, rest: bytes)
    requires 7 <= |ids| < 65536 && 33 <= |binders| < 65536
    ensures CutPsks(Prefixed(ids) + Prefixed(binders) + rest) == Some(Cut(ids, binders, rest))
  {
    var s := Prefixed(ids) + Prefixed(binders) + rest;
    var p := 2 + |ids|;
    U16Read(|ids|);
    U16Read(|binders|);
    assert s[2..p] == ids && s[p + 2..p + 2 + |binders|] == binders && s[p + 2 + |binders|..] == rest;
  }

  lemma {:induction false} CutSound(s: bytes)
    requires CutPsks(s).Some?
    ensures var cut := CutPsks(s).value; s == Prefixed(cut.ids) + Prefixed(cut.binders) + cut.rest
  {
    var p := 2 + FromU16(s[0], s[1]);
    var q := p + 2 + FromU16(s[p], s[p + 1]);
    U16Write(s[0], s[1]);
    U16Write(s[p], s[p + 1]);
    assert s == [s[0], s[1]] + s[2..p] + ([s[p], s[p + 1]] + s[p + 2..q]) + s[q..];
  }

  /** Parsing an encoded extension gives back its identities and binders and stops where it ended. */
  lemma {:induction false} PsksRoundTrip(ids: seq<bytes>, binders: seq<bytes>, rest: bytes)
    requires Encodable(ids, binders)
    ensures GetPsks(EncodePsks(ids, binders) + rest) == Some(Got(Psks(ids, binders, |binders[0]|), rest))
  {
    EncodedSizes(ids, binders);
    forall i | 0 <= i < |ids| ensures Inverts(GetIdentity, EncodeIdentity, ids[i]) {
      IdentityInverts(ids[i]);
    }
    forall i | 0 <= i < |binders| ensures Inverts(GetBinder, EncodeBinder, binders[i]) {
      BinderInverts(binders[i]);
    }
    ListRoundTrip(GetIdentity, EncodeIdentity, ids, MAX_PSKS);
    ListRoundTrip(GetBinder, EncodeBinder, binders, MAX_PSKS);
    CutOfEncoded(EncodeAll(EncodeIdentity, ids), EncodeAll(EncodeBinder, binders), rest);
  }

  /** An accepted extension ends, before any leftover bytes, with the encoding of its binders. */
  lemma {:induction false} PsksSound(s: bytes)
    requires GetPsks(s).Some?
    ensures var g := GetPsks(s).value;
            var n := |BinderSection(g.v.binders)| + |g.rest|;
            n <= |s| && s[|s| - n..] == BinderSection(g.v.binders) + g.rest
  {
    BinderSound();
    CutSound(s);
    ListSound(GetBinder, EncodeBinder, MAX_PSKS, CutPsks(s).value.binders);
  }
}
