/** Cursor reads over a borrowed byte slice (src/parse_buffer.rs). */
module ParseBuffers {
  import opened Basics

  /** A value read from the front of a byte string, and what is left. */
  datatype Got<+T> = Got(v: T, rest: bytes)

  function GetU16(s: bytes): (r: Result<Got<nat>, ParseError>) {
    if |s| < 2 then Err(InsufficientBytes) else Ok(Got(FromU16(s[0], s[1]), s[2..]))
  }

  /** `read_list` over an already cut slice: elements until it is empty, at most `room` of them. */
  function GetList<T>(read: bytes -> Result<Got<T>, ParseError>, room: nat, s: bytes)
    : (r: Result<seq<T>, ParseError>)
    ensures r.Ok? ==> |r.value| <= room
    decreases room
  {
    if s == [] then Ok([])
    else
      var g :- read(s);
      if room == 0 then Err(InsufficientSpace)
      else Prepend([g.v], GetList(read, room - 1, g.rest))
  }

  lemma {:induction false} OneOf<T>(read: bytes -> Result<Got<T>, ParseError>, room: nat, s: bytes, v: T)
    requires s != [] && 1 <= room && read(s) == Ok(Got(v, []))
    ensures GetList(read, room, s) == Ok([v])
  {
  }

  /** One more round of a collecting loop. */
  lemma {:induction false} ListStep<T>(
    read: bytes -> Result<Got<T>, ParseError>, room: nat, s: bytes, acc: seq<T>, rest: bytes)
    requires |acc| < room && rest != [] && read(rest).Ok?
    requires GetList(read, room, s) == Prepend(acc, GetList(read, room - |acc|, rest))
    ensures GetList(read, room, s)
         == Prepend(acc + [read(rest).value.v], GetList(read, room - |acc| - 1, read(rest).value.rest))
  {
    PrependPrepend(acc, [read(rest).value.v], GetList(read, room - |acc| - 1, read(rest).value.rest));
  }

  /** The loop of `read_list`. */
  method ReadAll<T>(read: bytes -> Result<Got<T>, ParseError>, room: nat, slice: bytes)
    returns (r: Result<seq<T>, ParseError>)
    ensures r == GetList(read, room, slice)
  {
    var data, result := slice, [];
    while data != []
      invariant |result| <= room
      invariant GetList(read, room, slice) == Prepend(result, GetList(read, room - |result|, data))
      decreases room - |result|
    {
      var g := read(data);
      if g.Err? {
        return Err(g.error);
      }
      if |result| == room {
        return Err(InsufficientSpace);
      }
      ListStep(read, room, slice, result, data);
      result := result + [g.value.v];
      data := g.value.rest;
    }
    return Ok(result);
  }

  // --- What the encoders write is what these reads return ---

  /** `read` recognises exactly what `encode` wrote for `x`, whatever follows. */
  ghost predicate Inverts<T(!new)>(read: bytes -> Result<Got<T>, ParseError>, encode: T -> bytes, x: T) {
    encode(x) != [] && forall tail: bytes :: read(encode(x) + tail) == Ok(Got(x, tail))
  }

  /** Whatever `read` accepts starts with the encoding of what it returns. */
  ghost predicate Sound<T(!new)>(read: bytes -> Result<Got<T>, ParseError>, encode: T -> bytes) {
    forall s: bytes :: read(s).Ok? ==> s == encode(read(s).value.v) + read(s).value.rest
  }

  function EncodeAll<T>(encode: T -> bytes, xs: seq<T>): bytes {
    if xs == [] then [] else encode(xs[0]) + EncodeAll(encode, xs[1..])
  }

  lemma {:induction false} ListRoundTrip<T(!new)>(
    read: bytes -> Result<Got<T>, ParseError>, encode: T -> bytes, xs: seq<T>, room: nat)
    requires |xs| <= room
    requires forall i :: 0 <= i < |xs| ==> Inverts(read, encode, xs[i])
    ensures GetList(read, room, EncodeAll(encode, xs)) == Ok(xs)
  {
    if xs != [] {
      assert Inverts(read, encode, xs[0]);
      ListRoundTrip(read, encode, xs[1..], room - 1);
      assert xs == [xs[0]] + xs[1..];
    }
  }

  /** An element that is never read spoils the list it is in. */
  lemma {:induction false} ListRefused<T(!new)>(
    read: bytes -> Result<Got<T>, ParseError>, encode: T -> bytes, xs: seq<T>, k: nat, room: nat)
    requires k < |xs| && encode(xs[k]) != [] && forall tail: bytes :: read(encode(xs[k]) + tail).Err?
    requires forall i :: 0 <= i < k ==> Inverts(read, encode, xs[i])
    ensures GetList(read, room, EncodeAll(encode, xs)).Err?
    decreases k
  {
    var rest := EncodeAll(encode, xs[1..]);
    assert EncodeAll(encode, xs) == encode(xs[0]) + rest;
    if k > 0 {
      assert Inverts(read, encode, xs[0]) && read(encode(xs[0]) + rest) == Ok(Got(xs[0], rest));
      if room > 0 {
        ListRefused(read, encode, xs[1..], k - 1, room - 1);
      }
    } else {
      assert read(encode(xs[0]) + rest).Err?;
    }
  }

  lemma {:induction false} ListSound<T(!new)>(
    read: bytes -> Result<Got<T>, ParseError>, encode: T -> bytes, room: nat, s: bytes)
    requires Sound(read, encode)
    requires GetList(read, room, s).Ok?
    ensures EncodeAll(encode, GetList(read, room, s).value) == s
    decreases room
  {
    if s != [] {
      var g := read(s).value;
      ListSound(read, encode, room - 1, g.rest);
      var xs := GetList(read, room, s).value;
      assert xs[0] == g.v && xs[1..] == GetList(read, room - 1, g.rest).value;
    }
  }

  lemma {:induction false} EncodeAllLen<T>(encode: T -> bytes, xs: seq<T>, n: nat)
    requires forall i :: 0 <= i < |xs| ==> |encode(xs[i])| == n
    ensures |EncodeAll(encode, xs)| == |xs| * n
  {
    if xs != [] {
      EncodeAllLen(encode, xs[1..], n);
      assert |xs| * n == (|xs| - 1) * n + n;
    }
  }

  lemma {:induction false} EncodeAllAppend<T>(encode: T -> bytes, xs: seq<T>, x: T)
    ensures EncodeAll(encode, xs + [x]) == EncodeAll(encode, xs) + encode(x)
  {
    if xs == [] {
      assert xs + [x] == [x];
    } else {
      EncodeAllAppend(encode, xs[1..], x);
      assert (xs + [x])[1..] == xs[1..] + [x];
      assert encode(xs[0]) + (EncodeAll(encode, xs[1..]) + encode(x))
          == encode(xs[0]) + EncodeAll(encode, xs[1..]) + encode(x);
    }
  }

  /** One more element of a list being written. */
  lemma {:induction false} EncodeAllStep<T>(encode: T -> bytes, xs: seq<T>, i: nat)
    requires i < |xs|
    ensures EncodeAll(encode, xs[..i + 1]) == EncodeAll(encode, xs[..i]) + encode(xs[i])
  {
    assert xs[..i + 1] == xs[..i] + [xs[i]];
    EncodeAllAppend(encode, xs[..i], xs[i]);
  }

  /** What has been written of a list is no longer than the list. */
  lemma {:induction false} EncodeAllPrefix<T>(encode: T -> bytes, xs: seq<T>, i: nat)
    requires i <= |xs|
    ensures |EncodeAll(encode, xs[..i])| <= |EncodeAll(encode, xs)|
    decreases |xs| - i
  {
    if i == |xs| {
      assert xs[..i] == xs;
    } else {
      EncodeAllStep(encode, xs, i);
      EncodeAllPrefix(encode, xs, i + 1);
    }
  }

  class ParseBuffer {
    const buffer: bytes
    var pos: nat

    constructor (buffer: bytes)
      ensures this.buffer == buffer && pos == 0
    {
      this.buffer := buffer;
      pos := 0;
    }

    ghost predicate Valid()
      reads this
    {
      pos <= |buffer|
    }

    /** What the cursor has left (`as_slice` from here on). */
    function Rest(): bytes
      requires Valid()
      reads this
    {
      buffer[pos..]
    }

    method ReadU8() returns (r: Result<byte, ParseError>)
      requires Valid()
      modifies this
      ensures Valid()
      ensures if old(pos) + 1 <= |buffer|
              then r == Ok(buffer[old(pos)]) && pos == old(pos) + 1
              else r == Err(InsufficientBytes) && pos == old(pos)
    {
      if pos < |buffer| {
        r := Ok(buffer[pos]);
        pos := pos + 1;
      } else {
        r := Err(InsufficientBytes);
      }
    }

    method ReadU16() returns (r: Result<nat, ParseError>)
      requires Valid()
      modifies this
      ensures Valid()
      ensures if old(pos) + 2 <= |buffer|
              then r == Ok(FromU16(buffer[old(pos)], buffer[old(pos) + 1])) && pos == old(pos) + 2
              else r == Err(InsufficientBytes) && pos == old(pos)
    {
      if pos + 2 <= |buffer| {
        r := Ok(FromU16(buffer[pos], buffer[pos + 1]));
        pos := pos + 2;
      } else {
        r := Err(InsufficientBytes);
      }
    }

    method ReadU24() returns (r: Result<nat, ParseError>)
      requires Valid()
      modifies this
      ensures Valid()
      ensures if old(pos) + 3 <= |buffer|
              then r == Ok(FromU24(buffer[old(pos)], buffer[old(pos) + 1], buffer[old(pos) + 2])) && pos == old(pos) + 3
              else r == Err(InsufficientBytes) && pos == old(pos)
    {
      if pos + 3 <= |buffer| {
        r := Ok(FromU24(buffer[pos], buffer[pos + 1], buffer[pos + 2]));
        pos := pos + 3;
      } else {
        r := Err(InsufficientBytes);
      }
    }

    method Slice(n: nat) returns (r: Result<bytes, ParseError>)
      requires Valid()
      modifies this
      ensures Valid()
      ensures if old(pos) + n <= |buffer|
              then r == Ok(buffer[old(pos)..old(pos) + n]) && pos == old(pos) + n
              else r == Err(InsufficientBytes) && pos == old(pos)
    {
      if pos + n <= |buffer| {
        r := Ok(buffer[pos..pos + n]);
        pos := pos + n;
      } else {
        r := Err(InsufficientBytes);
      }
    }
  }
}
