/** Exactly which records make the client panic while it reads (src/connection.rs:46-67, decrypted_read_handler.rs). */
module Panics {
  import opened Basics
  import opened Crypto
  import opened KeySchedules
  import opened Framing
  import opened ServerMessages
  import opened Decrypts
  import opened Readers

  /** The parser's own failures are errors, not panics. */
  ghost predicate Tame(get: MessageReader) { forall s: bytes :: get(s) != Err(Panicked) }

  /** After any number of session tickets, a message that parses and is none. */
  predicate ReachesOther(get: MessageReader, p: bytes)
    decreases |p|
  {
    && p != []
    && match get(p)
       case Err(_) => false
       case Ok(Got(body, rest)) => assert |rest| < |p|; !body.Ticket? || ReachesOther(get, rest)
  }

  lemma {:induction false} CoalescedPanics(c: Crypto, get: MessageReader, digest: bytes, p: bytes)
    requires Tame(get)
    ensures ReadCoalesced(c, get, IgnoreTickets(), (), digest, p) == Err(Panicked) <==> ReachesOther(get, p)
    decreases |p|
  {
    if p != [] {
      var got := ReadMessage(c, get, digest, p);
      if got.Ok? && got.value.v.message.body.Ticket? {
        CoalescedPanics(c, get, digest + got.value.v.taken, got.value.rest);
      }
    }
  }

  /** Opening a record panics exactly when its plaintext is empty, without even a type. */
  lemma {:induction false} OpenPanicsExactlyWhen(c: Crypto, t: Traffic, f: Frame)
    ensures OpenFrame(c, t, f) == Err(Panicked) <==> c.open(t.key, NonceOf(c, t), f.header, f.body) == Some([])
  {
  }

  /** What an authenticated plaintext must be to make the reader panic. */
  predicate PanicsOn(get: MessageReader, p: bytes) {
    p == [] || (p[ContentEnd(p)] == HANDSHAKE && ReachesOther(get, p[..ContentEnd(p)]))
  }

  /**
   * Reading panics exactly on a protected record with an empty plaintext or with a handshake message that is no
   * session ticket, and on an unprotected record with such a message.
   */
  lemma {:induction false} PanicsExactlyWhen(c: Crypto, get: MessageReader, r: Reader, f: Frame)
    requires WireFrame(f) && Tame(get)
    ensures Handle(c, get, r, f) == Err(Panicked) <==>
      if f.header[0] == APPLICATION_DATA then
        var p := c.open(r.keys.key, NonceOf(c, r.keys), f.header, f.body);
        p.Some? && PanicsOn(get, p.value)
      else f.header[0] == HANDSHAKE && get(f.body).Ok? && !get(f.body).value.v.Ticket?
  {
    var p := c.open(r.keys.key, NonceOf(c, r.keys), f.header, f.body);
    if f.header[0] == APPLICATION_DATA && p.Some? && p.value != [] {
      CoalescedPanics(c, get, r.digest, p.value[..ContentEnd(p.value)]);
    }
  }
}
