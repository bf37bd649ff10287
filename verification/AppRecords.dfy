/** Application data and alerts after the handshake: a peer's records come out as it put them in. */
module AppRecords {
  import opened Basics
  import opened Crypto
  import opened KeySchedules
  import opened ServerSpec

  /**
   * What a peer sends: data or an alert, each padded with any number of zero bytes; and records that are not
   * its own.
   */
  datatype Event =
    | Data(payload: bytes, padding: nat)
    | AlertSent(level: byte, description: byte, padding: nat)
    | Stray(record: bytes)

  function Inner(e: Event): bytes
    requires !e.Stray?
  {
    match e
    case Data(p, n) => p + [APPLICATION_DATA] + Zeros(n)
    case AlertSent(l, d, n) => [l, d] + [ALERT] + Zeros(n)
  }

  function Meaning(e: Event): Reply
    requires !e.Stray?
  {
    match e
    case Data(p, _) => AppData(p)
    case AlertSent(l, d, _) => PeerAlert(l, d)
  }

  /** The traffic state after an event: only the peer's own records count. */
  function Next(t: Traffic, e: Event): Traffic {
    if e.Stray? || !CanAdvance(t) then t else Advanced(t)
  }

  function OnWire(c: Crypto, t: Traffic, e: Event): bytes {
    if e.Stray? then e.record else SealedRecord(c, t, Inner(e))
  }

  /** The peer's records fit and are well-formed; a stray record fails framing, size or authentication. */
  predicate Plausible(c: Crypto, t: Traffic, e: Event, cap: nat) {
    if e.Stray? then
      match RecordBody(e.record)
      case None => true
      case Some(body) => |body| > cap || c.open(t.key, NonceOf(c, t), e.record[..5], body).None?
    else
      && CanAdvance(t) && |Inner(e)| + TAG_LEN < 65536 && |Inner(e)| + TAG_LEN <= cap
      && (e.AlertSent? ==> 1 <= e.level <= 2 && KnownAlert(e.description))
  }

  /** The records of a sequence of events, the peer starting at `t`. */
  function Wire(c: Crypto, t: Traffic, events: seq<Event>): seq<bytes>
    decreases |events|
  {
    if events == [] then [] else [OnWire(c, t, events[0])] + Wire(c, Next(t, events[0]), events[1..])
  }

  /** The peer's traffic state after all of them. */
  function NextAll(t: Traffic, events: seq<Event>): Traffic
    decreases |events|
  {
    if events == [] then t else NextAll(Next(t, events[0]), events[1..])
  }

  predicate AllPlausible(c: Crypto, t: Traffic, events: seq<Event>, cap: nat)
    decreases |events|
  {
    events == [] || (Plausible(c, t, events[0], cap) && AllPlausible(c, Next(t, events[0]), events[1..], cap))
  }

  /** What was meant: the events of the peer, in order. */
  function Meanings(events: seq<Event>): seq<Reply> {
    if events == [] then []
    else (if events[0].Stray? then [] else [Meaning(events[0])]) + Meanings(events[1..])
  }

  /** What the server returns from `decrypt_app_data_or_alert` over a sequence of records, errors left out. */
  function Received(c: Crypto, s: Session, records: seq<bytes>, cap: nat): (seq<Reply>, Session)
    decreases |records|
  {
    if records == [] then ([], s)
    else
      var o := ReceiveAny(c, s, records[0], cap);
      var (more, last) := Received(c, o.session, records[1..], cap);
      ((if o.reply.Ok? then [o.reply.value] else []) + more, last)
  }

  /** Padding is stripped down to the marker, even when the content itself ends in zeros. */
  lemma {:induction false} MarkerFound(content: bytes, marker: byte, padding: nat)
    requires marker != 0
    ensures var p := content + [marker] + Zeros(padding); LastNonZero(p) == Some(|content|) && p[..|content|] == content
  {
    var p := content + [marker] + Zeros(padding);
    assert p[|content|] == marker;
  }

  // --- The client's Finished ---

  /** A Finished message carrying `mac`, its type marker and any amount of padding. */
  ghost predicate HoldsFinished(p: bytes, mac: bytes) {
    exists n: nat :: p == Message(FINISHED, mac) + [HANDSHAKE] + Zeros(n)
  }

  lemma {:induction false} PaddingStripped(p: bytes, end: nat)
    requires LastNonZero(p) == Some(end)
    ensures p == p[..end] + [p[end]] + Zeros(|p| - end - 1)
  {
  }

  lemma {:induction false} FinishExactlyWhen(c: Crypto, s: Session, ks: Schedule, p: bytes)
    ensures var o := Finish(c, s, ks, p);
            && (o.reply.Ok? <==> ks.client.secret.Some?
                                 && HoldsFinished(p, FinishedMac(c, ks.client.secret.value, ks.transcript)))
            && (o.reply.Err? ==> o.session.ks == ks)
            && (o.reply.Ok? ==>
                  var m := Message(FINISHED, FinishedMac(c, ks.client.secret.value, ks.transcript));
                  o.session.ks == ks.Master(c).Absorb(m))
  {
    if ks.client.secret.Some? {
      var mac := FinishedMac(c, ks.client.secret.value, ks.transcript);
      if HoldsFinished(p, mac) {
        var n: nat :| p == Message(FINISHED, mac) + [HANDSHAKE] + Zeros(n);
        MarkerFound(Message(FINISHED, mac), HANDSHAKE, n);
      } else if Finish(c, s, ks, p).reply.Ok? {
        PaddingStripped(p, LastNonZero(p).value);
        assert false;
      }
    }
  }

  /**
   * The client's Finished is accepted if and only if its record opens to a Finished message with the MAC over the
   * transcript, marked as handshake, with any padding. Nothing but the client's counter changes otherwise.
   */
  lemma {:induction false} FinishedExactlyWhen(c: Crypto, s: Session, record: bytes)
    ensures var (ks, plain) := OpenRecord(c, s.ks, record, FINISHED_BUFFER);
            var o := ProcessFinished(c, s, record);
            && (o.reply.Ok? <==>
                  && plain.Ok? && s.ks.client.secret.Some?
                  && HoldsFinished(plain.value, FinishedMac(c, s.ks.client.secret.value, s.ks.transcript)))
            && (o.reply.Err? ==> o.session.ks == s.ks.(client := o.session.ks.client))
  {
    var (ks, plain) := OpenRecord(c, s.ks, record, FINISHED_BUFFER);
    if plain.Ok? {
      FinishExactlyWhen(c, s, ks, plain.value);
    }
  }

  // --- Application data and alerts ---

  lemma {:induction false} EventInterpreted(e: Event)
    requires !e.Stray? && (e.AlertSent? ==> 1 <= e.level <= 2 && KnownAlert(e.description))
    ensures Interpret(Inner(e)) == Ok(Meaning(e))
  {
    match e {
      case Data(p, n) => MarkerFound(p, APPLICATION_DATA, n);
      case AlertSent(l, d, n) => MarkerFound([l, d], ALERT, n);
    }
  }

  lemma {:induction false} SealedRecordOpens(c: Crypto, ks: Schedule, inner: bytes, cap: nat)
    requires |inner| + TAG_LEN < 65536 && |inner| + TAG_LEN <= cap && CanAdvance(ks.client)
    ensures OpenRecord(c, ks, SealedRecord(c, ks.client, inner), cap) == (ks.(client := Advanced(ks.client)), Ok(inner))
  {
    var record, header := SealedRecord(c, ks.client, inner), Aad(|inner| + TAG_LEN);
    var ct := c.val(Sealed(ks.client.key, NonceOf(c, ks.client), header, inner));
    U16Read(|inner| + TAG_LEN);
    assert record[3] == header[3] && record[4] == header[4];
    assert record[..5] == header && record[5..] == ct;
  }

  lemma {:induction false} OneEvent(c: Crypto, s: Session, e: Event, cap: nat)
    requires Plausible(c, s.ks.client, e, cap)
    ensures var o := ReceiveAny(c, s, OnWire(c, s.ks.client, e), cap);
            && o.session == s.(ks := s.ks.(client := Next(s.ks.client, e)))
            && (if e.Stray? then o.reply.Err? && o.session == s else o.reply == Ok(Meaning(e)))
  {
    if !e.Stray? {
      SealedRecordOpens(c, s.ks, Inner(e), cap);
      EventInterpreted(e);
    }
  }

  /**
   * Sections 5.2 and 5.4 of RFC 8446: from a peer sealing any sequence of data and alerts
   * with any padding under successive counters, the server returns exactly that sequence
   * and ends at the peer's counter; records that fail framing or authentication change nothing.
   */
  lemma {:induction false} ReceivesExactlyWhatWasSent(c: Crypto, s: Session, events: seq<Event>, cap: nat)
    requires AllPlausible(c, s.ks.client, events, cap)
    ensures Received(c, s, Wire(c, s.ks.client, events), cap)
         == (Meanings(events), s.(ks := s.ks.(client := NextAll(s.ks.client, events))))
    decreases |events|
  {
    if events != [] {
      var e := events[0];
      OneEvent(c, s, e, cap);
      var o := ReceiveAny(c, s, OnWire(c, s.ks.client, e), cap);
      var wire := Wire(c, s.ks.client, events);
      assert wire[0] == OnWire(c, s.ks.client, e) && wire[1..] == Wire(c, Next(s.ks.client, e), events[1..]);
      ReceivesExactlyWhatWasSent(c, o.session, events[1..], cap);
    }
  }
}
