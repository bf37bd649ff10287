/**
 * The TLS 1.3 key schedule (src/key_schedule.rs). `Schedule` is the value of
 * the schedule between calls; the class `KeySchedule` updates it in place.
 */
module KeySchedules {
  import opened Basics
  import opened Crypto

  const DERIVED: bytes := Ascii("derived")
  const EXT_BINDER: bytes := Ascii("ext binder")
  const FINISHED_LABEL: bytes := Ascii("finished")
  const KEY: bytes := Ascii("key")
  const IV: bytes := Ascii("iv")
  const C_HS: bytes := Ascii("c hs traffic")
  const S_HS: bytes := Ascii("s hs traffic")
  const C_AP: bytes := Ascii("c ap traffic")
  const S_AP: bytes := Ascii("s ap traffic")

  const KEY_LEN: nat := 16

  /** One direction: its traffic secret, the key and IV in use, and the record counter. */
  datatype Direction = Direction(secret: Option<Term>, key: Term, iv: Term, counter: nat)

  type Traffic = d: Direction | Len(d.iv) == IV_LEN && d.counter < COUNTER_LIMIT witness UNKEYED

  /** Before any secret exists the key and IV arrays are all zero. */
  const UNKEYED: Direction := Direction(None, Zero(KEY_LEN), Zero(IV_LEN), 0)

  function Keyed(secret: Term): Traffic {
    Direction(Some(secret),
              ExpandLabel(secret, KEY, [], KEY_LEN),
              ExpandLabel(secret, IV, [], IV_LEN),
              0)
  }

  /** Whether `increment_counter` can be called without a panic. */
  predicate CanAdvance(t: Traffic) { t.counter + 1 < COUNTER_LIMIT }

  function Advanced(t: Traffic): Traffic
    requires CanAdvance(t)
  {
    t.(counter := t.counter + 1)
  }

  function NonceOf(c: Crypto, t: Traffic): bytes { Nonce(c.val(t.iv), t.counter) }

  function EmptyHash(c: Crypto): bytes { c.val(Hash([])) }

  /** The verify data keyed by `secret` over the messages hashed so far. */
  function FinishedMac(c: Crypto, secret: Term, messages: bytes): (r: bytes)
    ensures |r| == HASH_LEN
  {
    c.val(Mac(ExpandLabel(secret, FINISHED_LABEL, [], HASH_LEN), c.val(Hash(messages))))
  }

  datatype Schedule = Schedule(
    secret: Term,
    hkdf: Option<Term>,
    binderKey: Option<Term>,
    client: Traffic,
    server: Traffic,
    transcript: bytes)
  {
    function Extracted(ikm: bytes): (r: Schedule)
      ensures r.hkdf == Some(r.secret)
    {
      var prk := Extract(secret, ikm);
      this.(secret := prk, hkdf := Some(prk))
    }

    function Derived(c: Crypto): Schedule
      requires hkdf.Some?
    {
      this.(secret := ExpandLabel(hkdf.value, DERIVED, EmptyHash(c), HASH_LEN))
    }

    function Early(c: Crypto, psk: bytes): Schedule {
      var s := Extracted(psk);
      s.(binderKey := Some(ExpandLabel(s.secret, EXT_BINDER, EmptyHash(c), HASH_LEN))).Derived(c)
    }

    function Rekeyed(c: Crypto, ikm: bytes, clientLabel: bytes, serverLabel: bytes): Schedule {
      var s := Extracted(ikm);
      var context := c.val(Hash(transcript));
      s.(client := Keyed(ExpandLabel(s.secret, clientLabel, context, HASH_LEN)),
         server := Keyed(ExpandLabel(s.secret, serverLabel, context, HASH_LEN))).Derived(c)
    }

    function Handshake(c: Crypto, ikm: bytes): Schedule { Rekeyed(c, ikm, C_HS, S_HS) }

    function Master(c: Crypto): Schedule { Rekeyed(c, Zeros(HASH_LEN), C_AP, S_AP) }

    function Absorb(message: bytes): Schedule { this.(transcript := transcript + message) }
  }

  const NEW_SCHEDULE: Schedule := Schedule(Zero(HASH_LEN), None, None, UNKEYED, UNKEYED, [])

  /** Whether `received` is the binder for `prefix` (`verify_psk_binder`). */
  predicate BinderMatches(c: Crypto, binderKey: Term, prefix: bytes, received: bytes) {
    received == FinishedMac(c, binderKey, prefix)
  }

  class KeySchedule {
    const c: Crypto
    var secret: Term
    var hkdf: Option<Term>
    var binderKey: Option<Term>
    var client: Traffic
    var server: Traffic
    var transcript: bytes

    constructor (c: Crypto)
      ensures this.c == c && Now() == NEW_SCHEDULE
    {
      this.c := c;
      secret := Zero(HASH_LEN);
      hkdf, binderKey := None, None;
      client, server := UNKEYED, UNKEYED;
      transcript := [];
    }

    function Now(): Schedule
      reads this
    {
      Schedule(secret, hkdf, binderKey, client, server, transcript)
    }

    /** `SharedState::initialize`: extract with the current secret as salt. */
    method Initialize(ikm: bytes)
      modifies this`secret, this`hkdf
      ensures Now() == old(Now()).Extracted(ikm)
    {
      secret := Extract(secret, ikm);
      hkdf := Some(secret);
    }

    /** `SharedState::derived`: replace the secret by its "derived" expansion. */
    method DeriveNext() returns (r: Result<(), TlsError>)
      modifies this`secret
      ensures old(hkdf).Some? ==> r.Ok? && Now() == old(Now()).Derived(c)
      ensures old(hkdf).None? ==> r == Err(InternalError) && Now() == old(Now())
    {
      var next :- MakeExpandedHkdfLabel(hkdf, DERIVED, EmptyHash(c), HASH_LEN);
      secret := next;
      return Ok(());
    }

    method InitializeEarlySecret(psk: Option<bytes>) returns (r: Result<(), TlsError>)
      modifies this
      ensures r.Ok?
      ensures Now() == old(Now()).Early(c, if psk.Some? then psk.value else Zeros(HASH_LEN))
    {
      Initialize(if psk.Some? then psk.value else Zeros(HASH_LEN));
      var key := MakeExpandedHkdfLabel(hkdf, EXT_BINDER, EmptyHash(c), HASH_LEN);
      binderKey := Some(key.value);  // the label always fits and the secret is set
      r := DeriveNext();
    }

    method CalculateTrafficSecret(name: bytes) returns (r: Result<Traffic, TlsError>)
      requires |name| <= 12
      ensures hkdf.Some? ==>
        r == Ok(Keyed(ExpandLabel(hkdf.value, name, c.val(Hash(transcript)), HASH_LEN)))
      ensures hkdf.None? ==> r == Err(InternalError)
    {
      var secret :- MakeExpandedHkdfLabel(hkdf, name, c.val(Hash(transcript)), HASH_LEN);
      var key := MakeExpandedHkdfLabel(Some(secret), KEY, [], KEY_LEN);
      var iv := MakeExpandedHkdfLabel(Some(secret), IV, [], IV_LEN);
      return Ok(Direction(Some(secret), key.value, iv.value, 0));
    }

    method Rekey(ikm: bytes, clientLabel: bytes, serverLabel: bytes) returns (r: Result<(), TlsError>)
      requires |clientLabel| <= 12 && |serverLabel| <= 12
      modifies this
      ensures r.Ok? && Now() == old(Now()).Rekeyed(c, ikm, clientLabel, serverLabel)
    {
      Initialize(ikm);
      var clientState := CalculateTrafficSecret(clientLabel);
      client := clientState.value;
      var serverState := CalculateTrafficSecret(serverLabel);
      server := serverState.value;
      r := DeriveNext();
    }

    method InitializeHandshakeSecret(ikm: bytes) returns (r: Result<(), TlsError>)
      modifies this
      ensures r.Ok? && Now() == old(Now()).Handshake(c, ikm)
    {
      r := Rekey(ikm, C_HS, S_HS);
    }

    method InitializeMasterSecret() returns (r: Result<(), TlsError>)
      modifies this
      ensures r.Ok? && Now() == old(Now()).Master(c)
    {
      r := Rekey(Zeros(HASH_LEN), C_AP, S_AP);
    }

    method UpdateTranscript(message: bytes)
      modifies this`transcript
      ensures Now() == old(Now()).Absorb(message)
    {
      transcript := transcript + message;
    }

    /** `verify_psk_binder` over a digest fed with `prefix`. */
    method VerifyPskBinder(prefix: bytes, received: bytes) returns (r: Result<bool, TlsError>)
      ensures binderKey.Some? ==> r == Ok(BinderMatches(c, binderKey.value, prefix, received))
      ensures binderKey.None? ==> r == Err(InternalError)
    {
      var key :- MakeExpandedHkdfLabel(binderKey, FINISHED_LABEL, [], HASH_LEN);
      return Ok(received == c.val(Mac(key, c.val(Hash(prefix)))));
    }

    /** `create_psk_binder` (the client's half of the same computation). */
    method CreatePskBinder(prefix: bytes) returns (r: Result<bytes, TlsError>)
      ensures binderKey.Some? ==> r.Ok? && BinderMatches(c, binderKey.value, prefix, r.value)
      ensures binderKey.None? ==> r == Err(InternalError)
    {
      var key :- MakeExpandedHkdfLabel(binderKey, FINISHED_LABEL, [], HASH_LEN);
      return Ok(c.val(Mac(key, c.val(Hash(prefix)))));
    }

    /** `create_server_finished`. */
    method CreateServerFinished() returns (r: Result<bytes, TlsError>)
      ensures server.secret.Some? ==> r == Ok(FinishedMac(c, server.secret.value, transcript))
      ensures server.secret.None? ==> r == Err(InternalError)
    {
      var key :- MakeExpandedHkdfLabel(server.secret, FINISHED_LABEL, [], HASH_LEN);
      return Ok(c.val(Mac(key, c.val(Hash(transcript)))));
    }

    /** `verify_client_finished` against the transcript snapshot `messages`. */
    method VerifyClientFinished(verify: bytes, messages: bytes) returns (r: Result<bool, TlsError>)
      ensures client.secret.Some? ==> r == Ok(verify == FinishedMac(c, client.secret.value, messages))
      ensures client.secret.None? ==> r == Err(InternalError)
    {
      var key :- MakeExpandedHkdfLabel(client.secret, FINISHED_LABEL, [], HASH_LEN);
      return Ok(verify == c.val(Mac(key, c.val(Hash(messages)))));
    }
  }
}

/** Section 7.1 of RFC 8446, written from the standard and not from the code. */
module Rfc8446 {
  import opened Basics
  import opened Crypto
  import opened KeySchedules

  function DeriveSecret(c: Crypto, secret: Term, name: bytes, messages: bytes): Term {
    ExpandLabel(secret, name, c.val(Hash(messages)), HASH_LEN)
  }

  function EarlySecret(psk: bytes): Term { Extract(Zero(HASH_LEN), psk) }

  function BinderKey(c: Crypto, psk: bytes): Term {
    DeriveSecret(c, EarlySecret(psk), Ascii("ext binder"), [])
  }

  function HandshakeSecret(c: Crypto, psk: bytes, dhe: bytes): Term {
    Extract(DeriveSecret(c, EarlySecret(psk), Ascii("derived"), []), dhe)
  }

  function MasterSecret(c: Crypto, psk: bytes, dhe: bytes): Term {
    Extract(DeriveSecret(c, HandshakeSecret(c, psk, dhe), Ascii("derived"), []), Zeros(HASH_LEN))
  }

  function ClientHandshakeSecret(c: Crypto, psk: bytes, dhe: bytes, messages: bytes): Term {
    DeriveSecret(c, HandshakeSecret(c, psk, dhe), Ascii("c hs traffic"), messages)
  }

  function ServerHandshakeSecret(c: Crypto, psk: bytes, dhe: bytes, messages: bytes): Term {
    DeriveSecret(c, HandshakeSecret(c, psk, dhe), Ascii("s hs traffic"), messages)
  }

  function ClientApplicationSecret(c: Crypto, psk: bytes, dhe: bytes, messages: bytes): Term {
    DeriveSecret(c, MasterSecret(c, psk, dhe), Ascii("c ap traffic"), messages)
  }

  function ServerApplicationSecret(c: Crypto, psk: bytes, dhe: bytes, messages: bytes): Term {
    DeriveSecret(c, MasterSecret(c, psk, dhe), Ascii("s ap traffic"), messages)
  }

  function TrafficKey(secret: Term): Term { ExpandLabel(secret, Ascii("key"), [], 16) }

  function TrafficIv(secret: Term): Term { ExpandLabel(secret, Ascii("iv"), [], 12) }

  /** The direction `t` runs under `secret`, at record number `counter`. */
  predicate Runs(t: Traffic, secret: Term, counter: nat) {
    && t.secret == Some(secret)
    && t.key == TrafficKey(secret)
    && t.iv == TrafficIv(secret)
    && t.counter == counter
  }

  /** Section 4.4.1: after a retry the first ClientHello is replaced by its hash. */
  function RetryTranscript(c: Crypto, ch1: bytes, hrr: bytes): bytes {
    Message(MESSAGE_HASH, c.val(Hash(ch1))) + hrr
  }
}
