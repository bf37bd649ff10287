/**
 * Each end against the keys of section 7.1 of RFC 8446: a flight made with them takes the client to application
 * data, and a Finished made with them is taken by the server.
 */
module Agreement {
  import opened Basics
  import opened Crypto
  import opened KeySchedules
  import opened Rfc8446
  import opened ParseBuffers
  import opened Extensions
  import opened ServerHellos
  import opened ServerSpec
  import opened Framing
  import opened WriteBuffers
  import opened ServerMessages
  import opened Decrypts
  import opened AppRecords
  import opened ServerKeys
  import opened Flights
  import C = ClientSpec
  import ClientRuns

  /** The client waits for record `n` of the flight, with handshake keys over `base` and `messages` hashed. */
  predicate Awaiting(c: Crypto, cl: C.Client, psk: bytes, dhe: bytes, base: bytes, messages: bytes, n: nat) {
    && cl.state == C.ServerVerify && cl.request.None? && cl.ks.transcript == messages
    && Runs(cl.ks.client, ClientHandshakeSecret(c, psk, dhe, base), 0)
    && Runs(cl.ks.server, ServerHandshakeSecret(c, psk, dhe, base), n)
    && cl.ks.secret == DeriveSecret(c, HandshakeSecret(c, psk, dhe), Ascii("derived"), [])
  }

  lemma {:induction false} WholeMessage(c: Crypto, get: MessageReader, digest: bytes, m: bytes, body: Body)
    requires get(m) == Ok(Got(body, []))
    ensures ReadMessage(c, get, digest, m) == Ok(Got(Part(m, Incoming(body, HashFor(c, body, digest))), []))
  {
    assert m[..|m| - 0] == m;
  }

  /** After the ClientHello. */
  lemma {:induction false} Started(c: Crypto, env: C.Env, room: nat)
    requires 5 + |C.FinalHello(c, env)| <= room
    ensures C.StartHandshake(c, env, C.NEW_CLIENT, room).Ok?
    ensures var cl := C.StartHandshake(c, env, C.NEW_CLIENT, room).value;
            && cl.state == C.State.ServerHello && cl.secret == Some(env.secret) && cl.request.None?
            && cl.ks.transcript == C.FinalHello(c, env)
            && cl.ks.secret == DeriveSecret(c, EarlySecret(C.Psk(env)), Ascii("derived"), [])
  {
    assert [] + C.FinalHello(c, env) == C.FinalHello(c, env);
  }

  /** After a ServerHello whose share both ends agree on. */
  lemma {:induction false} GotHello(
    c: Crypto, env: C.Env, cl: C.Client, sh: bytes, exts: seq<ServerExt>, share: bytes, dhe: bytes)
    requires cl.state == C.State.ServerHello && cl.secret == Some(env.secret) && cl.request.None?
    requires cl.ks.secret == DeriveSecret(c, EarlySecret(C.Psk(env)), Ascii("derived"), [])
    requires env.read(sh) == Ok(Got(Body.Hello(exts), [])) && |sh| < 65536
    requires C.ServerKeyShare(exts) == Some(share) && env.agree(env.secret, share) == Some(dhe)
    ensures WireFrame(RecordFrame(HANDSHAKE, sh)) && C.ReceiveHello(c, env, cl, RecordFrame(HANDSHAKE, sh)).Ok?
    ensures Awaiting(c, C.ReceiveHello(c, env, cl, RecordFrame(HANDSHAKE, sh)).value, C.Psk(env), dhe,
                     cl.ks.transcript + sh, cl.ks.transcript + sh, 0)
  {
    RecordIsFrame(HANDSHAKE, sh);
    WholeMessage(c, env.read, cl.ks.transcript, sh, Body.Hello(exts));
  }

  /** A record of the flight opens under the client's read keys to its one message. */
  lemma {:induction false} FlightRecordOpens(c: Crypto, t: Traffic, secret: Term, n: nat, f: Frame, m: bytes)
    requires Runs(t, secret, n) && OpensTo(c, secret, n, f, m + [HANDSHAKE])
    ensures OpenFrame(c, t, f) == Ok((HANDSHAKE, m))
  {
    MarkerFound(m, HANDSHAKE, 0);
    assert m + [HANDSHAKE] == m + [HANDSHAKE] + Zeros(0);
  }

  lemma {:induction false} OneMessage<S>(
    c: Crypto, get: MessageReader, cb: Callback<S>, state: S, digest: bytes, m: bytes, body: Body, next: S)
    requires m != [] && get(m) == Ok(Got(body, []))
    requires cb(state, digest + m, Incoming(body, HashFor(c, body, digest))) == Ok(next)
    ensures ReadCoalesced(c, get, cb, state, digest, m) == Ok(Reading(next, digest + m))
  {
    WholeMessage(c, get, digest, m, body);
  }

  /** After EncryptedExtensions. */
  lemma {:induction false} GotExtensions(
    c: Crypto, env: C.Env, cl: C.Client, f: Frame, ee: bytes, psk: bytes, dhe: bytes, base: bytes, messages: bytes)
    requires Awaiting(c, cl, psk, dhe, base, messages, 0)
    requires OpensTo(c, ServerHandshakeSecret(c, psk, dhe, base), 0, f, ee + [HANDSHAKE])
    requires ee != [] && env.read(ee) == Ok(Got(EncryptedExts, []))
    ensures C.ReceiveProtected(c, env, cl, f).Ok?
    ensures Awaiting(c, C.ReceiveProtected(c, env, cl, f).value, psk, dhe, base, messages + ee, 1)
  {
    FlightRecordOpens(c, cl.ks.server, ServerHandshakeSecret(c, psk, dhe, base), 0, f, ee);
    OneMessage(c, env.read, C.Checks(c, env, cl.ks.server.secret), C.StartVerifying(cl), messages, ee, EncryptedExts,
               C.StartVerifying(cl));
  }

  /** After a Finished whose MAC is right: the client's own Finished is next. */
  lemma {:induction false} GotFinished(
    c: Crypto, env: C.Env, cl: C.Client, f: Frame, fin: bytes, verify: bytes, psk: bytes, dhe: bytes, base: bytes,
    messages: bytes)
    requires Awaiting(c, cl, psk, dhe, base, messages, 1)
    requires OpensTo(c, ServerHandshakeSecret(c, psk, dhe, base), 1, f, fin + [HANDSHAKE])
    requires fin != [] && env.read(fin) == Ok(Got(Finished(verify), []))
    requires verify == FinishedMac(c, ServerHandshakeSecret(c, psk, dhe, base), messages)
    ensures C.ReceiveProtected(c, env, cl, f).Ok?
    ensures var next := C.ReceiveProtected(c, env, cl, f).value;
            && next.state == C.State.ClientFinished && next.snapshot == Some(messages + fin)
            && next.ks.transcript == messages + fin && next.ks.client == cl.ks.client && next.ks.secret == cl.ks.secret
  {
    FlightRecordOpens(c, cl.ks.server, ServerHandshakeSecret(c, psk, dhe, base), 1, f, fin);
    var v := C.StartVerifying(cl);
    var done := C.CheckFinished(c, cl.ks.server.secret, v, messages + fin, verify, c.val(Hash(messages)));
    OneMessage(c, env.read, C.Checks(c, env, cl.ks.server.secret), v, messages, fin, Finished(verify), done.value);
  }

  /** The client's Finished and the switch to application keys. */
  lemma {:induction false} SentOwnFinished(c: Crypto, cl: C.Client, room: nat, psk: bytes, dhe: bytes, base: bytes)
    requires cl.state == C.State.ClientFinished && cl.snapshot == Some(cl.ks.transcript)
    requires Runs(cl.ks.client, ClientHandshakeSecret(c, psk, dhe, base), 0)
    requires cl.ks.secret == DeriveSecret(c, HandshakeSecret(c, psk, dhe), Ascii("derived"), [])
    requires 5 + FINISHED_LEN + 1 + TAG_LEN <= room
    ensures C.SendFinished(c, cl, room).Ok? && C.SendFinished(c, cl, room).value.state == C.ApplicationData
    ensures HasApplicationKeys(c, C.SendFinished(c, cl, room).value.ks, psk, dhe, cl.ks.transcript)
  {
  }

  /** The record the client sends last. */
  function OwnFinished(c: Crypto, t: Traffic, transcript: bytes): bytes
    requires t.secret.Some?
  {
    ClosedRecord(c, t, HandshakeHeader(true), Message(FINISHED, FinishedMac(c, t.secret.value, transcript)))
  }

  /** The server's checks on a client Finished over its own transcript all pass. */
  lemma {:induction false} FinishAccepts(c: Crypto, s: Session, ks: Schedule)
    requires ks.client.secret.Some?
    ensures var m := Message(FINISHED, FinishedMac(c, ks.client.secret.value, ks.transcript));
            Finish(c, s, ks, m + [HANDSHAKE]).reply == Ok(Complete)
  {
    var verify := FinishedMac(c, ks.client.secret.value, ks.transcript);
    var m := Message(FINISHED, verify);
    MarkerFound(m, HANDSHAKE, 0);
    assert m + [HANDSHAKE] == m + [HANDSHAKE] + Zeros(0);
    U24Read(HASH_LEN);
    assert m[4..] == verify;
  }

  lemma {:induction false} ServerAccepts(c: Crypto, s: Session)
    requires s.ks.client.secret.Some? && s.ks.client.counter == 0
    ensures ProcessFinished(c, s, OwnFinished(c, s.ks.client, s.ks.transcript)).reply == Ok(Complete)
  {
    var m := Message(FINISHED, FinishedMac(c, s.ks.client.secret.value, s.ks.transcript));
    SealedRecordOpens(c, s.ks, m + [HANDSHAKE], FINISHED_BUFFER);
    FinishAccepts(c, s, s.ks.(client := Advanced(s.ks.client)));
  }

  function HelloMessage(random: bytes, sid: bytes, suite: nat, es: seq<ServerExt>): bytes {
    Message(SERVER_HELLO, ServerHelloBody(random, sid, suite, es))
  }

  /** A ServerHello with these fields and extensions is one the client's parser takes whole. */
  predicate Answerable(random: bytes, sid: bytes, suite: nat, es: seq<ServerExt>) {
    && |random| == 32 && |sid| <= 32 && KnownSuite(suite)
    && |es| <= MAX_SERVER_EXTENSIONS && (forall i :: 0 <= i < |es| ==> WireServerExt(es[i]))
    && |EncodeAll(EncodeRaw, RawServerExts(es))| < 65000
  }

  /** How the code's reader takes the three messages of a flight. */
  lemma {:induction false} FlightMessagesRead(
    parse: BodyParser, random: bytes, sid: bytes, suite: nat, es: seq<ServerExt>, verify: bytes)
    requires Answerable(random, sid, suite, es) && |verify| == HASH_LEN
    ensures |HelloMessage(random, sid, suite, es)| < 65536
    ensures Messages(parse)(HelloMessage(random, sid, suite, es)) == Ok(Got(Body.Hello(es), []))
    ensures Messages(parse)(Message(8, [0, 0])) == Ok(Got(EncryptedExts, []))
    ensures Messages(parse)(Message(20, verify)) == Ok(Got(Finished(verify), []))
  {
    ServerHelloRoundTrip(random, sid, suite, es);
    assert HelloMessage(random, sid, suite, es)[4..] == ServerHelloBody(random, sid, suite, es);
    EmptyExtensionsRead(parse);
    FinishedRead(parse, verify);
  }

  lemma {:induction false} EmptyExtensionsRead(parse: BodyParser)
    ensures Messages(parse)(Message(8, [0, 0])) == Ok(Got(EncryptedExts, []))
  {
    var ee := Message(8, [0, 0]);
    assert ee[4..] == [0, 0] && ee[4..][2..] == [] && ee[4..][2..2] == [];
  }

  lemma {:induction false} FinishedRead(parse: BodyParser, verify: bytes)
    requires |verify| == HASH_LEN
    ensures Messages(parse)(Message(20, verify)) == Ok(Got(Finished(verify), []))
  {
    var fin := Message(20, verify);
    assert fin[4..FINISHED_LEN] == verify && fin[FINISHED_LEN..] == [];
  }

  /** The client's steps from the ClientHello to its own Finished. */
  predicate Completes(
    c: Crypto, env: C.Env, room: nat, first: Frame, second: Frame, third: Frame,
    cl1: C.Client, cl2: C.Client, cl3: C.Client, cl4: C.Client, cl5: C.Client)
  {
    && WireFrame(first) && WireFrame(second) && WireFrame(third)
    && C.StartHandshake(c, env, C.NEW_CLIENT, room) == Ok(cl1) && cl1.state == C.State.ServerHello
    && C.ReceiveHello(c, env, cl1, first) == Ok(cl2) && cl2.state == C.ServerVerify
    && C.ReceiveFlight(c, env, cl2, second) == Ok(cl3) && cl3.state == C.ServerVerify
    && C.ReceiveFlight(c, env, cl3, third) == Ok(cl4) && cl4.state == C.State.ClientFinished
    && C.SendFinished(c, cl4, room) == Ok(cl5) && cl5.state == C.ApplicationData
  }

  /** The run over the flight: the sending steps at either end ignore the record they are given. */
  lemma {:induction false} RunToFinished(
    step: C.Stepper, first: WireRecord, second: WireRecord, third: WireRecord,
    cl1: C.Client, cl2: C.Client, cl3: C.Client, cl4: C.Client, cl5: C.Client)
    requires step(C.NEW_CLIENT, first) == Ok(cl1) && step(cl1, first) == Ok(cl2) && step(cl2, second) == Ok(cl3)
    requires step(cl3, third) == Ok(cl4) && step(cl4, first) == Ok(cl5)
    ensures C.Run(step, [first, first, second, third]) == Ok(cl4)
    ensures C.Run(step, [first, first, second, third, first]) == Ok(cl5)
  {
    ClientRuns.RunOne(step, [], first, C.NEW_CLIENT);
    assert [] + [first] == [first];
    ClientRuns.RunOne(step, [first], first, cl1);
    assert [first] + [first] == [first, first];
    ClientRuns.RunOne(step, [first, first], second, cl2);
    assert [first, first] + [second] == [first, first, second];
    ClientRuns.RunOne(step, [first, first, second], third, cl3);
    assert [first, first, second] + [third] == [first, first, second, third];
    ClientRuns.RunOne(step, [first, first, second, third], first, cl4);
    assert [first, first, second, third] + [first] == [first, first, second, third, first];
  }

  lemma {:induction false} CompletesInSteps(
    c: Crypto, env: C.Env, room: nat, first: Frame, second: Frame, third: Frame,
    cl1: C.Client, cl2: C.Client, cl3: C.Client, cl4: C.Client, cl5: C.Client)
    requires Completes(c, env, room, first, second, third, cl1, cl2, cl3, cl4, cl5)
    ensures var step := C.Process(c, env, room);
            && step(C.NEW_CLIENT, first) == Ok(cl1) && step(cl1, first) == Ok(cl2) && step(cl2, second) == Ok(cl3)
            && step(cl3, third) == Ok(cl4) && step(cl4, first) == Ok(cl5)
  {
    C.StartStep(c, env, room, C.NEW_CLIENT, first);
    C.HelloStep(c, env, room, cl1, first);
    C.FlightStep(c, env, room, cl2, second);
    C.FlightStep(c, env, room, cl3, third);
    C.FinishedStep(c, env, room, cl4, first);
  }

  /** How the flight looks to this client: its messages parse, and its records open under the secrets both derive. */
  predicate Fitting(
    c: Crypto, env: C.Env, dhe: bytes, sh: bytes, share: bytes, first: Frame, second: Frame, third: Frame)
  {
    var m, psk, ee := C.FinalHello(c, env), C.Psk(env), Message(8, [0, 0]);
    var secret := ServerHandshakeSecret(c, psk, dhe, m + sh);
    var verify := FinishedMac(c, secret, m + sh + ee);
    && |sh| < 65536 && env.read(sh).Ok? && env.read(sh).value.rest == [] && env.read(sh).value.v.Hello?
    && C.ServerKeyShare(env.read(sh).value.v.exts) == Some(share) && env.agree(env.secret, share) == Some(dhe)
    && env.read(ee) == Ok(Got(EncryptedExts, [])) && env.read(Message(20, verify)) == Ok(Got(Finished(verify), []))
    && first == RecordFrame(HANDSHAKE, sh) && WireFrame(first) && WireFrame(second) && WireFrame(third)
    && second.header[0] == third.header[0] == APPLICATION_DATA
    && OpensTo(c, secret, 0, second, ee + [HANDSHAKE])
    && OpensTo(c, secret, 1, third, Message(20, verify) + [HANDSHAKE])
  }

  lemma {:induction false} ClientCompletes(
    c: Crypto, env: C.Env, room: nat, dhe: bytes, sh: bytes, share: bytes, first: Frame, second: Frame, third: Frame)
    returns (cl1: C.Client, cl2: C.Client, cl3: C.Client, cl4: C.Client, cl5: C.Client)
    requires 5 + |C.FinalHello(c, env)| <= room && 5 + FINISHED_LEN + 1 + TAG_LEN <= room
    requires Fitting(c, env, dhe, sh, share, first, second, third)
    ensures Completes(c, env, room, first, second, third, cl1, cl2, cl3, cl4, cl5)
    ensures var m, psk := C.FinalHello(c, env), C.Psk(env);
            var through := ThroughServerFinished(c, psk, dhe, m, sh);
            && cl4.ks.transcript == through
            && Runs(cl4.ks.client, ClientHandshakeSecret(c, psk, dhe, m + sh), 0)
            && HasApplicationKeys(c, cl5.ks, psk, dhe, through)
  {
    var m, psk, ee := C.FinalHello(c, env), C.Psk(env), Message(8, [0, 0]);
    var verify := FinishedMac(c, ServerHandshakeSecret(c, psk, dhe, m + sh), m + sh + ee);
    Started(c, env, room);
    cl1 := C.StartHandshake(c, env, C.NEW_CLIENT, room).value;
    GotHello(c, env, cl1, sh, env.read(sh).value.v.exts, share, dhe);
    cl2 := C.ReceiveHello(c, env, cl1, first).value;
    GotExtensions(c, env, cl2, second, ee, psk, dhe, m + sh, m + sh);
    cl3 := C.ReceiveProtected(c, env, cl2, second).value;
    GotFinished(c, env, cl3, third, Message(20, verify), verify, psk, dhe, m + sh, m + sh + ee);
    cl4 := C.ReceiveProtected(c, env, cl3, third).value;
    SentOwnFinished(c, cl4, room, psk, dhe, m + sh);
    cl5 := C.SendFinished(c, cl4, room).value;
  }

  lemma {:induction false} ClientRun(
    c: Crypto, env: C.Env, room: nat, dhe: bytes, sh: bytes, share: bytes, first: WireRecord, second: WireRecord,
    third: WireRecord)
    returns (before: C.Client, after: C.Client)
    requires 5 + |C.FinalHello(c, env)| <= room && 5 + FINISHED_LEN + 1 + TAG_LEN <= room
    requires Fitting(c, env, dhe, sh, share, first, second, third)
    ensures C.Run(C.Process(c, env, room), [first, first, second, third]) == Ok(before)
    ensures C.Run(C.Process(c, env, room), [first, first, second, third, first]) == Ok(after)
    ensures after.state == C.ApplicationData
    ensures var m, psk := C.FinalHello(c, env), C.Psk(env);
            var through := ThroughServerFinished(c, psk, dhe, m, sh);
            && before.ks.transcript == through
            && Runs(before.ks.client, ClientHandshakeSecret(c, psk, dhe, m + sh), 0)
            && HasApplicationKeys(c, after.ks, psk, dhe, through)
  {
    var cl1, cl2, cl3, cl4, cl5 := ClientCompletes(c, env, room, dhe, sh, share, first, second, third);
    CompletesInSteps(c, env, room, first, second, third, cl1, cl2, cl3, cl4, cl5);
    RunToFinished(C.Process(c, env, room), first, second, third, cl1, cl2, cl3, cl4, cl5);
    before, after := cl4, cl5;
  }

  /** The run over the three records of a flight: just before the client's Finished, and after it. */
  predicate TakenIn(step: C.Stepper, flight: bytes, before: C.Client, after: C.Client) {
    var fs := Frames(flight).v;
    && |fs| == 3 && WireFrame(fs[0]) && WireFrame(fs[1]) && WireFrame(fs[2])
    && C.Run(step, [fs[0], fs[0], fs[1], fs[2]]) == Ok(before)
    && C.Run(step, [fs[0], fs[0], fs[1], fs[2], fs[0]]) == Ok(after)
  }

  /** The keys of section 7.1, handshake keys before and application keys after, over CH..server Finished. */
  predicate EndsWith(c: Crypto, psk: bytes, dhe: bytes, m: bytes, sh: bytes, before: C.Client, after: C.Client) {
    var through := ThroughServerFinished(c, psk, dhe, m, sh);
    && before.ks.transcript == through && Runs(before.ks.client, ClientHandshakeSecret(c, psk, dhe, m + sh), 0)
    && after.state == C.ApplicationData && HasApplicationKeys(c, after.ks, psk, dhe, through)
  }

  lemma {:induction false} TakenThree(
    step: C.Stepper, flight: bytes, first: WireRecord, second: WireRecord, third: WireRecord, before: C.Client,
    after: C.Client)
    requires Frames(flight).v == [first, second, third]
    requires C.Run(step, [first, first, second, third]) == Ok(before)
    requires C.Run(step, [first, first, second, third, first]) == Ok(after)
    ensures TakenIn(step, flight, before, after)
  {
    var fs := Frames(flight).v;
    assert fs[0] == first && fs[1] == second && fs[2] == third;
  }

  /**
   * A flight with a share the client can agree on, its records protected as section 7.1 prescribes, takes the
   * client from its ClientHello to application data, with the application keys of section 7.1.
   */
  lemma {:induction false} ClientAcceptsFlight(
    c: Crypto, env: C.Env, parse: BodyParser, room: nat, dhe: bytes,
    random: bytes, sid: bytes, suite: nat, es: seq<ServerExt>, share: bytes)
    returns (before: C.Client, after: C.Client)
    requires env.read == Messages(parse) && Answerable(random, sid, suite, es)
    requires C.ServerKeyShare(es) == Some(share) && env.agree(env.secret, share) == Some(dhe)
    requires 5 + |C.FinalHello(c, env)| <= room && 5 + FINISHED_LEN + 1 + TAG_LEN <= room
    ensures var m, psk, sh := C.FinalHello(c, env), C.Psk(env), HelloMessage(random, sid, suite, es);
            && TakenIn(C.Process(c, env, room), RfcFlight(c, psk, dhe, m, sh), before, after)
            && EndsWith(c, psk, dhe, m, sh, before, after)
  {
    var m, psk, sh := C.FinalHello(c, env), C.Psk(env), HelloMessage(random, sid, suite, es);
    var verify := FinishedMac(c, ServerHandshakeSecret(c, psk, dhe, m + sh), m + sh + Message(8, [0, 0]));
    FlightMessagesRead(parse, random, sid, suite, es, verify);
    var second, third := RfcFlightFrames(c, psk, dhe, m, sh);
    before, after := ClientRun(c, env, room, dhe, sh, share, RecordFrame(HANDSHAKE, sh), second, third);
    TakenThree(C.Process(c, env, room), RfcFlight(c, psk, dhe, m, sh), RecordFrame(HANDSHAKE, sh), second, third,
               before, after);
  }

  lemma {:induction false} SameTraffic(a: Traffic, b: Traffic, secret: Term, n: nat)
    requires Runs(a, secret, n) && Runs(b, secret, n)
    ensures a == b
  {
  }

  /**
   * On a session with the handshake keys over CH..SH, the Finished made with the client's secret over CH..server
   * Finished completes the handshake, with the application keys over the same messages.
   */
  lemma {:induction false} ServerCompletes(c: Crypto, s: Session, psk: bytes, dhe: bytes, m: bytes, sh: bytes)
    requires HasHandshakeKeys(c, s.ks, psk, dhe, m, sh)
    ensures var client := Keyed(ClientHandshakeSecret(c, psk, dhe, m + sh));
            var done := ProcessFinished(c, s, OwnFinished(c, client, ThroughServerFinished(c, psk, dhe, m, sh)));
            done.reply == Ok(Complete) && Completed(c, done.session.ks, psk, dhe, m, sh)
  {
    var secret := ClientHandshakeSecret(c, psk, dhe, m + sh);
    SameTraffic(Keyed(secret), s.ks.client, secret, 0);
    ServerAccepts(c, s);
    FinishedIsRfc(c, s, OwnFinished(c, s.ks.client, s.ks.transcript), psk, dhe, m, sh);
  }
}
