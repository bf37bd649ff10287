/** The server's outgoing records, written in place (server_hello.rs:112-145, server.rs:847-1134). */
module ServerWriters {
  import opened Basics
  import opened Crypto
  import opened KeySchedules
  import opened Rfc8446
  import opened ParseBuffers
  import opened PreSharedKeys
  import opened Extensions
  import opened ServerHellos
  import opened ServerSpec
  import opened OutWriters
  import opened CryptoBuffers
  import opened Sealing

  /** `KeyShareEntry::encode`. */
  method EncodeShareInto(buf: CryptoBuffer, s: Share) returns (r: Result<(), TlsError>)
    requires buf.Valid()
    modifies buf`len, buf.buf
    ensures buf.Valid()
    ensures if old(buf.End()) + |EncodeShare(s)| <= buf.hi
            then r.Ok? && buf.Prefix() == old(buf.Prefix()) + EncodeShare(s) else r == Err(NoSpace)
  {
    ghost var before := buf.Prefix();
    var r1 := buf.PushU16(s.group);
    if r1.Err? {
      return r1;
    }
    var at := buf.BeginU16();
    if at.Err? {
      return Err(at.error);
    }
    var r2 := buf.ExtendFromSlice(s.key);
    if r2.Err? {
      return r2;
    }
    buf.EndU16(at.value, before + U16(s.group), s.key);
    AssocTail(before, U16(s.group), U16(|s.key|), s.key);
    r := Ok(());
  }

  /** The data of one ServerHello extension. */
  method EncodeExtData(buf: CryptoBuffer, e: ServerExt) returns (r: Result<(), TlsError>)
    requires buf.Valid()
    modifies buf`len, buf.buf
    ensures buf.Valid()
    ensures if old(buf.End()) + |EncodeServerExt(e).data| <= buf.hi
            then r.Ok? && buf.Prefix() == old(buf.Prefix()) + EncodeServerExt(e).data else r == Err(NoSpace)
  {
    match e {
      case SelectedVersion(v) => r := buf.PushU16(v);
      case ServerShare(s) => r := EncodeShareInto(buf, s);
      case SelectedIdentity(i) => r := buf.PushU16(i);
      case ServerCookie => r := buf.ExtendFromSlice([]);
    }
  }

  /** The generated `encode` of an extension: type, length, data. */
  method EncodeExt(buf: CryptoBuffer, e: ServerExt) returns (r: Result<(), TlsError>)
    requires buf.Valid()
    modifies buf`len, buf.buf
    ensures buf.Valid()
    ensures if old(buf.End()) + |EncodeRaw(EncodeServerExt(e))| <= buf.hi
            then r.Ok? && buf.Prefix() == old(buf.Prefix()) + EncodeRaw(EncodeServerExt(e)) else r == Err(NoSpace)
  {
    ghost var before, x := buf.Prefix(), EncodeServerExt(e);
    var r1 := buf.PushU16(EncodeServerExt(e).kind);
    if r1.Err? {
      return r1;
    }
    var at := buf.BeginU16();
    if at.Err? {
      return Err(at.error);
    }
    var r2 := EncodeExtData(buf, e);
    if r2.Err? {
      return r2;
    }
    buf.EndU16(at.value, before + U16(x.kind), x.data);
    AssocTail(before, U16(x.kind), U16(|x.data|), x.data);
    r := Ok(());
  }

  /** The extension loop of `ServerHelloEmit::encode`. */
  method EncodeExts(buf: CryptoBuffer, es: seq<ServerExt>) returns (r: Result<(), TlsError>)
    requires buf.Valid()
    modifies buf`len, buf.buf
    ensures buf.Valid()
    ensures var list := EncodeAll(EncodeRaw, RawServerExts(es));
            if old(buf.End()) + |list| <= buf.hi
            then r.Ok? && buf.Prefix() == old(buf.Prefix()) + list else r == Err(NoSpace)
  {
    ghost var before, xs := buf.Prefix(), RawServerExts(es);
    for i := 0 to |es|
      invariant buf.Valid() && buf.Prefix() == before + EncodeAll(EncodeRaw, xs[..i])
    {
      RawServerExtAt(es, i);
      EncodeAllStep(EncodeRaw, xs, i);
      EncodeAllPrefix(EncodeRaw, xs, i + 1);
      var r1 := EncodeExt(buf, es[i]);
      if r1.Err? {
        return r1;
      }
      Assoc(before, EncodeAll(EncodeRaw, xs[..i]), EncodeRaw(xs[i]));
    }
    assert xs[..|es|] == xs;
    r := Ok(());
  }

  /** Version, random and session id echo. */
  method EncodeRandomAndEcho(buf: CryptoBuffer, random: bytes, sid: bytes) returns (r: Result<(), TlsError>)
    requires buf.Valid() && |sid| < 256
    modifies buf`len, buf.buf
    ensures buf.Valid()
    ensures if old(buf.End()) + 3 + |random| + |sid| <= buf.hi
            then r.Ok? && buf.Prefix() == old(buf.Prefix()) + U16(LEGACY_VERSION) + random + [|sid|] + sid
            else r == Err(NoSpace)
  {
    var r1 := buf.PushU16(LEGACY_VERSION);
    if r1.Err? {
      return r1;
    }
    var r2 := buf.ExtendFromSlice(random);
    if r2.Err? {
      return r2;
    }
    var r3 := buf.Push(|sid|);
    if r3.Err? {
      return r3;
    }
    r := buf.ExtendFromSlice(sid);
  }

  /** The fields before the extensions. */
  method EncodeFixed(buf: CryptoBuffer, random: bytes, sid: bytes, suite: nat) returns (r: Result<(), TlsError>)
    requires buf.Valid() && |sid| < 256
    modifies buf`len, buf.buf
    ensures buf.Valid()
    ensures if old(buf.End()) + 6 + |random| + |sid| <= buf.hi
            then r.Ok? && buf.Prefix() == old(buf.Prefix()) + ServerFields(random, sid, suite) else r == Err(NoSpace)
  {
    ghost var before := buf.Prefix();
    var r1 := EncodeRandomAndEcho(buf, random, sid);
    if r1.Err? {
      return r1;
    }
    var r2 := buf.PushU16(suite);
    if r2.Err? {
      return r2;
    }
    r := buf.Push(0);
    if r.Ok? {
      FixedFields(before, U16(LEGACY_VERSION), random, [|sid|], sid, U16(suite), [0]);
    }
  }

  lemma {:induction false} FixedFields(a: bytes, b: bytes, c: bytes, d: bytes, e: bytes, f: bytes, g: bytes)
    ensures a + b + c + d + e + f + g == a + (b + c + d + e + (f + g))
  {
  }

  /** The extension list behind its back-patched length. */
  method EncodeExtList(buf: CryptoBuffer, es: seq<ServerExt>) returns (r: Result<(), TlsError>)
    requires buf.Valid()
    modifies buf`len, buf.buf
    ensures buf.Valid()
    ensures var list := EncodeAll(EncodeRaw, RawServerExts(es));
            if old(buf.End()) + 2 + |list| <= buf.hi
            then r.Ok? && buf.Prefix() == old(buf.Prefix()) + Prefixed(list) else r == Err(NoSpace)
  {
    ghost var before := buf.Prefix();
    var at := buf.BeginU16();
    if at.Err? {
      return Err(at.error);
    }
    r := EncodeExts(buf, es);
    if r.Ok? {
      buf.EndU16(at.value, before, EncodeAll(EncodeRaw, RawServerExts(es)));
    }
  }

  /** `ServerHelloEmit::encode`. */
  method EncodeServerHello(buf: CryptoBuffer, random: bytes, sid: bytes, suite: nat, es: seq<ServerExt>)
    returns (r: Result<(), TlsError>)
    requires buf.Valid() && |sid| <= 32
    modifies buf`len, buf.buf
    ensures buf.Valid()
    ensures var body := ServerHelloBody(random, sid, suite, es);
            if old(buf.End()) + |body| <= buf.hi
            then r.Ok? && buf.Prefix() == old(buf.Prefix()) + body else r == Err(NoSpace)
  {
    ghost var before := buf.Prefix();
    var r1 := EncodeFixed(buf, random, sid, suite);
    if r1.Err? {
      return r1;
    }
    r := EncodeExtList(buf, es);
    if r.Ok? {
      Assoc(before, ServerFields(random, sid, suite), Prefixed(EncodeAll(EncodeRaw, RawServerExts(es))));
    }
  }

  // --- Records into the output buffer ---

  /** `write_server_hello_record`: the record is written and its message hashed. */
  method WriteServerHello(w: OutWriter, cfg: ServerConfig, sid: bytes, index: nat, kex: Kex, ks: KeySchedule)
    returns (r: Result<(), TlsError>)
    requires w.pos == 0 && |sid| <= 32 && (kex.PskDheKe? ==> cfg.dhe.Some?)
    modifies w, w.buf, ks`transcript
    ensures w.Valid()
    ensures var sh := FlightHello(cfg.random, sid, ShareOf(cfg, kex), index);
            if |Record(HANDSHAKE, sh)| <= w.buf.Length
            then r.Ok? && w.Written() == Record(HANDSHAKE, sh) && ks.transcript == old(ks.transcript) + sh
            else r == Err(NoSpace) && ks.transcript == old(ks.transcript)
  {
    var es := FlightExts(ShareOf(cfg, kex), index);
    ghost var body := ServerHelloBody(cfg.random, sid, AES_128_GCM_SHA256, es);
    var r1 := BeginMessage(w, SERVER_HELLO);
    if r1.Err? {
      return r1;
    }
    var crypto := new CryptoBuffer(w.buf, w.pos, w.buf.Length, 0);
    var r2 := EncodeServerHello(crypto, cfg.random, sid, AES_128_GCM_SHA256, es);
    if r2.Err? {
      return r2;
    }
    w.pos := crypto.lo + crypto.len;
    EndMessage(w, SERVER_HELLO, body);
    var hsMessage := w.buf[5..w.pos];
    assert hsMessage == w.Written()[5..] == FlightHello(cfg.random, sid, ShareOf(cfg, kex), index);
    ks.UpdateTranscript(hsMessage);
    r := Ok(());
  }

  method AppendRandomAndEcho(w: OutWriter, random: bytes, sid: bytes) returns (r: Result<(), TlsError>)
    requires w.Valid() && |sid| <= 32
    modifies w, w.buf
    ensures w.Valid()
    ensures if old(w.pos) + 3 + |random| + |sid| <= w.buf.Length
            then r.Ok? && w.Written() == old(w.Written()) + U16(LEGACY_VERSION) + random + [|sid|] + sid
            else r == Err(NoSpace)
  {
    var r1 := w.Append(U16(LEGACY_VERSION));
    if r1.Err? {
      return r1;
    }
    var r2 := w.Append(random);
    if r2.Err? {
      return r2;
    }
    var r3 := w.Append([|sid|]);
    if r3.Err? {
      return r3;
    }
    r := w.Append(sid);
  }

  /** The fixed fields of a HelloRetryRequest, appended one after another. */
  method AppendFixed(w: OutWriter, random: bytes, sid: bytes, suite: nat) returns (r: Result<(), TlsError>)
    requires w.Valid() && |sid| <= 32
    modifies w, w.buf
    ensures w.Valid()
    ensures if old(w.pos) + 6 + |random| + |sid| <= w.buf.Length
            then r.Ok? && w.Written() == old(w.Written()) + ServerFields(random, sid, suite) else r == Err(NoSpace)
  {
    ghost var before := w.Written();
    var r1 := AppendRandomAndEcho(w, random, sid);
    if r1.Err? {
      return r1;
    }
    var r2 := w.Append(U16(suite));
    if r2.Err? {
      return r2;
    }
    r := w.Append([0]);
    if r.Ok? {
      FixedFields(before, U16(LEGACY_VERSION), random, [|sid|], sid, U16(suite), [0]);
    }
  }

  /** supported_versions and the group the client is to use. */
  function RetryExts(group: nat): (r: bytes)
    ensures |r| == 12
  {
    EncodeRaw(Raw(SUPPORTED_VERSIONS, U16(TLS13))) + EncodeRaw(Raw(KEY_SHARE, U16(group)))
  }

  method AppendRetryExts(w: OutWriter, group: nat) returns (r: Result<(), TlsError>)
    requires w.Valid()
    modifies w, w.buf
    ensures w.Valid()
    ensures if old(w.pos) + 14 <= w.buf.Length
            then r.Ok? && w.Written() == old(w.Written()) + Prefixed(RetryExts(group)) else r == Err(NoSpace)
  {
    ghost var before := w.Written();
    var r1 := w.Append([0, 0]);
    if r1.Err? {
      return r1;
    }
    var r2 := w.Append(U16(SUPPORTED_VERSIONS) + U16(2) + U16(TLS13));
    if r2.Err? {
      return r2;
    }
    r := w.Append(U16(KEY_SHARE) + U16(2) + U16(group));
    if r.Ok? {
      Assoc(before + [0, 0], EncodeRaw(Raw(SUPPORTED_VERSIONS, U16(TLS13))), EncodeRaw(Raw(KEY_SHARE, U16(group))));
      w.Patch(w.pos - 14, U16(12));
      PatchedPrefix(before, RetryExts(group));
    }
  }

  /** The record itself: every length is patched once the bytes after it are known. */
  method AppendRetryRecord(w: OutWriter, sid: bytes) returns (r: Result<(), TlsError>)
    requires w.pos == 0 && |sid| <= 32
    modifies w, w.buf
    ensures w.Valid()
    ensures var hrr := RetryMessage(sid, X25519);
            if |Record(HANDSHAKE, hrr)| <= w.buf.Length then r.Ok? && w.Written() == Record(HANDSHAKE, hrr)
            else r == Err(NoSpace)
  {
    var r1 := BeginMessage(w, SERVER_HELLO);
    if r1.Err? {
      return r1;
    }
    ghost var header, fields := w.Written(), ServerFields(HRR_RANDOM, sid, AES_128_GCM_SHA256);
    var r2 := AppendFixed(w, HRR_RANDOM, sid, AES_128_GCM_SHA256);
    if r2.Err? {
      return r2;
    }
    var r3 := AppendRetryExts(w, X25519);
    if r3.Err? {
      return r3;
    }
    Assoc(header, fields, Prefixed(RetryExts(X25519)));
    EndMessage(w, SERVER_HELLO, fields + Prefixed(RetryExts(X25519)));
    r := Ok(());
  }

  /** `write_hello_retry_request_record`: the record, and the transcript rewritten around it. */
  method WriteRetry(w: OutWriter, sid: bytes, m: bytes, ks: KeySchedule) returns (r: Result<(), TlsError>)
    requires w.pos == 0 && |sid| <= 32
    modifies w, w.buf, ks`transcript
    ensures w.Valid()
    ensures var hrr := RetryMessage(sid, X25519);
            if |Record(HANDSHAKE, hrr)| <= w.buf.Length
            then r.Ok? && w.Written() == Record(HANDSHAKE, hrr) && ks.transcript == RetryTranscript(ks.c, m, hrr)
            else r == Err(NoSpace) && ks.transcript == old(ks.transcript)
  {
    r := AppendRetryRecord(w, sid);
    if r.Ok? {
      var hrr := w.buf[5..w.pos];
      assert hrr == w.Written()[5..] == RetryMessage(sid, X25519);
      ks.transcript := ([MESSAGE_HASH] + U24(HASH_LEN) + ks.c.val(Hash(m))) + hrr;
    }
  }

  // --- Protected records ---

  /** The two messages the server sends encrypted. */
  datatype Encrypted = Extensions | ServerFinished

  function EncryptedMessage(c: Crypto, ks: Schedule, which: Encrypted): (r: bytes)
    requires which.ServerFinished? ==> ks.server.secret.Some?
    ensures |r| == if which.Extensions? then 6 else 4 + HASH_LEN
  {
    if which.Extensions? then EMPTY_EXTENSIONS
    else Message(FINISHED, FinishedMac(c, ks.server.secret.value, ks.transcript))
  }

  method EncodeMessage(a: array<byte>, lo: nat, hi: nat, m: bytes) returns (r: Result<nat, TlsError>)
    requires lo <= hi <= a.Length
    modifies a
    ensures if lo + |m| <= hi then r == Ok(|m|) && a[..] == Overwrite(old(a[..]), lo, m)
            else r == Err(NoSpace) && a[..] == old(a[..])
  {
    if hi - lo < |m| {
      return Err(NoSpace);
    }
    CopyInto(a, lo, m);
    r := Ok(|m|);
  }

  /** `encode_encrypted_extensions` and `encode_server_finished`, into `a[lo..hi]`. */
  method EncodeEncrypted(a: array<byte>, lo: nat, hi: nat, ks: KeySchedule, which: Encrypted)
    returns (r: Result<nat, TlsError>)
    requires lo <= hi <= a.Length && (which.ServerFinished? ==> ks.server.secret.Some?)
    modifies a
    ensures var m := EncryptedMessage(ks.c, ks.Now(), which);
            if lo + |m| <= hi then r == Ok(|m|) && a[..] == Overwrite(old(a[..]), lo, m)
            else r == Err(NoSpace) && a[..] == old(a[..])
  {
    match which
    case Extensions =>
      r := EncodeMessage(a, lo, hi, [ENCRYPTED_EXTENSIONS, 0, 0, 2, 0, 0]);
    case ServerFinished =>
      var verify := ks.CreateServerFinished();
      r := EncodeMessage(a, lo, hi, [FINISHED] + U24(HASH_LEN) + verify.value);
  }

  /** Header with a zero length, message and type marker: the record before it is sealed. */
  method BeginEncrypted(w: OutWriter, ks: KeySchedule, which: Encrypted) returns (r: Result<nat, TlsError>)
    requires w.Valid() && (which.ServerFinished? ==> ks.server.secret.Some?)
    modifies w, w.buf
    ensures w.Valid() && w.pos <= w.buf.Length
    ensures var m := EncryptedMessage(ks.c, ks.Now(), which);
            if old(w.pos) + |m| + 6 + TAG_LEN <= w.buf.Length
            then && r == Ok(|m|) && w.pos == old(w.pos) + 5
                 && w.buf[..w.pos + |m| + 1] == old(w.Written()) + [APPLICATION_DATA, 3, 3, 0, 0] + m + [HANDSHAKE]
            else r == Err(NoSpace)
  {
    var r1 := w.Append([APPLICATION_DATA, 3, 3, 0, 0]);
    if r1.Err? {
      return Err(NoSpace);
    }
    if w.buf.Length - w.pos < 1 + TAG_LEN {
      return Err(NoSpace);
    }
    r := EncodeEncrypted(w.buf, w.pos, w.buf.Length - 1 - TAG_LEN, ks, which);
    if r.Ok? {
      w.buf[w.pos + r.value] := HANDSHAKE;
    }
  }

  /** Hashes the message `m`, seals it with its marker, and advances the counter. */
  method SealMessage(w: OutWriter, ks: KeySchedule, n: nat, log: SealLog, ghost m: bytes)
    requires 5 <= w.pos && w.pos + n + 1 + TAG_LEN <= w.buf.Length && CanAdvance(ks.server) && |m| == n
    requires w.buf[w.pos - 5..w.pos - 2] == [APPLICATION_DATA, 3, 3]
    requires w.buf[w.pos..w.pos + n + 1] == m + [HANDSHAKE]
    modifies w, w.buf, ks`transcript, ks`server, log
    ensures log.seals == old(log.seals) + [SealOf(old(ks.server), m + [HANDSHAKE])]
    ensures w.Valid() && ks.Now() == Sent(old(ks.Now()).Absorb(m))
    ensures w.Written() == old(w.buf[..w.pos - 5]) + SealedRecord(ks.c, old(ks.server), m + [HANDSHAKE])
  {
    assert w.buf[w.pos..w.pos + n] == w.buf[w.pos..w.pos + n + 1][..n] == m;
    ks.UpdateTranscript(w.buf[w.pos..w.pos + n]);
    SealRecord(ks.c, w.buf, w.pos - 5, n + 1, ks.server, log);
    w.pos := w.pos + n + 1 + TAG_LEN;
    ks.server := Advanced(ks.server);
  }

  /** `write_encrypted_handshake_record`: nothing is hashed or sealed unless the whole record fits. */
  method WriteEncrypted(w: OutWriter, ks: KeySchedule, which: Encrypted, log: SealLog) returns (r: Result<(), TlsError>)
    requires w.Valid() && CanAdvance(ks.server) && (which.ServerFinished? ==> ks.server.secret.Some?)
    modifies w, w.buf, ks`transcript, ks`server, log
    ensures w.Valid()
    ensures var m := EncryptedMessage(ks.c, old(ks.Now()), which);
            if old(w.pos) + |m| + 6 + TAG_LEN <= w.buf.Length
            then && r.Ok? && ks.Now() == Sent(old(ks.Now()).Absorb(m))
                 && w.Written() == old(w.Written()) + SealedRecord(ks.c, old(ks.server), m + [HANDSHAKE])
                 && log.seals == old(log.seals) + [SealOf(old(ks.server), m + [HANDSHAKE])]
            else r == Err(NoSpace) && ks.Now() == old(ks.Now()) && log.seals == old(log.seals)
  {
    ghost var before, m := w.Written(), EncryptedMessage(ks.c, ks.Now(), which);
    var begun := BeginEncrypted(w, ks, which);
    if begun.Err? {
      return Err(NoSpace);
    }
    ghost var full, end := w.buf[..], w.pos + |m| + 1;
    Unsealed(full[..end], before, m);
    SliceOfFront(full, end, 0, w.pos - 5);
    SliceOfFront(full, end, w.pos - 5, w.pos - 2);
    SliceOfFront(full, end, w.pos, end);
    SealMessage(w, ks, begun.value, log, m);
    r := Ok(());
  }

  /** Where message and inner plaintext lie in an unsealed record. */
  lemma {:induction false} Unsealed(s: bytes, before: bytes, m: bytes)
    requires s == before + [APPLICATION_DATA, 3, 3, 0, 0] + m + [HANDSHAKE]
    ensures s[..|before|] == before && s[|before|..|before| + 3] == [APPLICATION_DATA, 3, 3]
    ensures s[|before| + 5..] == m + [HANDSHAKE]
  {
  }
}
