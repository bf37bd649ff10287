/** A ClientHello that fails late, and what it does to the ones after it. */
module ChainExample {
  import opened Basics
  import opened Crypto
  import opened KeySchedules
  import opened Rfc8446
  import opened PreSharedKeys
  import opened Extensions
  import opened ClientHellos
  import opened ClientBinders
  import opened ServerSpec
  import opened HonestClient
  import opened FirstHello
  import opened SelfLoops

  // --- Honest clients after a failure ---

  /**
   * On a session without a retry, an honest ClientHello is answered exactly when its binder, made with the
   * key of section 7.1, is also the MAC under the key the server has by then. Before any ClientHello was
   * admitted that is the same key; afterwards it is another, and the two MACs would have to collide.
   */
  lemma {:induction false} HonestAnsweredExactlyWhen(
    c: Crypto, calls: seq<Call>, s: Session, f: Fields, xs: seq<Raw>, ids: seq<bytes>, cfg: ServerConfig, cap: nat,
    kex: Kex)
    requires s == After(Server(c), NEW_SESSION, calls) && s.retry.None?
    requires CanOffer(f, xs, ids)
    requires Suits(s, f, OfferExts(xs, ids, HonestBinder(c, s, cfg.psk, f, xs, ids)), ids, cfg, kex)
    requires kex.PskDheKe? ==> Ikm(c, cfg, kex) != Zeros(X25519_LEN)
    requires RecordsFit(HonestReply(cfg, f, ids, kex), cap)
    ensures var key := BinderSchedule(c, s, cfg).binderKey.value;
            && (key == BinderKey(c, cfg.psk) <==> Never(Server(c), NEW_SESSION, Admits, calls))
            && (SentFlight(ProcessHello(c, s, HonestHello(c, s, cfg.psk, f, xs, ids), cfg, cap)) <==>
                  FinishedMac(c, key, Covered(f, xs, ids))
                  == FinishedMac(c, BinderKey(c, cfg.psk), Covered(f, xs, ids)))
  {
    BinderKeyExactlyWhenNoneAdmitted(c, calls, s, cfg);
    assert [] + Covered(f, xs, ids) == Covered(f, xs, ids);
    OfferAnsweredExactlyWhen(c, s, f, xs, ids, HonestBinder(c, s, cfg.psk, f, xs, ids), cfg, cap, kex);
  }

  // --- A run on which the keys are not those of section 7.1 ---

  /** Any binder but the right one. */
  function WrongBinder(mac: bytes): (r: bytes)
    requires |mac| == HASH_LEN
    ensures |r| == HASH_LEN && r != mac
  {
    var b: byte := if mac[0] == 0 then 1 else 0;
    [b] + mac[1..]
  }

  /** The ClientHello with a share, its binder made with `key`, or deliberately not. */
  function Bound(c: Crypto, key: Term, f: Fields, share: bytes, cfg: ServerConfig, right: bool): bytes {
    var mac := FinishedMac(c, key, Covered(f, WithShare(share), [cfg.identity]));
    HelloWithPsks(f, WithShare(share), [cfg.identity], Repeat(if right then mac else WrongBinder(mac), 1))
  }

  /** Whatever its binder, such a ClientHello passes the checks before the binder's. */
  lemma {:induction false} BoundAnswered(
    c: Crypto, s: Session, key: Term, f: Fields, share: bytes, cfg: ServerConfig, cap: nat, right: bool)
    requires Loopable(f, cfg) && CanAgree(c, cfg, share, cap) && s.retry.None?
             && BinderSchedule(c, s, cfg).binderKey == Some(key)
    ensures Admit(s, Bound(c, key, f, share, cfg, right), cfg).Ok?
    ensures SentFlight(ProcessHello(c, s, Bound(c, key, f, share, cfg, right), cfg, cap)) <==> right
  {
    var xs, ids := WithShare(share), [cfg.identity];
    var mac := FinishedMac(c, key, Covered(f, xs, ids));
    var binder := if right then mac else WrongBinder(mac);
    ShareRead(share);
    CanOfferOne(f, xs, ShareExts(share), cfg.identity);
    LoopFits(f, cfg, share);
    ShareSuits(s, f, share, Psks(ids, Repeat(binder, 1), HASH_LEN), cfg);
    OfferAdmitted(s, f, xs, ids, binder, cfg, PskDheKe(share));
    OfferAnsweredExactlyWhen(c, s, f, xs, ids, binder, cfg, cap, PskDheKe(share));
  }

  function FirstKey(c: Crypto, cfg: ServerConfig): Term { BinderSchedule(c, NEW_SESSION, cfg).binderKey.value }

  /** The session after a ClientHello with a wrong binder. */
  function AfterFailure(c: Crypto, f: Fields, share: bytes, cfg: ServerConfig, cap: nat): Session {
    ProcessHello(c, NEW_SESSION, Bound(c, FirstKey(c, cfg), f, share, cfg, false), cfg, cap).session
  }

  lemma {:induction false} OneCall(c: Crypto, m: bytes, cfg: ServerConfig, cap: nat)
    ensures After(Server(c), NEW_SESSION, [ClientHello(m, cfg, cap)])
            == ProcessHello(c, NEW_SESSION, m, cfg, cap).session
    ensures Admit(NEW_SESSION, m, cfg).Ok? ==> !Never(Server(c), NEW_SESSION, Admits, [ClientHello(m, cfg, cap)])
  {
    var calls := [ClientHello(m, cfg, cap)];
    assert calls[..0] == [];
    assert After(Server(c), NEW_SESSION, calls[..0]) == NEW_SESSION;
  }

  /** A failed ClientHello sends no retry. */
  lemma {:induction false} FailureKeepsRetry(c: Crypto, s: Session, m: bytes, cfg: ServerConfig, cap: nat)
    requires s.retry.None? && Admit(s, m, cfg).Ok? && Admit(s, m, cfg).value.decision.Use?
    ensures ProcessHello(c, s, m, cfg, cap).session.retry.None?
  {
  }

  lemma {:induction false} BoundDecided(
    c: Crypto, key: Term, f: Fields, share: bytes, cfg: ServerConfig, cap: nat, right: bool)
    requires Loopable(f, cfg) && CanAgree(c, cfg, share, cap)
    ensures var a := Admit(NEW_SESSION, Bound(c, key, f, share, cfg, right), cfg); a.Ok? && a.value.decision.Use?
  {
    var xs, ids := WithShare(share), [cfg.identity];
    var mac := FinishedMac(c, key, Covered(f, xs, ids));
    var binder := if right then mac else WrongBinder(mac);
    ShareRead(share);
    CanOfferOne(f, xs, ShareExts(share), cfg.identity);
    ShareSuits(NEW_SESSION, f, share, Psks(ids, Repeat(binder, 1), HASH_LEN), cfg);
    OfferAdmitted(NEW_SESSION, f, xs, ids, binder, cfg, PskDheKe(share));
  }

  /**
   * One ClientHello with a wrong binder, refused; then one whose binder is made with the key the server has
   * by then. It is answered, and the flight is not protected by the keys of section 7.1. The key differs from
   * the one every honest client uses.
   */
  lemma {:induction false} FailureMovesKeys(c: Crypto, f: Fields, share: bytes, cfg: ServerConfig, cap: nat)
    requires Loopable(f, cfg) && CanAgree(c, cfg, share, cap)
    ensures !SentFlight(ProcessHello(c, NEW_SESSION, Bound(c, FirstKey(c, cfg), f, share, cfg, false), cfg, cap))
    ensures var s := AfterFailure(c, f, share, cfg, cap);
            s.retry.None? && BinderSchedule(c, s, cfg).binderKey.value != BinderKey(c, cfg.psk)
    ensures var s := AfterFailure(c, f, share, cfg, cap);
            var m := Bound(c, BinderSchedule(c, s, cfg).binderKey.value, f, share, cfg, true);
            var o, a := ProcessHello(c, s, m, cfg, cap), Admit(s, m, cfg);
            && SentFlight(o) && a.Ok? && a.value.decision.Use?
            && o.session.ks.server.secret != Some(RfcSecret(c, m, a.value, cfg))
  {
    var m1 := Bound(c, FirstKey(c, cfg), f, share, cfg, false);
    BoundAnswered(c, NEW_SESSION, FirstKey(c, cfg), f, share, cfg, cap, false);
    BoundDecided(c, FirstKey(c, cfg), f, share, cfg, cap, false);
    FailureKeepsRetry(c, NEW_SESSION, m1, cfg, cap);
    SecondHello(c, m1, AfterFailure(c, f, share, cfg, cap), f, share, cfg, cap);
  }

  lemma {:induction false} SecondHello(
    c: Crypto, m1: bytes, s: Session, f: Fields, share: bytes, cfg: ServerConfig, cap: nat)
    requires Loopable(f, cfg) && CanAgree(c, cfg, share, cap)
    requires s == ProcessHello(c, NEW_SESSION, m1, cfg, cap).session && s.retry.None? && Admit(NEW_SESSION, m1, cfg).Ok?
    ensures BinderSchedule(c, s, cfg).binderKey.value != BinderKey(c, cfg.psk)
    ensures var m := Bound(c, BinderSchedule(c, s, cfg).binderKey.value, f, share, cfg, true);
            var o, a := ProcessHello(c, s, m, cfg, cap), Admit(s, m, cfg);
            && SentFlight(o) && a.Ok? && a.value.decision.Use?
            && o.session.ks.server.secret != Some(RfcSecret(c, m, a.value, cfg))
  {
    var calls, key := [ClientHello(m1, cfg, cap)], BinderSchedule(c, s, cfg).binderKey.value;
    OneCall(c, m1, cfg, cap);
    BinderKeyExactlyWhenNoneAdmitted(c, calls, s, cfg);
    BoundAnswered(c, s, key, f, share, cfg, cap, true);
    KeysExactlyWhenNoneAdmitted(c, calls, s, Bound(c, key, f, share, cfg, true), cfg, cap);
  }
}
