/** Which key exchange the server picks, stated over the lists the client sent (server.rs:574-735). */
module KexChoice {
  import opened Basics
  import opened PreSharedKeys
  import opened Extensions
  import opened ServerSpec

  /** The first entry for X25519 is entry `i`. */
  predicate FirstShareAt(shares: seq<Share>, i: nat) {
    i < |shares| && shares[i].group == X25519 && forall j :: 0 <= j < i ==> shares[j].group != X25519
  }

  lemma {:induction false} FirstShareFound(shares: seq<Share>, i: nat)
    requires FirstShareAt(shares, i)
    ensures FirstX25519(shares)
         == if |shares[i].key| == X25519_LEN then Ok(Some(shares[i].key)) else Err(Abort(ILLEGAL_PARAMETER))
  {
    if i > 0 {
      FirstShareFound(shares[1..], i - 1);
    }
  }

  lemma {:induction false} NoShareFound(shares: seq<Share>)
    requires forall j :: 0 <= j < |shares| ==> shares[j].group != X25519
    ensures FirstX25519(shares) == Ok(None)
  {
    if shares != [] {
      NoShareFound(shares[1..]);
    }
  }

  /** Later shares and shares of other groups play no part; the first X25519 share must be 32 bytes. */
  lemma {:induction false} ShareExactlyWhen(shares: seq<Share>, key: bytes)
    ensures FirstX25519(shares) == Ok(Some(key)) <==>
              exists i: nat :: FirstShareAt(shares, i) && shares[i].key == key && |key| == X25519_LEN
    ensures FirstX25519(shares) == Ok(None) <==> forall j :: 0 <= j < |shares| ==> shares[j].group != X25519
    ensures FirstX25519(shares).Err? <==> exists i: nat :: FirstShareAt(shares, i) && |shares[i].key| != X25519_LEN
  {
    if forall j :: 0 <= j < |shares| ==> shares[j].group != X25519 {
      NoShareFound(shares);
      assert forall i: nat :: !FirstShareAt(shares, i);
    } else {
      var k :| 0 <= k < |shares| && shares[k].group == X25519;
      var i := LeastShare(shares, k);
      FirstShareFound(shares, i);
      assert forall j: nat :: FirstShareAt(shares, j) ==> j == i;
    }
  }

  lemma {:induction false} LeastShare(shares: seq<Share>, k: nat) returns (i: nat)
    requires k < |shares| && shares[k].group == X25519
    ensures FirstShareAt(shares, i)
  {
    if j :| 0 <= j < k && shares[j].group == X25519 {
      i := LeastShare(shares, j);
    } else {
      i := k;
    }
  }

  // --- The first extension of a kind ---

  predicate FirstAt(exts: seq<ClientExt>, want: ClientExt -> bool, i: nat) {
    i < |exts| && want(exts[i]) && forall j :: 0 <= j < i ==> !want(exts[j])
  }

  lemma {:induction false} FirstIs(exts: seq<ClientExt>, want: ClientExt -> bool, i: nat)
    requires FirstAt(exts, want, i)
    ensures First(exts, want) == Some(exts[i])
  {
    if i > 0 {
      FirstIs(exts[1..], want, i - 1);
    }
  }

  lemma {:induction false} FirstHas(exts: seq<ClientExt>, want: ClientExt -> bool) returns (i: nat)
    requires First(exts, want).Some?
    ensures FirstAt(exts, want, i) && First(exts, want) == Some(exts[i])
  {
    if want(exts[0]) {
      i := 0;
    } else {
      var k := FirstHas(exts[1..], want);
      i := k + 1;
    }
  }

  /** The modes the client sent: those of its first `psk_key_exchange_modes`. */
  ghost predicate SendsModes(exts: seq<ClientExt>, modes: seq<byte>) {
    exists i: nat :: FirstAt(exts, (e: ClientExt) => e.PskModes?, i) && exts[i] == PskModes(modes)
  }

  ghost predicate SendsShares(exts: seq<ClientExt>, shares: seq<Share>) {
    exists i: nat :: FirstAt(exts, (e: ClientExt) => e.KeyShare?, i) && exts[i] == KeyShare(shares)
  }

  ghost predicate SendsGroups(exts: seq<ClientExt>, groups: seq<nat>) {
    exists i: nat :: FirstAt(exts, (e: ClientExt) => e.SupportedGroups?, i) && exts[i] == SupportedGroups(groups)
  }

  /** The key of the first X25519 entry of the share list. */
  ghost predicate SendsKey(exts: seq<ClientExt>, key: bytes) {
    exists shares: seq<Share>, i: nat :: SendsShares(exts, shares) && FirstShareAt(shares, i) && shares[i].key == key
  }

  ghost predicate SendsMode(exts: seq<ClientExt>, mode: byte) {
    exists modes :: SendsModes(exts, modes) && mode in modes
  }

  ghost predicate KnowsX25519(exts: seq<ClientExt>) {
    exists groups :: SendsGroups(exts, groups) && X25519 in groups
  }

  /** The identities and binders the client sent: those of its first `pre_shared_key`. */
  ghost predicate SendsPsks(exts: seq<ClientExt>, p: OfferedPsks) {
    exists i: nat :: FirstAt(exts, (e: ClientExt) => e.PreSharedKey?, i) && exts[i] == PreSharedKey(p)
  }

  /** The server's identity is found at its first place in the list, with the binder at the same place. */
  lemma {:induction false} LocateExactlyWhen(exts: seq<ClientExt>, identity: bytes, k: nat, binder: bytes)
    ensures Locate(exts, identity) == Ok((k, binder)) <==>
              exists p: OfferedPsks :: SendsPsks(exts, p) && k < |p.identities| && p.identities[k] == identity
                                       && identity !in p.identities[..k] && p.binders[k] == binder
    ensures Locate(exts, identity).Err? <==> forall p: OfferedPsks :: SendsPsks(exts, p) ==> identity !in p.identities
  {
    var psk := (e: ClientExt) => e.PreSharedKey?;
    forall i: nat | FirstAt(exts, psk, i) ensures First(exts, psk) == Some(exts[i]) {
      FirstIs(exts, psk, i);
    }
    if First(exts, psk).Some? {
      var i := FirstHas(exts, psk);
      assert SendsPsks(exts, exts[i].psks);
    }
  }

  // --- What the code looks at, and what was sent ---

  lemma {:induction false} ModesSent(exts: seq<ClientExt>)
    ensures var first := First(exts, (e: ClientExt) => e.PskModes?);
            && (first.None? <==> forall i :: 0 <= i < |exts| ==> !exts[i].PskModes?)
            && (forall mode :: SendsMode(exts, mode) <==> first.Some? && mode in first.value.modes)
  {
    var want := (e: ClientExt) => e.PskModes?;
    var first := First(exts, want);
    forall i: nat | FirstAt(exts, want, i) ensures first == Some(exts[i]) {
      FirstIs(exts, want, i);
    }
    if first.Some? {
      var i := FirstHas(exts, want);
      assert SendsModes(exts, first.value.modes);
    }
  }

  lemma {:induction false} GroupsSent(exts: seq<ClientExt>)
    ensures SupportsX25519(exts) <==> KnowsX25519(exts)
  {
    var want := (e: ClientExt) => e.SupportedGroups?;
    var first := First(exts, want);
    forall i: nat | FirstAt(exts, want, i) ensures first == Some(exts[i]) {
      FirstIs(exts, want, i);
    }
    if first.Some? {
      var i := FirstHas(exts, want);
      assert SendsGroups(exts, first.value.groups);
    }
  }

  lemma {:induction false} SharesSent(exts: seq<ClientExt>)
    ensures var first := First(exts, (e: ClientExt) => e.KeyShare?);
            forall shares :: SendsShares(exts, shares) <==> first == Some(KeyShare(shares))
  {
    var want := (e: ClientExt) => e.KeyShare?;
    var first := First(exts, want);
    forall i: nat | FirstAt(exts, want, i) ensures first == Some(exts[i]) {
      FirstIs(exts, want, i);
    }
    if first.Some? {
      var i := FirstHas(exts, want);
      assert SendsShares(exts, first.value.shares);
    }
  }

  lemma {:induction false} KeySent(exts: seq<ClientExt>, key: bytes)
    ensures ClientShare(exts) == Ok(Some(key)) <==> SendsKey(exts, key) && |key| == X25519_LEN
    ensures ClientShare(exts) == Err(Abort(ILLEGAL_PARAMETER)) <==> exists k :: SendsKey(exts, k) && |k| != X25519_LEN
    ensures ClientShare(exts) == Ok(None) <==> forall k :: !SendsKey(exts, k)
  {
    SharesSent(exts);
    var first := First(exts, (e: ClientExt) => e.KeyShare?);
    if first.Some? {
      var shares := first.value.shares;
      ShareExactlyWhen(shares, key);
      assert SendsShares(exts, shares);
      if k :| 0 <= k < |shares| && shares[k].group == X25519 {
        var i := LeastShare(shares, k);
        FirstShareFound(shares, i);
        assert SendsKey(exts, shares[i].key);
      }
    }
  }

  /**
   * Every outcome, for every list of extensions. Forward secrecy whenever it can be had in one round trip;
   * plain PSK only when it cannot; a retry only when nothing else is left and none was sent before. A malformed
   * X25519 share aborts the handshake exactly when forward secrecy was to be used, even if plain PSK is offered.
   */
  lemma {:induction false} KexExactlyWhen(exts: seq<ClientExt>, dhe: bool, retried: bool)
    ensures var r := DecideKex(exts, dhe, retried);
            var ke, forward := SendsMode(exts, 0), dhe && SendsMode(exts, 1);
            var shared := exists key :: SendsKey(exts, key);
            && (r == Err(Abort(MISSING_EXTENSION)) <==> forall i :: 0 <= i < |exts| ==> !exts[i].PskModes?)
            && (r == Err(Abort(ILLEGAL_PARAMETER)) <==>
                  forward && exists key :: SendsKey(exts, key) && |key| != X25519_LEN)
            && (forall key :: r == Ok(Use(PskDheKe(key))) <==> forward && SendsKey(exts, key) && |key| == X25519_LEN)
            && (r == Ok(Use(PskKe)) <==> ke && !(forward && shared))
            && (r == Ok(Retry) <==> forward && !ke && !shared && KnowsX25519(exts) && !retried)
            && (r == Err(Abort(HANDSHAKE_FAILURE)) <==>
                  && (exists i :: 0 <= i < |exts| && exts[i].PskModes?)
                  && !ke && !(forward && (shared || (KnowsX25519(exts) && !retried))))
  {
    ModesSent(exts);
    GroupsSent(exts);
    forall key
      ensures ClientShare(exts) == Ok(Some(key)) <==> SendsKey(exts, key) && |key| == X25519_LEN
      ensures ClientShare(exts) == Err(Abort(ILLEGAL_PARAMETER)) <==> exists k :: SendsKey(exts, k) && |k| != X25519_LEN
      ensures ClientShare(exts) == Ok(None) <==> forall k :: !SendsKey(exts, k)
    {
      KeySent(exts, key);
    }
    KeySent(exts, []);
    OneKey(exts);
  }

  /** The client sends at most one key. */
  lemma {:induction false} OneKey(exts: seq<ClientExt>)
    ensures forall k, l :: SendsKey(exts, k) && SendsKey(exts, l) ==> k == l
  {
    SharesSent(exts);
  }
}
