/** Matching a certificate name against a host name (`tls_hostname_match_impl`, src/pki.rs:505-584). */
module Hostnames {
  import opened Basics

  const STAR: byte := 42
  const DOT: byte := 46

  predicate Allowed(b: byte) {
    97 <= b <= 122 || 65 <= b <= 90 || 48 <= b <= 57 || b == 45 || b == DOT
  }

  function Lower(b: byte): byte { if 65 <= b <= 90 then b + 32 else b }

  predicate SameName(a: bytes, b: bytes) {
    |a| == |b| && forall i :: 0 <= i < |a| ==> Lower(a[i]) == Lower(b[i])
  }

  /** `host` is one dot-free label of `k` bytes, a dot, and what follows `*.` in the certificate name. */
  predicate WildcardAt(cn: bytes, host: bytes, k: nat) {
    && 2 <= |cn| && cn[0] == STAR && cn[1] == DOT && STAR !in cn[2..] && DOT in cn[2..]
    && k < |host| && host[k] == DOT && DOT !in host[..k] && SameName(cn[2..], host[k + 1..])
  }

  /** Section 6.4.3 of RFC 6125: the same name, or a whole leftmost label replaced by a star. */
  ghost predicate Matches(cn: bytes, host: bytes) {
    && (forall i :: 0 <= i < |cn| ==> Allowed(cn[i]) || cn[i] == STAR)
    && (forall i :: 0 <= i < |host| ==> Allowed(host[i]))
    && ((STAR !in cn && SameName(cn, host)) || exists k :: WildcardAt(cn, host, k))
  }

  function Count(s: bytes, b: byte): nat {
    if s == [] then 0 else Count(s[..|s| - 1], b) + if s[|s| - 1] == b then 1 else 0
  }

  lemma {:induction false} CountZero(s: bytes, b: byte)
    ensures Count(s, b) == 0 <==> b !in s
  {
    if s != [] {
      CountZero(s[..|s| - 1], b);
      assert s == s[..|s| - 1] + [s[|s| - 1]];
    }
  }

  lemma {:induction false} CountConcat(s: bytes, t: bytes, b: byte)
    ensures Count(s + t, b) == Count(s, b) + Count(t, b)
  {
    if t == [] {
      assert s + t == s;
    } else {
      CountConcat(s, t[..|t| - 1], b);
      assert (s + t)[..|s + t| - 1] == s + t[..|t| - 1];
    }
  }

  /** Ignoring case does not hide or invent dots. */
  lemma {:induction false} SameDots(a: bytes, b: bytes)
    requires SameName(a, b)
    ensures Count(a, DOT) == Count(b, DOT)
  {
    if a != [] {
      SameDots(a[..|a| - 1], b[..|b| - 1]);
    }
  }

  /** A star name has one star and, after it, as many dots as the rest of the name. */
  lemma {:induction false} StarName(cn: bytes)
    requires 2 <= |cn| && cn[0] == STAR && cn[1] == DOT
    ensures Count(cn, STAR) == 1 + Count(cn[2..], STAR) && Count(cn, DOT) == 1 + Count(cn[2..], DOT)
  {
    assert cn == [STAR, DOT] + cn[2..];
    CountConcat([STAR, DOT], cn[2..], STAR);
    CountConcat([STAR, DOT], cn[2..], DOT);
    assert [STAR, DOT] == [STAR] + [DOT];
    CountConcat([STAR], [DOT], STAR);
    CountConcat([STAR], [DOT], DOT);
  }

  lemma {:induction false} FirstDotSplits(host: bytes, k: nat)
    requires k < |host| && host[k] == DOT && DOT !in host[..k]
    ensures Count(host, DOT) == 1 + Count(host[k + 1..], DOT)
  {
    assert host == host[..k] + [DOT] + host[k + 1..];
    CountConcat(host[..k] + [DOT], host[k + 1..], DOT);
    CountConcat(host[..k], [DOT], DOT);
    CountZero(host[..k], DOT);
  }

  /** What a wildcard match implies for the counts the code compares: they are then no further restriction. */
  lemma {:induction false} WildcardCounts(cn: bytes, host: bytes, k: nat)
    requires WildcardAt(cn, host, k)
    ensures Count(cn, STAR) == 1 && Count(cn, DOT) >= 2 && Count(cn, DOT) == Count(host, DOT)
  {
    StarName(cn);
    CountZero(cn[2..], STAR);
    CountZero(cn[2..], DOT);
    SameDots(cn[2..], host[k + 1..]);
    FirstDotSplits(host, k);
  }

  /** Only the first dot can end the label. */
  lemma {:induction false} OneSplit(cn: bytes, host: bytes, k: nat, j: nat)
    requires WildcardAt(cn, host, k)
    requires j < |host| && host[j] == DOT && DOT !in host[..j]
    ensures j == k
  {
    assert forall i :: 0 <= i < k ==> host[..k][i] == host[i];
    assert forall i :: 0 <= i < j ==> host[..j][i] == host[i];
  }

  /** The first loop: every byte allowed, and the counts of dots and stars. */
  method Scan(name: bytes, star: bool) returns (ok: bool, labels: nat, stars: nat)
    ensures ok <==> forall i :: 0 <= i < |name| ==> Allowed(name[i]) || (star && name[i] == STAR)
    ensures ok ==> labels == 1 + Count(name, DOT) && stars == Count(name, STAR)
  {
    labels, stars := 1, 0;
    for i := 0 to |name|
      invariant forall k :: 0 <= k < i ==> Allowed(name[k]) || (star && name[k] == STAR)
      invariant labels == 1 + Count(name[..i], DOT) && stars == Count(name[..i], STAR)
    {
      assert name[..i + 1][..i] == name[..i];
      if !Allowed(name[i]) && !(star && name[i] == STAR) {
        return false, labels, stars;
      }
      if name[i] == DOT {
        labels := labels + 1;
      }
      if name[i] == STAR {
        stars := stars + 1;
      }
    }
    assert name[..|name|] == name;
    ok := true;
  }

  /** The comparison loops. */
  method Compare(a: bytes, b: bytes) returns (same: bool)
    ensures same <==> SameName(a, b)
  {
    if |a| != |b| {
      return false;
    }
    for i := 0 to |a|
      invariant forall k :: 0 <= k < i ==> Lower(a[k]) == Lower(b[k])
    {
      if Lower(a[i]) != Lower(b[i]) {
        return false;
      }
    }
    same := true;
  }

  method FirstDot(host: bytes) returns (r: Option<nat>)
    ensures r.None? ==> DOT !in host
    ensures r.Some? ==> r.value < |host| && host[r.value] == DOT && DOT !in host[..r.value]
  {
    for i := 0 to |host|
      invariant DOT !in host[..i]
    {
      if host[i] == DOT {
        return Some(i);
      }
    }
    assert host[..|host|] == host;
    r := None;
  }

  /** Nothing that fails the wildcard checks matches by wildcard. */
  lemma {:induction false} NoWildcard(cn: bytes, host: bytes)
    requires Count(cn, STAR) != 1 || |cn| < 2 || cn[..2] != [STAR, DOT] || Count(cn, DOT) < 2
             || Count(cn, DOT) != Count(host, DOT)
    ensures !exists k :: WildcardAt(cn, host, k)
  {
    assert 2 <= |cn| && cn[0] == STAR && cn[1] == DOT ==> cn[..2] == [STAR, DOT];
    if exists k :: WildcardAt(cn, host, k) {
      var k :| WildcardAt(cn, host, k);
      WildcardCounts(cn, host, k);
      assert false;
    }
  }

  /** The wildcard branch, after the counts have been checked. */
  method MatchWildcard(cn: bytes, host: bytes) returns (r: bool)
    requires 2 <= |cn| && cn[0] == STAR && cn[1] == DOT && Count(cn, STAR) == 1 && Count(cn, DOT) >= 2
    ensures r <==> exists k :: WildcardAt(cn, host, k)
  {
    StarName(cn);
    CountZero(cn[2..], STAR);
    CountZero(cn[2..], DOT);
    var dot := FirstDot(host);
    if dot.None? {
      return false;
    }
    r := Compare(cn[2..], host[dot.value + 1..]);
    if r {
      assert WildcardAt(cn, host, dot.value);
    } else if exists k :: WildcardAt(cn, host, k) {
      ghost var k :| WildcardAt(cn, host, k);
      OneSplit(cn, host, k, dot.value);
      assert false;
    }
  }

  method MatchHostname(cn: bytes, host: bytes) returns (r: bool)
    ensures r <==> Matches(cn, host)
  {
    var cnOk, cnLabels, stars := Scan(cn, true);
    if !cnOk {
      return false;
    }
    var hostOk, hostLabels, hostStars := Scan(host, false);
    if !hostOk {
      return false;
    }
    CountZero(cn, STAR);
    if stars == 0 {
      NoWildcard(cn, host);
      r := Compare(cn, host);
      return;
    }
    if stars != 1 || |cn| < 2 || cn[..2] != [STAR, DOT] || cnLabels < 3 || cnLabels != hostLabels {
      NoWildcard(cn, host);
      return false;
    }
    assert cn[0] == cn[..2][0] && cn[1] == cn[..2][1];
    r := MatchWildcard(cn, host);
  }
}
