/** The comparisons of addresses and logins (address.h, login.h). */
module AddressOrder {
  import opened Text
  import opened Addresses

  /** std::string::compare: negative, zero or positive. */
  function Compare(s: string, t: string): int {
    if s == [] && t == [] then 0
    else if s == [] then -1
    else if t == [] then 1
    else if s[0] != t[0] then (if s[0] < t[0] then -1 else 1)
    else Compare(s[1..], t[1..])
  }

  function ToLower(c: char): char {
    if 'A' <= c <= 'Z' then (c as int + 32) as char else c
  }

  function Folded(s: string): (t: string)
    ensures |t| == |s|
  {
    seq(|s|, i requires 0 <= i < |s| => ToLower(s[i]))
  }

  /** The characters a C function sees: those before the first NUL. */
  function CString(s: string): string {
    match SplitAt(s, '\0')
    case None => s
    case Some((before, _)) => before
  }

  function StrCaseCmp(s: string, t: string): int {
    Compare(Folded(CString(s)), Folded(CString(t)))
  }

  predicate LoginEquals(a: Login, b: Login) {
    a.user == b.user && a.password == b.password
  }

  predicate LoginLess(a: Login, b: Login) {
    if a.user != b.user then Compare(a.user, b.user) < 0
    else Compare(a.password, b.password) < 0
  }

  /** operator== */
  predicate Equals(a: Address, b: Address) {
    if a.secure != b.secure then false
    else if !LoginEquals(a.login, b.login) then false
    else if StrCaseCmp(a.hostname, b.hostname) != 0 then false
    else if a.port != b.port then false
    else a.vhost == b.vhost
  }

  /** operator< */
  predicate Less(a: Address, b: Address) {
    if a.secure != b.secure then !a.secure
    else if !LoginEquals(a.login, b.login) then LoginLess(a.login, b.login)
    else if StrCaseCmp(a.hostname, b.hostname) != 0 then StrCaseCmp(a.hostname, b.hostname) < 0
    else if a.port != b.port then a.port < b.port
    else Compare(a.vhost, b.vhost) < 0
  }

  // The order of strings

  lemma {:induction false} CompareAntisymmetric(s: string, t: string)
    ensures Compare(s, t) == -Compare(t, s)
    ensures Compare(s, t) == 0 <==> s == t
  {
    if s != [] && t != [] && s[0] == t[0] {
      CompareAntisymmetric(s[1..], t[1..]);
      assert s == [s[0]] + s[1..] && t == [t[0]] + t[1..];
    }
  }

  lemma {:induction false} CompareTransitive(s: string, t: string, u: string)
    ensures Compare(s, t) <= 0 && Compare(t, u) <= 0 ==> Compare(s, u) <= 0
    ensures Compare(s, t) < 0 && Compare(t, u) <= 0 ==> Compare(s, u) < 0
    ensures Compare(s, t) <= 0 && Compare(t, u) < 0 ==> Compare(s, u) < 0
  {
    if s != [] && t != [] && u != [] {
      CompareTransitive(s[1..], t[1..], u[1..]);
    }
  }

  // The order of addresses

  /** The host as the comparison sees it. */
  function HostKey(a: Address): string {
    Folded(CString(a.hostname))
  }

  /** Equal addresses are those whose five compared parts agree, the host up to case and NUL. */
  lemma EqualsIsSameParts(a: Address, b: Address)
    ensures Equals(a, b) <==> a.(hostname := HostKey(a)) == b.(hostname := HostKey(b))
  {
    CompareAntisymmetric(HostKey(a), HostKey(b));
  }

  function FirstDifference(signs: seq<int>): int {
    if signs == [] then 0 else if signs[0] != 0 then signs[0] else FirstDifference(signs[1..])
  }

  /** The six comparisons in the order of their weight: amqp before amqps, then login, host, port, vhost. */
  function Differences(a: Address, b: Address): seq<int> {
    [(if a.secure then 1 else 0) - (if b.secure then 1 else 0),
     Compare(a.login.user, b.login.user), Compare(a.login.password, b.login.password),
     StrCaseCmp(a.hostname, b.hostname), (a.port as int) - (b.port as int), Compare(a.vhost, b.vhost)]
  }

  lemma FirstDifferenceOfSix(a: int, b: int, c: int, d: int, e: int, f: int)
    ensures FirstDifference([a, b, c, d, e, f]) ==
            if a != 0 then a else if b != 0 then b else if c != 0 then c
            else if d != 0 then d else if e != 0 then e else f
  {
    assert [a, b, c, d, e, f][1..] == [b, c, d, e, f] && [b, c, d, e, f][1..] == [c, d, e, f];
    assert [c, d, e, f][1..] == [d, e, f] && [d, e, f][1..] == [e, f] && [e, f][1..] == [f] && [f][1..] == [];
    assert FirstDifference([f]) == f;
    assert FirstDifference([e, f]) == if e != 0 then e else f;
    assert FirstDifference([d, e, f]) == if d != 0 then d else FirstDifference([e, f]);
    assert FirstDifference([c, d, e, f]) == if c != 0 then c else FirstDifference([d, e, f]);
    assert FirstDifference([b, c, d, e, f]) == if b != 0 then b else FirstDifference([c, d, e, f]);
  }

  /** The nested tests of both operators are one flat lexicographic comparison. */
  lemma LessIsLexicographic(a: Address, b: Address)
    ensures Less(a, b) <==> FirstDifference(Differences(a, b)) < 0
    ensures Equals(a, b) <==> FirstDifference(Differences(a, b)) == 0
  {
    var d := Differences(a, b);
    FirstDifferenceOfSix(d[0], d[1], d[2], d[3], d[4], d[5]);
    CompareAntisymmetric(a.login.user, b.login.user);
    CompareAntisymmetric(a.login.password, b.login.password);
    CompareAntisymmetric(a.vhost, b.vhost);
  }

  /** Exactly one of a < b, b < a and a == b holds. */
  lemma Trichotomy(a: Address, b: Address)
    ensures Less(a, b) || Less(b, a) || Equals(a, b)
    ensures !(Less(a, b) && Less(b, a))
    ensures Equals(a, b) ==> !Less(a, b) && !Less(b, a)
  {
    CompareAntisymmetric(a.login.user, b.login.user);
    CompareAntisymmetric(a.login.password, b.login.password);
    CompareAntisymmetric(HostKey(a), HostKey(b));
    CompareAntisymmetric(a.vhost, b.vhost);
  }

  lemma Irreflexive(a: Address)
    ensures !Less(a, a) && Equals(a, a)
  {
    CompareAntisymmetric(HostKey(a), HostKey(a));
    CompareAntisymmetric(a.vhost, a.vhost);
  }

  lemma LoginTransitive(a: Login, b: Login, c: Login)
    requires LoginLess(a, b) && LoginLess(b, c)
    ensures LoginLess(a, c)
  {
    CompareTransitive(a.user, b.user, c.user);
    CompareTransitive(a.password, b.password, c.password);
    CompareAntisymmetric(a.user, b.user);
  }

  lemma LoginLessIsNotEquals(a: Login, b: Login)
    requires LoginLess(a, b)
    ensures !LoginEquals(a, b)
  {
    CompareAntisymmetric(a.password, b.password);
  }

  lemma Transitive(a: Address, b: Address, c: Address)
    requires Less(a, b) && Less(b, c)
    ensures Less(a, c)
  {
    if a.secure == b.secure == c.secure {
      if LoginEquals(a.login, b.login) && LoginEquals(b.login, c.login) {
        CompareTransitive(HostKey(a), HostKey(b), HostKey(c));
        CompareAntisymmetric(HostKey(a), HostKey(b));
        CompareAntisymmetric(HostKey(b), HostKey(c));
        CompareTransitive(a.vhost, b.vhost, c.vhost);
      } else if !LoginEquals(a.login, b.login) && !LoginEquals(b.login, c.login) {
        LoginTransitive(a.login, b.login, c.login);
        LoginLessIsNotEquals(a.login, c.login);
      }
    }
  }

  /** Less does not tell equal addresses apart, so it orders the classes of Equals. */
  lemma LessRespectsEquals(a: Address, a': Address, b: Address, b': Address)
    requires Equals(a, a') && Equals(b, b')
    ensures Less(a, b) <==> Less(a', b')
  {
    EqualsIsSameParts(a, a');
    EqualsIsSameParts(b, b');
  }

  // The order spelled out

  /** At the first character in which they differ, s has the smaller one, or s ends there and t does not. */
  predicate Precedes(s: string, t: string) {
    exists k :: 0 <= k <= |s| && k < |t| && s[..k] == t[..k] && (k == |s| || s[k] < t[k])
  }

  lemma {:induction false} CompareIsPrecedes(s: string, t: string)
    ensures Compare(s, t) < 0 <==> Precedes(s, t)
  {
    if s == [] || t == [] || s[0] != t[0] {
      assert s[..0] == t[..0];
      assert forall k :: 0 < k <= |s| && k < |t| && s[..k] == t[..k] ==> s[..k][0] == t[..k][0];
    } else {
      CompareIsPrecedes(s[1..], t[1..]);
      if k :| && 0 <= k <= |s[1..]| && k < |t[1..]| && s[1..][..k] == t[1..][..k]
              && (k == |s[1..]| || s[1..][k] < t[1..][k]) {
        assert s[..k + 1] == [s[0]] + s[1..][..k] && t[..k + 1] == [t[0]] + t[1..][..k];
      }
      if k :| 0 <= k <= |s| && k < |t| && s[..k] == t[..k] && (k == |s| || s[k] < t[k]) {
        assert k > 0;
        assert s[1..][..k - 1] == s[..k][1..] && t[1..][..k - 1] == t[..k][1..];
      }
    }
  }

  /** The characters before the first NUL, each upper-case letter of ASCII as its lower-case one. */
  lemma HostKeyIs(a: Address)
    ensures var key, host := HostKey(a), a.hostname;
            && |key| <= |host| && (|key| == |host| || host[|key|] as int == 0)
            && forall i :: 0 <= i < |key| ==>
                 && host[i] as int != 0
                 && key[i] as int == host[i] as int + if 65 <= host[i] as int <= 90 then 32 else 0
  {
  }

  /** amqp comes before amqps; then user, password, host, port and vhost decide, in this order. */
  lemma LessIs(a: Address, b: Address)
    ensures Less(a, b) <==>
              || (!a.secure && b.secure)
              || (a.secure == b.secure
                  && (|| Precedes(a.login.user, b.login.user)
                      || (a.login.user == b.login.user
                          && (|| Precedes(a.login.password, b.login.password)
                              || (a.login.password == b.login.password
                                  && (|| Precedes(HostKey(a), HostKey(b))
                                      || (HostKey(a) == HostKey(b)
                                          && (a.port < b.port
                                              || (a.port == b.port && Precedes(a.vhost, b.vhost))))))))))
  {
    CompareIsPrecedes(a.login.user, b.login.user);
    CompareIsPrecedes(a.login.password, b.login.password);
    CompareIsPrecedes(HostKey(a), HostKey(b));
    CompareIsPrecedes(a.vhost, b.vhost);
    CompareAntisymmetric(a.login.user, b.login.user);
    CompareAntisymmetric(a.login.password, b.login.password);
    CompareAntisymmetric(HostKey(a), HostKey(b));
    hide Compare, Precedes;
  }
}
