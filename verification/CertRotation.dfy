/**
 What rotation passes keep and where they lead: a certificate keeps its
 identity through any number of passes, and two passes at one instant are
 enough to settle the cache.
 */
module CertRotation {
  import opened Prelude
  import opened CertOptions
  import opened Certificates
  import opened CertManager

  // ---------------------------------------------------------------------
  // Identity

  /** Re-issuing with these names gives these names back. */
  predicate NamesFixed(policy: SanPolicy, cn: string, saNames: seq<string>) {
    IssuedNames(policy, cn, Unique(Unique(saNames, []), [])) == saNames
  }

  lemma ReissueRequestsSameNames(saNames: seq<string>)
    ensures Unique(Unique(saNames, []), []) == Unique(saNames, [])
  {
    UniqueIdempotent(saNames, []);
  }

  /** Names that start with a colon-free common name survive having it put in front again. */
  lemma PrependTwice(cn: string, names: seq<string>)
    requires ':' !in cn
    ensures Unique([cn] + Unique([cn] + names, []), []) == Unique([cn] + names, [])
  {
    var once := Unique([cn] + names, []);
    if names == [] {
      var twice := [cn, cn];
      assert [cn] + once == twice;
      assert twice[..1] == [cn] && [cn][..0] == [];
      assert Filtered([cn], []) == [cn];
      assert Filtered(twice, []) == [cn];
    } else {
      FilteredIsExact([cn] + names, []);
      FilteredHead(cn, names);
      FilteredRepeatedHead(cn, once[1..]);
      assert once == [cn] + once[1..];
      FilteredOfClean(once);
    }
  }

  /** The filter keeps a kept first name first. */
  lemma {:induction false} FilteredHead(cn: string, names: seq<string>)
    requires ':' !in cn
    ensures Filtered([cn] + names, []) != [] && Filtered([cn] + names, [])[0] == cn
  {
    var all := [cn] + names;
    var n := |all| - 1;
    if names == [] {
      assert all[..0] == [];
    } else {
      assert all[..n] == [cn] + names[..n - 1];
      FilteredHead(cn, names[..n - 1]);
    }
  }

  /** A repeated first name is dropped. */
  lemma {:induction false} FilteredRepeatedHead(cn: string, names: seq<string>)
    requires ':' !in cn
    ensures Filtered([cn] + ([cn] + names), []) == Filtered([cn] + names, [])
  {
    var twice, once := [cn] + ([cn] + names), [cn] + names;
    if names == [] {
      assert twice[..1] == [cn] && [cn][..0] == [];
      assert once == [cn];
      assert Filtered([cn], []) == [cn];
    } else {
      var m := |names| - 1;
      assert twice[..|twice| - 1] == [cn] + ([cn] + names[..m]);
      assert once[..|once| - 1] == [cn] + names[..m];
      FilteredRepeatedHead(cn, names[..m]);
    }
  }

  /** A freshly issued certificate has names that re-issuing keeps. The only exception is an
      issuer that puts the common name first, with a colon in every name it is given. */
  lemma FirstIssueFixesNames(policy: SanPolicy, cn: string, requested: seq<string>)
    ensures NamesFixed(policy, cn, IssuedNames(policy, cn, Unique(requested, []))) <==>
      policy == Echo || ':' !in cn || exists san :: san in requested && ':' !in san
  {
    var names := Unique(requested, []);
    var issued := IssuedNames(policy, cn, names);
    UniqueIdempotent(requested, []);
    ReissueRequestsSameNames(issued);
    if policy == PrependCommonName {
      UniqueIdempotent([cn] + names, []);
      if ':' !in cn {
        PrependTwice(cn, names);
      } else {
        ColonNameDropped(cn, requested);
      }
    }
  }

  lemma ColonNameDropped(cn: string, requested: seq<string>)
    requires ':' in cn
    ensures NamesFixed(PrependCommonName, cn, Unique([cn] + Unique(requested, []), [])) <==>
      exists san :: san in requested && ':' !in san
  {
    var names := Unique(requested, []);
    var issued := Unique([cn] + names, []);
    ReissueRequestsSameNames(issued);
    UniqueIdempotent([cn] + names, []);
    FilteredIsExact(requested, []);
    DroppedHead(cn, names);
    FilteredIsExact(names, []);
    DroppedHead(cn, issued);
    if names == [] {
      DroppedHead(cn, [cn]);
      DroppedHead(cn, []);
      assert [cn] + [] == [cn];
    } else {
      assert issued == Filtered(names, []);
      FilteredOfClean(issued);
      if issued == [] {
        assert [cn] + issued == [cn];
      } else {
        assert issued[0] in names;
      }
    }
  }

  /** A name with a colon at the head is dropped. */
  lemma {:induction false} DroppedHead(cn: string, names: seq<string>)
    requires ':' in cn
    ensures Filtered([cn] + names, []) == Filtered(names, [])
  {
    var all := [cn] + names;
    if names == [] {
      assert all[..0] == [];
    } else {
      var m := |names| - 1;
      assert all[..|all| - 1] == [cn] + names[..m];
      DroppedHead(cn, names[..m]);
    }
  }

  /** The cache after a sequence of passes. */
  function Passes(cache: map<string, Certificate>, es: seq<PassEnv>): map<string, Certificate> {
    if es == [] then cache else Pass(Passes(cache, es[..|es| - 1]), es[|es| - 1])
  }

  /** A certificate filed under `key`: either the key is its full common name, or the trust domain follows. */
  predicate Filed(key: string, c: Certificate, trustDomain: string) {
    c.cn == key || c.cn == FormatCN(false, key, trustDomain)
  }

  /** The issuers of a pass keep the names of `c`: same policy, and either the common name
      does not depend on the trust domain, or the trust domain is unchanged. */
  predicate SameNaming(key: string, c: Certificate, e: PassEnv, policy: SanPolicy, trustDomain: string) {
    e.pair.signing.policy == policy && (c.cn == key || e.pair.signing.trustDomain == trustDomain)
  }

  /** The identity of a certificate, as its holder sees it. */
  function Identity(c: Certificate): (string, seq<string>, CertType) {
    (c.cn, c.saNames, c.certType)
  }

  lemma OnePassKeepsIdentity(key: string, c: Certificate, e: PassEnv, policy: SanPolicy, trustDomain: string)
    requires Filed(key, c, trustDomain) && SameNaming(key, c, e, policy, trustDomain)
    requires NamesFixed(policy, c.cn, c.saNames)
    ensures Identity(Checked(key, c, e)) == Identity(c)
  {
    if c.cn != key { FormattedNameDiffersFromPrefix(key, trustDomain); }
  }

  /** Any number of passes leaves common name, SAN list and type exactly as they were. A full
      common name needs nothing of the trust domain; a prefixed one needs it unchanged. */
  lemma {:induction false} PassesKeepIdentity(cache: map<string, Certificate>, es: seq<PassEnv>, key: string,
                                              policy: SanPolicy, trustDomain: string)
    requires key in cache && Filed(key, cache[key], trustDomain)
    requires NamesFixed(policy, cache[key].cn, cache[key].saNames)
    requires forall i :: 0 <= i < |es| ==> SameNaming(key, cache[key], es[i], policy, trustDomain)
    ensures key in Passes(cache, es) && Identity(Passes(cache, es)[key]) == Identity(cache[key])
  {
    if es != [] {
      PassesKeepIdentity(cache, es[..|es| - 1], key, policy, trustDomain);
      var mid := Passes(cache, es[..|es| - 1]);
      OnePassKeepsIdentity(key, mid[key], es[|es| - 1], policy, trustDomain);
    }
  }

  /** From first issue onwards: a certificate issued for a new key keeps its identity through
      every later pass, as long as signing names things the way it did at first. */
  lemma {:induction false} IssuedIdentityIsPermanent(cache: map<string, Certificate>, key: string, ct: CertType,
                                                     o: IssueOptions,
                                  pair: Pair, validity: Validity, at: Moment, es: seq<PassEnv>)
    requires key !in cache && !at.fails
    requires pair.signing.policy == Echo || ':' !in FormatCN(o.fullCN, key, pair.signing.trustDomain) ||
      exists san :: san in o.saNames && ':' !in san
    requires forall i :: 0 <= i < |es| ==>
      && es[i].pair.signing.policy == pair.signing.policy
      && (o.fullCN || es[i].pair.signing.trustDomain == pair.signing.trustDomain)
    ensures var issued := IssueOutcome(cache, key, ct, o, pair, validity, at).cache;
      && key in Passes(issued, es)
      && Identity(Passes(issued, es)[key]) == Identity(issued[key])
      && issued[key].certType == ct
  {
    var cn := FormatCN(o.fullCN, key, pair.signing.trustDomain);
    FirstIssueFixesNames(pair.signing.policy, cn, o.saNames);
    PassesKeepIdentity(IssueOutcome(cache, key, ct, o, pair, validity, at).cache, es, key,
                       pair.signing.policy, pair.signing.trustDomain);
  }

  /** With an issuer that echoes, the SAN list and the type survive even a change of trust domain. */
  lemma {:induction false} EchoedNamesSurviveTrustDomainChange(cache: map<string, Certificate>, es: seq<PassEnv>,
                                                               key: string)
    requires key in cache && Unique(cache[key].saNames, []) == cache[key].saNames
    requires forall i :: 0 <= i < |es| ==> es[i].pair.signing.policy == Echo
    ensures key in Passes(cache, es)
    ensures Passes(cache, es)[key].saNames == cache[key].saNames
    ensures Passes(cache, es)[key].certType == cache[key].certType
  {
    if es != [] { EchoedNamesSurviveTrustDomainChange(cache, es[..|es| - 1], key); }
  }

  /** Names from the built-in issuer start with the common name. */
  lemma BuiltInNamesStart(cn: string, names: seq<string>)
    requires ':' !in cn
    ensures var issued := IssuedNames(PrependCommonName, cn, names); issued != [] && issued[0] == cn
  {
    FilteredHead(cn, names);
  }

  /** A rotation by the built-in issuer keeps the SAN list of a prefixed certificate exactly when
      the trust domain is still the old one; otherwise the new common name comes first, and the old
      one stays among the SANs. */
  lemma NamesKeptExactlyWithinTrustDomain(key: string, c: Certificate, e: PassEnv, oldDomain: string)
    requires c.cn == FormatCN(false, key, oldDomain) && NamesFixed(PrependCommonName, c.cn, c.saNames)
    requires ':' !in c.cn && ':' !in e.pair.signing.trustDomain && e.pair.signing.policy == PrependCommonName
    requires ShouldRotate(c, e.pair, e.now, e.noise(key)) && !e.fails(key)
    ensures var c' := Checked(key, c, e);
      && (c'.saNames == c.saNames <==> e.pair.signing.trustDomain == oldDomain)
      && c'.saNames != [] && c'.cn == c'.saNames[0] && c.cn in c'.saNames
  {
    FormattedNameDiffersFromPrefix(key, oldDomain);
    var newName := FormatCN(false, key, e.pair.signing.trustDomain);
    FormattedNamesDiffer(key, oldDomain, e.pair.signing.trustDomain);
    BuiltInNamesStart(c.cn, RequestedNames(NO_OPTIONS, Some(c)));
    BuiltInNamesStart(newName, RequestedNames(NO_OPTIONS, Some(c)));
    NamePassedOn(newName, c);
  }

  lemma FormattedNamesDiffer(key: string, a: string, b: string)
    ensures FormatCN(false, key, a) == FormatCN(false, key, b) <==> a == b
    ensures ':' in FormatCN(false, key, b) <==> ':' in key || ':' in b
  {
    assert FormatCN(false, key, a)[|key| + 1..] == a && FormatCN(false, key, b)[|key| + 1..] == b;
  }

  /** What the certificate carries as its first SAN is requested and issued again. */
  lemma NamePassedOn(newName: string, c: Certificate)
    requires c.saNames != [] && c.saNames[0] == c.cn && ':' !in c.cn
    ensures c.cn in IssuedNames(PrependCommonName, newName, RequestedNames(NO_OPTIONS, Some(c)))
  {
    var names := RequestedNames(NO_OPTIONS, Some(c));
    ReissueRequestsSameNames(c.saNames);
    FilteredIsExact(c.saNames, []);
    assert c.cn in names;
    FilteredIsExact([newName] + names, []);
  }

  // ---------------------------------------------------------------------
  // Convergence

  /** Every period the pass would use exceeds `bound`. */
  predicate PeriodsExceed(validity: Validity, bound: int) {
    validity.service > bound && validity.ingress > bound
  }

  predicate NoiseInRange(e: PassEnv, key: string) {
    e.noise(key) < NOISE_SECONDS
  }

  /** One pass files every certificate under the current issuers, and the keys stay the same. */
  lemma PassBringsCurrentIssuers(cache: map<string, Certificate>, e: PassEnv)
    requires forall key :: key in cache ==> !e.fails(key)
    ensures Pass(cache, e).Keys == cache.Keys
    ensures forall key :: key in cache ==>
      Pass(cache, e)[key].signingID == e.pair.signing.id && Pass(cache, e)[key].validatingID == e.pair.validating.id
  {
  }

  /** After a pass, a second one at the same instant can replace a certificate only if it has
      more than 30s and at most 34s left, and for each of those some noise makes it do so. */
  lemma SecondPassReplacesOnlyTheNoisyWindow(cache: map<string, Certificate>, e: PassEnv, key: string)
    requires key in cache && !e.fails(key) && NoiseInRange(e, key)
    requires PeriodsExceed(e.validity, RENEW_BEFORE + 4 * SECOND)
    ensures var c := Pass(cache, e)[key];
      && c.expiration - e.now > RENEW_BEFORE
      && ((exists noise: nat :: noise < NOISE_SECONDS && ShouldRotate(c, e.pair, e.now, noise)) <==>
          c.expiration - e.now <= RENEW_BEFORE + 4 * SECOND)
      && (c.expiration - e.now <= RENEW_BEFORE + 4 * SECOND ==> c == cache[key])
  {
    var c := Pass(cache, e)[key];
    assert !Superseded(c, e.pair);
    if c.expiration - e.now <= RENEW_BEFORE + 4 * SECOND {
      assert ShouldRotate(c, e.pair, e.now, 4);
    }
  }

  lemma CheckedTwice(key: string, c: Certificate, e: PassEnv)
    requires NoiseInRange(e, key) && PeriodsExceed(e.validity, RENEW_BEFORE + 4 * SECOND)
    ensures Checked(key, Checked(key, c, e), e) == Checked(key, c, e)
  {
    var c' := Checked(key, c, e);
    if ShouldRotate(c, e.pair, e.now, e.noise(key)) && !e.fails(key) {
      assert c'.expiration - e.now > RENEW_BEFORE + 4 * SECOND && !Superseded(c', e.pair);
    }
  }

  /** With noise fixed, a pass at the same instant changes nothing a second time. */
  lemma PassIdempotent(cache: map<string, Certificate>, e: PassEnv)
    requires forall key :: key in cache ==> !e.fails(key) && NoiseInRange(e, key)
    requires PeriodsExceed(e.validity, RENEW_BEFORE + 4 * SECOND)
    ensures Pass(Pass(cache, e), e) == Pass(cache, e)
  {
    forall key | key in cache ensures Checked(key, Pass(cache, e)[key], e) == Pass(cache, e)[key] {
      CheckedTwice(key, cache[key], e);
    }
    assert Pass(Pass(cache, e), e).Keys == Pass(cache, e).Keys;
  }
}
