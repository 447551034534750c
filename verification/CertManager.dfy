/**
 The certificate manager (pkg/certificate/manager.go) as an object whose
 methods update the issuer pair, the certificate cache and the announcements.
 Every method here runs alone; `CertProtocol` interleaves their steps.
 */
module CertManager {
  import opened Prelude
  import opened CertOptions
  import opened Certificates

  // ---------------------------------------------------------------------
  // Root-certificate events

  datatype MRCState =
    | Active | IssuingRollback | IssuingRollout | ValidatingRollback | ValidatingRollout | Inactive | ErrorState

  datatype MRCEvent = Added(name: string, trustDomain: string, state: MRCState) | Updated(name: string)

  /** What the root-certificate client builds for a certificate: an issuer and its CA. */
  datatype IssuerClient = IssuerClient(ca: Bytes, issuingCA: Bytes, policy: SanPolicy)

  /** The issuers the manager holds; both absent until the first usable event. */
  datatype Held = Held(signing: Option<Issuer>, validating: Option<Issuer>) {
    predicate Ready() {
      signing.Some? && validating.Some?
    }

    function Current(): Pair
      requires Ready()
    {
      Pair(signing.value, validating.value)
    }
  }

  /** Which of the two issuers an event in a given state replaces. */
  predicate SetsSigning(state: MRCState) {
    state !in {ErrorState, ValidatingRollback, ValidatingRollout}
  }

  predicate SetsValidating(state: MRCState) {
    state !in {ErrorState, IssuingRollback, IssuingRollout}
  }

  function AfterEvent(held: Held, event: MRCEvent, client: Result<IssuerClient>): Held {
    match event
    case Updated(_) => held
    case Added(name, trustDomain, state) =>
      if client.Err? then held
      else
        var c := Issuer(name, trustDomain, client.value.ca, client.value.issuingCA, client.value.policy);
        Held(if SetsSigning(state) then Some(c) else held.signing,
             if SetsValidating(state) then Some(c) else held.validating)
  }

  // ---------------------------------------------------------------------
  // Issuing

  /** What the environment contributes to one call: clock, noise, and the issuer's answer. */
  datatype Moment = Moment(now: int, noise: nat, fails: bool, serial: nat)

  /** A rotation announcement. */
  datatype Rotation = Rotation(key: string, before: Certificate, after: Certificate)

  datatype Outcome = Outcome(result: Result<Certificate>, cache: map<string, Certificate>, announced: seq<Rotation>)

  function Cached(cache: map<string, Certificate>, key: string): Option<Certificate> {
    if key in cache then Some(cache[key]) else None
  }

  /** One complete `issueCertificate` call, run without interruption. */
  function IssueOutcome(cache: map<string, Certificate>, key: string, ct: CertType, o: IssueOptions, pair: Pair,
                        validity: Validity, at: Moment): Outcome
  {
    var prev := Cached(cache, key);
    if prev.Some? && !ShouldRotate(prev.value, pair, at.now, at.noise) then Outcome(Ok(prev.value), cache, [])
    else if at.fails then Outcome(Err, cache, [])
    else
      var c := NewCertificate(key, ct, o, prev, pair, validity, at.now, at.serial);
      Outcome(Ok(c), cache[key := c], if prev.Some? then [Rotation(key, prev.value, c)] else [])
  }

  /** What a caller gets is what is cached afterwards: the cached certificate while it has more than
      30s and the noise left and bears the IDs of both issuers, else a new one. It gets an error
      exactly when a new one is needed and signing fails, and then nothing changes. */
  lemma IssueResult(cache: map<string, Certificate>, key: string, ct: CertType, o: IssueOptions, pair: Pair,
                    validity: Validity, at: Moment)
    ensures var out := IssueOutcome(cache, key, ct, o, pair, validity, at);
      var good := key in cache && cache[key].expiration - at.now > (30 + at.noise) * 1_000_000_000 &&
        cache[key].signingID == pair.signing.id && cache[key].validatingID == pair.validating.id;
      && (out.result == Err <==> !good && at.fails)
      && (out.result.Ok? ==> key in out.cache && out.result.value == out.cache[key])
      && (good || at.fails ==> out.cache == cache && out.announced == [])
      && (!good && !at.fails ==>
            && (forall k :: k != key ==> (k in out.cache <==> k in cache) && (k in cache ==> out.cache[k] == cache[k]))
            && out.announced == if key in cache then [Rotation(key, cache[key], out.cache[key])] else [])
  {
  }

  // ---------------------------------------------------------------------
  // Rotation passes

  /** The environment of a whole pass: one instant, and an answer per key. */
  datatype PassEnv = PassEnv(pair: Pair, validity: Validity, now: int, noise: string -> nat,
                             fails: string -> bool, serial: string -> nat)
  {
    function At(key: string): Moment {
      Moment(now, noise(key), fails(key), serial(key))
    }
  }

  /** The certificate under `key` after a pass has looked at `c`. */
  function Checked(key: string, c: Certificate, e: PassEnv): Certificate {
    if ShouldRotate(c, e.pair, e.now, e.noise(key)) && !e.fails(key)
    then NewCertificate(key, c.certType, PassOptions(key, c), Some(c), e.pair, e.validity, e.now, e.serial(key))
    else c
  }

  /** The cache after a pass, whatever order the keys are visited in. */
  function Pass(cache: map<string, Certificate>, e: PassEnv): map<string, Certificate> {
    map key | key in cache :: Checked(key, cache[key], e)
  }

  /** The announcements of `key`. */
  function Of(log: seq<Rotation>, key: string): seq<Rotation> {
    if log == [] then []
    else if log[|log| - 1].key == key then Of(log[..|log| - 1], key) + [log[|log| - 1]]
    else Of(log[..|log| - 1], key)
  }

  lemma {:induction false} OfCat(a: seq<Rotation>, b: seq<Rotation>, key: string)
    ensures Of(a + b, key) == Of(a, key) + Of(b, key)
  {
    if b == [] {
      assert a + b == a;
    } else {
      var n := |b| - 1;
      assert (a + b)[..|a + b| - 1] == a + b[..n];
      OfCat(a, b[..n], key);
    }
  }

  /** What a pass announces about one key: the replacement, if there is one. */
  function PassAnnounces(key: string, cache: map<string, Certificate>, e: PassEnv): seq<Rotation> {
    if key in cache && ShouldRotate(cache[key], e.pair, e.now, e.noise(key)) && !e.fails(key)
    then [Rotation(key, cache[key], Checked(key, cache[key], e))] else []
  }

  class Manager {
    var held: Held
    var cache: map<string, Certificate>
    var published: seq<Rotation>
    var validity: Validity

    constructor (validity: Validity)
      ensures held == Held(None, None) && cache == map[] && published == [] && this.validity == validity
    {
      held, cache, published, this.validity := Held(None, None), map[], [], validity;
    }

    method HandleMRCEvent(event: MRCEvent, client: Result<IssuerClient>) returns (ok: bool)
      modifies this`held
      ensures held == AfterEvent(old(held), event, client)
      ensures held.signing ==
        if event.Added? && client.Ok? && event.state in {Active, Inactive, IssuingRollback, IssuingRollout}
        then Some(Issuer(event.name, event.trustDomain, client.value.ca, client.value.issuingCA, client.value.policy))
        else old(held).signing
      ensures held.validating ==
        if event.Added? && client.Ok? && event.state in {Active, Inactive, ValidatingRollback, ValidatingRollout}
        then Some(Issuer(event.name, event.trustDomain, client.value.ca, client.value.issuingCA, client.value.policy))
        else old(held).validating
      ensures old(held).Ready() ==> held.Ready()
      ensures !ok <==> event.Added? && event.state != ErrorState && client.Err?
    {
      ok := true;
      match event
      case Updated(_) =>
      case Added(name, trustDomain, state) =>
        if state == ErrorState { return; }
        if client.Err? { return false; }
        var c := Issuer(name, trustDomain, client.value.ca, client.value.issuingCA, client.value.policy);
        if state in {IssuingRollback, IssuingRollout} {
          held := held.(signing := Some(c));
        } else if state in {ValidatingRollback, ValidatingRollout} {
          held := held.(validating := Some(c));
        } else {
          held := Held(Some(c), Some(c));
        }
    }

    method IssueCertificate(prefix: string, ct: CertType, opts: seq<IssueOption>, at: Moment)
      returns (result: Result<Certificate>)
      requires held.Ready()
      modifies this`cache, this`published
      ensures var out := IssueOutcome(old(cache), prefix, ct, ApplyOptions(opts), held.Current(), validity, at);
        result == out.result && cache == out.cache && published == old(published) + out.announced
    {
      var rotate := false;
      var prev := Cached(cache, prefix);
      if prev.Some? {
        rotate := ShouldRotate(prev.value, held.Current(), at.now, at.noise);
        if !rotate { return Ok(prev.value); }
      }
      var options := NO_OPTIONS;
      for i := 0 to |opts|
        invariant options == ApplyOptions(opts[..i])
        invariant cache == old(cache) && published == old(published)
      {
        options := ApplyOption(options, opts[i]);
        assert opts[..i + 1][..i] == opts[..i];
      }
      assert opts[..|opts|] == opts;
      var saNames := options.saNames;
      if prev.Some? && rotate {
        saNames := UniqueSubjectAlternativeNames(prev.value.saNames, []);
      }
      if |saNames| > 1 {
        saNames := UniqueSubjectAlternativeNames(saNames, []);
      }
      var pair := held.Current();
      if at.fails { return Err; }
      var newCert := Issue(pair.signing, FormatCN(options.fullCN, prefix, pair.signing.trustDomain), saNames,
                           Period(options, ct, validity), at.now, at.serial);
      if pair.validating.id != pair.signing.id {
        newCert := MergedWithRoot(newCert, pair.validating.ca);
      }
      newCert := newCert.(signingID := pair.signing.id, validatingID := pair.validating.id, certType := ct);
      cache := cache[prefix := newCert];
      if rotate {
        published := published + [Rotation(prefix, prev.value, newCert)];
      }
      return Ok(newCert);
    }

    method ReleaseCertificate(key: string)
      modifies this`cache
      ensures cache == old(cache) - {key}
    {
      cache := cache - {key};
    }

    /** One iteration of the rotation loop: re-issues `key` if its certificate needs it. */
    method RotateOne(key: string, cert: Certificate, e: PassEnv)
      requires held.Ready() && e.pair == held.Current() && e.validity == validity
      requires key in cache && cache[key] == cert
      modifies this`cache, this`published
      ensures cache == old(cache)[key := Checked(key, cert, e)]
      ensures published == old(published) + PassAnnounces(key, old(cache), e)
    {
      var opts: seq<IssueOption> := [];
      if key == cert.cn {
        var saNames := UniqueSubjectAlternativeNames(cert.saNames, [key]);
        opts := [FullCNProvided, SubjectAlternativeNames(saNames)];
        PassOptionsAsList(key, cert);
      }
      var _ := IssueCertificate(key, cert.certType, opts, e.At(key));
      assert old(cache) == old(cache)[key := cert];
    }

    /** Visits a snapshot of the cache in an arbitrary order and re-issues what needs it. */
    method CheckAndRotate(e: PassEnv)
      requires held.Ready() && e.pair == held.Current() && e.validity == validity
      modifies this`cache, this`published
      ensures cache == Pass(old(cache), e)
      ensures forall key :: Of(published, key) == Of(old(published), key) + PassAnnounces(key, old(cache), e)
    {
      var certs := cache;
      var remaining := certs.Keys;
      assert forall key :: key !in remaining ==> PassAnnounces(key, certs, e) == [];
      while remaining != {}
        invariant remaining <= certs.Keys && certs == old(cache)
        invariant Visited(cache, certs, remaining, e)
        invariant Announced(published, old(published), certs, remaining, e)
      {
        var key :| key in remaining;
        ghost var was, log := cache, published;
        RotateOne(key, certs[key], e);
        VisitOne(was, certs, remaining, key, e);
        AnnounceOne(log, old(published), certs, remaining, key, e);
        assert PassAnnounces(key, was, e) == PassAnnounces(key, certs, e);
        remaining := remaining - {key};
      }
      assert cache == Pass(old(cache), e);
    }
  }

  /** Halfway through a pass: the keys still to visit are untouched, the others are checked. */
  ghost predicate Visited(cache: map<string, Certificate>, certs: map<string, Certificate>, remaining: set<string>,
                          e: PassEnv) {
    cache.Keys == certs.Keys &&
    forall key :: key in certs ==>
      cache[key] == if key in remaining then certs[key] else Checked(key, certs[key], e)
  }

  ghost predicate Announced(log: seq<Rotation>, log0: seq<Rotation>, certs: map<string, Certificate>,
                            remaining: set<string>, e: PassEnv) {
    forall key ::
      Of(log, key) == Of(log0, key) + if key in remaining then [] else PassAnnounces(key, certs, e)
  }

  lemma VisitOne(cache: map<string, Certificate>, certs: map<string, Certificate>, remaining: set<string>,
                 key: string, e: PassEnv)
    requires Visited(cache, certs, remaining, e) && key in remaining && key in certs
    ensures Visited(cache[key := Checked(key, certs[key], e)], certs, remaining - {key}, e)
  {
  }

  lemma AnnounceOne(log: seq<Rotation>, log0: seq<Rotation>, certs: map<string, Certificate>, remaining: set<string>,
                    key: string, e: PassEnv)
    requires Announced(log, log0, certs, remaining, e) && key in remaining
    ensures Announced(log + PassAnnounces(key, certs, e), log0, certs, remaining - {key}, e)
  {
    var latest := PassAnnounces(key, certs, e);
    forall k
      ensures Of(log + latest, k) == Of(log0, k) + if k in remaining - {key} then [] else PassAnnounces(k, certs, e)
    {
      OfCat(log, latest, k);
      assert Of(latest, k) == if k == key then latest else [];
    }
  }

  lemma PassOptionsAsList(key: string, c: Certificate)
    requires key == c.cn
    ensures ApplyOptions([FullCNProvided, SubjectAlternativeNames(Unique(c.saNames, [key]))]) == PassOptions(key, c)
  {
    var names := SubjectAlternativeNames(Unique(c.saNames, [key]));
    var opts := [FullCNProvided, names];
    assert opts[..1] == [FullCNProvided] && [FullCNProvided][..0] == [];
    assert ApplyOptions([FullCNProvided]) == ApplyOption(ApplyOptions([]), FullCNProvided);
    assert ApplyOptions(opts) == ApplyOption(ApplyOptions([FullCNProvided]), names);
  }
}
