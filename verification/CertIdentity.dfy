/**
 The identity of a certificate over whole runs of the protocol: common name, SAN
 list and type stay as first issued, however issue calls, passes and events
 interleave, and what a release in the middle of a pass does to them.
 */
module CertIdentity {
  import opened Prelude
  import opened CertOptions
  import opened Certificates
  import opened CertManager
  import opened CertRotation
  import opened CertProtocol
  import opened CertFlights

  /** How a key is used and signed: its type, whether it is a full common name, and how the
      signing issuers name things. */
  datatype Usage = Usage(ct: CertType, fullCN: bool, policy: SanPolicy, trustDomain: string) {
    function Name(key: string): string {
      FormatCN(fullCN, key, trustDomain)
    }

    /** Signing names things as this usage says; a full common name needs no trust domain. */
    predicate Names(i: Issuer) {
      i.policy == policy && (fullCN || i.trustDomain == trustDomain)
    }

    /** The names of a certificate first issued with these options. */
    function FirstNames(key: string, o: IssueOptions): seq<string> {
      IssuedNames(policy, Name(key), Unique(o.saNames, []))
    }

    /** The SANs asked for are such as re-issuing keeps. */
    predicate Stable(key: string, o: IssueOptions) {
      policy == Echo || ':' !in Name(key) || exists san :: san in o.saNames && ':' !in san
    }

    /** The options of an issue call agree with the usage. */
    predicate Agrees(key: string, ct: CertType, o: IssueOptions) {
      ct == this.ct && o.fullCN == fullCN && Stable(key, o)
    }
  }

  /** Every issue call for `key` uses it the same way, and signing names things the same way. */
  ghost predicate SteadyUse(tr: seq<State>, acts: seq<Action>, key: string, u: Usage) {
    && (forall j, ct, o :: 0 <= j < |acts| && acts[j] == BeginIssue(key, ct, o) ==> u.Agrees(key, ct, o))
    && (forall j :: 0 <= j < |tr| && tr[j].held.signing.Some? ==> u.Names(tr[j].held.signing.value))
  }

  /** `a` stores a certificate under `key` by a flight that found none in the cache. */
  predicate FreshStore(s: State, a: Action, key: string) {
    a == Store(key) && Issuing(s, key) && s.flights[key].phase.Storing? && s.flights[key].phase.prev.None?
  }

  /** Whenever a certificate is made afresh, its SANs are such as re-issuing keeps. */
  ghost predicate FreshStoresStable(tr: seq<State>, acts: seq<Action>, i: nat, key: string, u: Usage)
    requires |tr| == |acts| + 1 && i <= |acts|
  {
    forall j :: 0 <= j < i && FreshStore(tr[j], acts[j], key) ==> u.Stable(key, tr[j].flights[key].o)
  }

  // ---------------------------------------------------------------------
  // Everything that is issued fits the usage

  /** A certificate issued under this usage, with names that re-issuing keeps. */
  predicate Fitting(c: Certificate, key: string, u: Usage) {
    c.cn == u.Name(key) && c.certType == u.ct && NamesFixed(u.policy, c.cn, c.saNames)
  }

  ghost predicate FlightFits(s: State, key: string, u: Usage) {
    Issuing(s, key) ==>
      var f := s.flights[key];
      && f.ct == u.ct && f.o.fullCN == u.fullCN
      && (Remembered(f.phase).Some? ==> Fitting(Remembered(f.phase).value, key, u))
      && match f.phase
         case Signing(_, pair) => u.Names(pair.signing)
         case Storing(prev, made) =>
           Identity(made) == (u.Name(key), if prev.Some? then prev.value.saNames else u.FirstNames(key, f.o), u.ct)
         case _ => true
  }

  ghost predicate KeyFits(s: State, key: string, u: Usage) {
    && (key in s.cache ==> Fitting(s.cache[key], key, u))
    && FlightFits(s, key, u)
    && (s.pass.Some? && key in s.pass.value.snapshot ==> Fitting(s.pass.value.snapshot[key], key, u))
  }

  /** Signing under the usage gives a certificate with the names of the one it replaces, or first names. */
  lemma MadeFits(key: string, u: Usage, o: IssueOptions, prev: Option<Certificate>, pair: Pair,
                 validity: Validity, now: int, serial: nat)
    requires o.fullCN == u.fullCN && u.Names(pair.signing) && (prev.Some? ==> Fitting(prev.value, key, u))
    ensures Identity(NewCertificate(key, u.ct, o, prev, pair, validity, now, serial)) ==
      (u.Name(key), if prev.Some? then prev.value.saNames else u.FirstNames(key, o), u.ct)
  {
  }

  /** A pass asks for the certificate the way it was asked for. */
  lemma PassOptionsFit(key: string, c: Certificate, u: Usage)
    requires Fitting(c, key, u)
    ensures PassOptions(key, c).fullCN == u.fullCN
  {
    FormattedNameDiffersFromPrefix(key, u.trustDomain);
  }

  lemma SignFits(s: State, a: Action, s': State, key: string, u: Usage)
    requires a.Sign? && a.key == key && Step(s, a) == Some(s') && FlightFits(s, key, u)
    ensures FlightFits(s', key, u)
  {
    var f := s.flights[key];
    MadeFits(key, u, f.o, f.phase.prev, f.phase.pair, s.validity, s.now, a.serial);
  }

  lemma ReadFits(s: State, s': State, key: string, u: Usage)
    requires Step(s, ReadIssuers(key)) == Some(s') && KeyFits(s, key, u)
    requires s.held.signing.Some? ==> u.Names(s.held.signing.value)
    ensures FlightFits(s', key, u)
  {
  }

  lemma LoadFits(s: State, s': State, key: string, u: Usage)
    requires Step(s, Load(key)) == Some(s') && KeyFits(s, key, u)
    ensures FlightFits(s', key, u)
  {
  }

  lemma AdvanceFits(s: State, a: Action, s': State, key: string, u: Usage)
    requires OfFlight(a) && a.key == key && !a.Sign? && !a.ReadIssuers? && !a.Load? && Step(s, a) == Some(s')
    requires FlightFits(s, key, u)
    ensures FlightFits(s', key, u)
  {
  }

  lemma ElsewhereFits(s: State, a: Action, s': State, key: string, u: Usage)
    requires OfFlight(a) && a.key != key && Step(s, a) == Some(s') && FlightFits(s, key, u)
    ensures FlightFits(s', key, u)
  {
  }

  lemma OpenFits(s: State, a: Action, s': State, key: string, u: Usage)
    requires !OfFlight(a) && Step(s, a) == Some(s') && KeyFits(s, key, u)
    requires a.BeginIssue? && a.key == key ==> u.Agrees(key, a.ct, a.o)
    ensures FlightFits(s', key, u)
  {
    if a == PassIssue(key) { PassOptionsFit(key, s.pass.value.snapshot[key], u); }
  }

  lemma FlightFitsStep(s: State, a: Action, s': State, key: string, u: Usage)
    requires Step(s, a) == Some(s') && KeyFits(s, key, u)
    requires a.BeginIssue? && a.key == key ==> u.Agrees(key, a.ct, a.o)
    requires s.held.signing.Some? ==> u.Names(s.held.signing.value)
    ensures FlightFits(s', key, u)
  {
    if !OfFlight(a) {
      OpenFits(s, a, s', key, u);
    } else if a.key != key {
      ElsewhereFits(s, a, s', key, u);
    } else if a.Sign? {
      SignFits(s, a, s', key, u);
    } else if a.ReadIssuers? {
      ReadFits(s, s', key, u);
    } else if a.Load? {
      LoadFits(s, s', key, u);
    } else {
      AdvanceFits(s, a, s', key, u);
    }
  }

  lemma StoreFits(s: State, key: string, u: Usage)
    requires Issuing(s, key) && s.flights[key].phase.Storing? && FlightFits(s, key, u)
    requires FreshStore(s, Store(key), key) ==> u.Stable(key, s.flights[key].o)
    ensures Fitting(s.flights[key].phase.made, key, u)
  {
    var f := s.flights[key];
    if f.phase.prev.None? { FirstIssueFixesNames(u.policy, u.Name(key), f.o.saNames); }
  }

  /** Only a pass that begins takes a new snapshot. */
  lemma SnapshotFrame(s: State, a: Action, s': State)
    requires Step(s, a) == Some(s') && s'.pass.Some?
    ensures if s.pass.Some? then s'.pass.value.snapshot == s.pass.value.snapshot else s'.pass.value.snapshot == s.cache
  {
  }

  lemma KeyFitsStep(s: State, a: Action, s': State, key: string, u: Usage)
    requires Step(s, a) == Some(s') && KeyFits(s, key, u)
    requires a.BeginIssue? && a.key == key ==> u.Agrees(key, a.ct, a.o)
    requires s.held.signing.Some? ==> u.Names(s.held.signing.value)
    requires FreshStore(s, a, key) ==> u.Stable(key, s.flights[key].o)
    ensures KeyFits(s', key, u)
  {
    if s'.pass.Some? { SnapshotFrame(s, a, s'); }
    if key in s'.cache {
      CacheFrame(s, a, s', key);
      if a == Store(key) { StoreFits(s, key, u); }
    }
    FlightFitsStep(s, a, s', key, u);
  }

  lemma {:induction false} KeyAlwaysFits(tr: seq<State>, acts: seq<Action>, i: nat, key: string, u: Usage)
    requires IsRun(tr, acts) && i < |tr| && SteadyUse(tr, acts, key, u) && FreshStoresStable(tr, acts, i, key, u)
    ensures KeyFits(tr[i], key, u)
  {
    if i > 0 {
      KeyAlwaysFits(tr, acts, i - 1, key, u);
      var s, a, s' := tr[i - 1], acts[i - 1], tr[i];
      if a.BeginIssue? && a.key == key { assert a == BeginIssue(key, a.ct, a.o); }
      KeyFitsStep(s, a, s', key, u);
    }
  }

  // ---------------------------------------------------------------------
  // Which names a certificate carries

  /** The SANs under `key` at `i`: those at `f`, or of the last certificate made afresh since. */
  ghost function NamesAt(tr: seq<State>, acts: seq<Action>, f: nat, i: nat, key: string, u: Usage): seq<string>
    requires |tr| == |acts| + 1 && f <= i < |tr| && key in tr[f].cache
    decreases i
  {
    if i == f then tr[f].cache[key].saNames
    else if FreshStore(tr[i - 1], acts[i - 1], key) then u.FirstNames(key, tr[i - 1].flights[key].o)
    else NamesAt(tr, acts, f, i - 1, key, u)
  }

  /** The cache and the open flight carry these SANs. */
  ghost predicate Carries(s: State, key: string, names: seq<string>) {
    && (key in s.cache ==> s.cache[key].saNames == names)
    && (Issuing(s, key) && Remembered(s.flights[key].phase).Some? ==>
          Remembered(s.flights[key].phase).value.saNames == names)
  }

  lemma StoreCarries(s: State, s': State, key: string, u: Usage, names: seq<string>)
    requires Step(s, Store(key)) == Some(s') && Carries(s, key, names) && FlightFits(s, key, u)
    ensures Carries(s', key, if FreshStore(s, Store(key), key) then u.FirstNames(key, s.flights[key].o) else names)
  {
  }

  lemma OtherStepCarries(s: State, a: Action, s': State, key: string, names: seq<string>)
    requires a != Store(key) && Step(s, a) == Some(s') && Carries(s, key, names)
    ensures Carries(s', key, names)
  {
    if key in s'.cache { CacheFrame(s, a, s', key); }
    if OfFlight(a) { FlightStepCarries(s, a, s', key, names); }
  }

  lemma FlightStepCarries(s: State, a: Action, s': State, key: string, names: seq<string>)
    requires OfFlight(a) && a != Store(key) && Step(s, a) == Some(s') && Carries(s, key, names)
    ensures Issuing(s', key) && Remembered(s'.flights[key].phase).Some? ==>
      Remembered(s'.flights[key].phase).value.saNames == names
  {
  }

  lemma {:induction false} NamesAreCarried(tr: seq<State>, acts: seq<Action>, f: nat, i: nat, key: string, u: Usage)
    requires IsRun(tr, acts) && SteadyUse(tr, acts, key, u)
    requires f <= i < |tr| && key in tr[f].cache && FreshStoresStable(tr, acts, i, key, u)
    ensures Carries(tr[i], key, NamesAt(tr, acts, f, i, key, u))
    decreases i
  {
    if i == f {
      AlwaysAligned(tr, acts, f, key);
      AlignedCarries(tr[f], key);
    } else {
      StableBefore(tr, acts, i, key, u);
      NamesAreCarried(tr, acts, f, i - 1, key, u);
      NamesNext(tr, acts, f, i - 1, key, u);
    }
  }

  lemma StableBefore(tr: seq<State>, acts: seq<Action>, i: nat, key: string, u: Usage)
    requires |tr| == |acts| + 1 && 0 < i <= |acts| && FreshStoresStable(tr, acts, i, key, u)
    ensures FreshStoresStable(tr, acts, i - 1, key, u)
  {
  }

  lemma NamesNext(tr: seq<State>, acts: seq<Action>, f: nat, i: nat, key: string, u: Usage)
    requires IsRun(tr, acts) && SteadyUse(tr, acts, key, u)
    requires f <= i < |acts| && key in tr[f].cache && FreshStoresStable(tr, acts, i, key, u)
    requires Carries(tr[i], key, NamesAt(tr, acts, f, i, key, u))
    ensures Carries(tr[i + 1], key, NamesAt(tr, acts, f, i + 1, key, u))
  {
    KeyAlwaysFits(tr, acts, i, key, u);
    assert Step(tr[i], acts[i]) == Some(tr[i + 1]);
    StepCarries(tr[i], acts[i], tr[i + 1], key, u, NamesAt(tr, acts, f, i, key, u));
  }

  lemma AlignedCarries(s: State, key: string)
    requires key in s.cache && Aligned(s, key)
    ensures Carries(s, key, s.cache[key].saNames)
  {
  }

  lemma StepCarries(s: State, a: Action, s': State, key: string, u: Usage, names: seq<string>)
    requires Step(s, a) == Some(s') && Carries(s, key, names) && FlightFits(s, key, u)
    ensures Carries(s', key, if FreshStore(s, a, key) then u.FirstNames(key, s.flights[key].o) else names)
  {
    if a == Store(key) { StoreCarries(s, s', key, u, names); } else { OtherStepCarries(s, a, s', key, names); }
  }

  /** The last certificate made afresh between `f` and `i` was stored at `j`. */
  ghost predicate LastFresh(tr: seq<State>, acts: seq<Action>, f: nat, i: nat, j: nat, key: string)
    requires |tr| == |acts| + 1 && i < |tr|
  {
    f <= j < i && FreshStore(tr[j], acts[j], key) && NoneFresh(tr, acts, j + 1, i, key)
  }

  ghost predicate NoneFresh(tr: seq<State>, acts: seq<Action>, f: nat, i: nat, key: string)
    requires |tr| == |acts| + 1 && i < |tr|
  {
    forall j :: f <= j < i ==> !FreshStore(tr[j], acts[j], key)
  }

  lemma {:induction false} NamesUnchanged(tr: seq<State>, acts: seq<Action>, f: nat, i: nat, key: string, u: Usage)
    requires |tr| == |acts| + 1 && f <= i < |tr| && key in tr[f].cache && NoneFresh(tr, acts, f, i, key)
    ensures NamesAt(tr, acts, f, i, key, u) == tr[f].cache[key].saNames
    decreases i
  {
    if f < i { NamesUnchanged(tr, acts, f, i - 1, key, u); }
  }

  lemma {:induction false} NamesOfLast(tr: seq<State>, acts: seq<Action>, f: nat, i: nat, j: nat, key: string, u: Usage)
    requires |tr| == |acts| + 1 && f <= i < |tr| && key in tr[f].cache && LastFresh(tr, acts, f, i, j, key)
    ensures NamesAt(tr, acts, f, i, key, u) == u.FirstNames(key, tr[j].flights[key].o)
    decreases i
  {
    if j < i - 1 { NamesOfLast(tr, acts, f, i - 1, j, key, u); }
  }

  lemma {:induction false} SomeLastFresh(tr: seq<State>, acts: seq<Action>, f: nat, i: nat, key: string)
    returns (j: nat)
    requires |tr| == |acts| + 1 && f <= i < |tr| && !NoneFresh(tr, acts, f, i, key)
    ensures LastFresh(tr, acts, f, i, j, key)
    decreases i
  {
    if FreshStore(tr[i - 1], acts[i - 1], key) { j := i - 1; } else { j := SomeLastFresh(tr, acts, f, i - 1, key); }
  }

  /** In every run, with releases at any time: the certificate under a key has the identity it had at
      `f` exactly when none was made afresh since, or the last one was made with options that yield
      the same SANs. Common name and type never change. */
  lemma IdentityExactly(tr: seq<State>, acts: seq<Action>, f: nat, i: nat, key: string, u: Usage)
    requires IsRun(tr, acts) && SteadyUse(tr, acts, key, u)
    requires f <= i < |tr| && key in tr[f].cache && key in tr[i].cache && FreshStoresStable(tr, acts, i, key, u)
    ensures tr[i].cache[key].cn == u.Name(key) && tr[i].cache[key].certType == u.ct
    ensures Identity(tr[i].cache[key]) == Identity(tr[f].cache[key]) <==>
      NoneFresh(tr, acts, f, i, key) ||
      exists j: nat :: LastFresh(tr, acts, f, i, j, key) &&
        u.FirstNames(key, tr[j].flights[key].o) == tr[f].cache[key].saNames
  {
    KeyAlwaysFits(tr, acts, f, key, u);
    KeyAlwaysFits(tr, acts, i, key, u);
    NamesAreCarried(tr, acts, f, i, key, u);
    if NoneFresh(tr, acts, f, i, key) {
      NamesUnchanged(tr, acts, f, i, key, u);
    } else {
      var last := SomeLastFresh(tr, acts, f, i, key);
      forall j: nat | LastFresh(tr, acts, f, i, j, key)
        ensures NamesAt(tr, acts, f, i, key, u) == u.FirstNames(key, tr[j].flights[key].o)
      {
        NamesOfLast(tr, acts, f, i, j, key, u);
      }
    }
  }

  // ---------------------------------------------------------------------
  // Without releases

  /** Flights either come from a call, or work on a key that is cached. */
  ghost predicate Called(s: State, key: string, u: Usage) {
    && (Issuing(s, key) ==> u.Stable(key, s.flights[key].o) || key in s.cache)
    && (s.pass.Some? && key in s.pass.value.snapshot ==> key in s.cache)
  }

  lemma EntryKept(s: State, a: Action, s': State, key: string)
    requires Step(s, a) == Some(s') && a != Release(key) && key in s.cache
    ensures key in s'.cache
  {
  }

  /** A flight is opened by a call or a pass, and keeps its options. */
  lemma OptionsFrame(s: State, a: Action, s': State, key: string)
    requires Step(s, a) == Some(s') && Issuing(s', key)
    ensures if Issuing(s, key) then s'.flights[key].o == s.flights[key].o
      else a == PassIssue(key) || a == BeginIssue(key, s'.flights[key].ct, s'.flights[key].o)
  {
  }

  lemma CalledStep(s: State, a: Action, s': State, key: string, u: Usage)
    requires Step(s, a) == Some(s') && Called(s, key, u) && a != Release(key)
    requires a.BeginIssue? && a.key == key ==> u.Agrees(key, a.ct, a.o)
    ensures Called(s', key, u)
  {
    if key in s.cache { EntryKept(s, a, s', key); }
    if s'.pass.Some? { SnapshotFrame(s, a, s'); }
    if Issuing(s', key) {
      OptionsFrame(s, a, s', key);
      if a == PassIssue(key) { SnapshotCached(s, s', key); }
    }
  }

  lemma SnapshotCached(s: State, s': State, key: string)
    requires Step(s, PassIssue(key)) == Some(s')
    ensures s.pass.Some? && key in s.pass.value.snapshot
  {
  }

  lemma {:induction false} AlwaysCalled(tr: seq<State>, acts: seq<Action>, i: nat, key: string, u: Usage)
    requires IsRun(tr, acts) && i < |tr| && SteadyUse(tr, acts, key, u) && NeverReleased(acts, i, key)
    ensures Called(tr[i], key, u)
  {
    if i > 0 {
      AlwaysCalled(tr, acts, i - 1, key, u);
      var a := acts[i - 1];
      if a.BeginIssue? && a.key == key { assert a == BeginIssue(key, a.ct, a.o); }
      CalledStep(tr[i - 1], a, tr[i], key, u);
    }
  }

  /** Nothing is made afresh of a key that is cached and not released. */
  lemma FreshStoreNeedsGap(tr: seq<State>, acts: seq<Action>, j: nat, key: string, u: Usage)
    requires IsRun(tr, acts) && j < |acts| && SteadyUse(tr, acts, key, u) && NeverReleased(acts, j, key)
    requires FreshStore(tr[j], acts[j], key)
    ensures key !in tr[j].cache && u.Stable(key, tr[j].flights[key].o)
  {
    NothingAnnouncedBeforeFirstIssue(tr, acts, j, key);
    AlwaysCalled(tr, acts, j, key, u);
  }

  lemma {:induction false} StaysCached(tr: seq<State>, acts: seq<Action>, f: nat, i: nat, key: string)
    requires IsRun(tr, acts) && f <= i < |tr| && key in tr[f].cache && NeverReleased(acts, i, key)
    ensures key in tr[i].cache
    decreases i
  {
    if f < i {
      StaysCached(tr, acts, f, i - 1, key);
      EntryKept(tr[i - 1], acts[i - 1], tr[i], key);
    }
  }

  /** In every run: a certificate that is not released keeps its common name, its SAN list and its
      type exactly as first issued, as long as callers use its key the same way and signing names
      things the same way. A full common name does not even need the same trust domain. */
  lemma IdentityIsKept(tr: seq<State>, acts: seq<Action>, f: nat, i: nat, key: string, u: Usage)
    requires IsRun(tr, acts) && SteadyUse(tr, acts, key, u)
    requires f <= i < |tr| && key in tr[f].cache && NeverReleased(acts, i, key)
    ensures key in tr[i].cache && Identity(tr[i].cache[key]) == Identity(tr[f].cache[key])
    ensures tr[i].cache[key].cn == u.Name(key) && tr[i].cache[key].certType == u.ct
  {
    StaysCached(tr, acts, f, i, key);
    forall j: nat | j < i && FreshStore(tr[j], acts[j], key) ensures u.Stable(key, tr[j].flights[key].o) && j < f {
      FreshStoreNeedsGap(tr, acts, j, key, u);
      if f <= j { StaysCached(tr, acts, f, j, key); }
    }
    IdentityExactly(tr, acts, f, i, key, u);
  }

  // ---------------------------------------------------------------------
  // A release in the middle of a pass

  lemma {:induction false} ExcludingAbsent(names: seq<string>, key: string)
    requires key !in names
    ensures Filtered(names, [key]) == Filtered(names, [])
  {
    if names != [] {
      var n := |names| - 1;
      assert names == names[..n] + [names[n]];
      ExcludingAbsent(names[..n], key);
    }
  }

  /** Leaving `key` out of clean names changes them exactly when it is among several. */
  lemma ExcludingExactly(names: seq<string>, key: string)
    requires Unique(names, []) == names
    ensures Unique(names, [key]) == names <==> |names| <= 1 || key !in names
  {
    if |names| > 1 {
      FilteredIsExact(names, [key]);
      if key !in names { ExcludingAbsent(names, key); }
    }
  }

  lemma RecreatedByEcho(key: string, c: Certificate, u: Usage)
    requires Fitting(c, key, u) && u.fullCN && u.policy == Echo
    ensures u.FirstNames(key, PassOptions(key, c)) == c.saNames <==> |c.saNames| <= 1 || key !in c.saNames
  {
    ReissueRequestsSameNames(c.saNames);
    UniqueIdempotent(c.saNames, [key]);
    ExcludingExactly(c.saNames, key);
  }

  lemma RecreatedSingleName(key: string)
    requires ':' !in key
    ensures IssuedNames(PrependCommonName, key, [key]) == [key] && Unique([key], [key]) == [key]
  {
    FilteredRepeatedHead(key, []);
    assert [key] + ([key] + []) == [key] + [key] && [key] + [] == [key];
    FilteredOfClean([key]);
  }

  lemma RecreatedSeveralNames(key: string, names: seq<string>)
    requires |names| > 1 && names[0] == key && NoDuplicates(names) && forall san :: san in names ==> ':' !in san
    ensures IssuedNames(PrependCommonName, key, Unique(names, [key])) == names
  {
    HeadExcluded(names, key);
    FilteredOfClean(names);
    assert [key] + names[1..] == names;
  }

  /** The built-in issuer puts a colon-free full common name back in front. */
  lemma RecreatedByBuiltIn(key: string, c: Certificate, u: Usage)
    requires Fitting(c, key, u) && u.fullCN && u.policy == PrependCommonName && ':' !in key
    ensures u.FirstNames(key, PassOptions(key, c)) == c.saNames
  {
    var names, requested := c.saNames, Unique(Unique(c.saNames, []), []);
    UniqueIdempotent(names, [key]);
    BuiltInNamesStart(key, requested);
    if |names| == 1 {
      assert names == [key];
      RecreatedSingleName(key);
    } else {
      BuiltInNamesClean(key, requested, names);
      RecreatedSeveralNames(key, names);
    }
  }

  lemma BuiltInNamesClean(key: string, requested: seq<string>, names: seq<string>)
    requires names == IssuedNames(PrependCommonName, key, requested) && |names| > 1
    ensures NoDuplicates(names) && forall san :: san in names ==> ':' !in san
  {
    FilteredIsExact([key] + requested, []);
  }

  lemma {:induction false} HeadExcluded(names: seq<string>, key: string)
    requires names != [] && names[0] == key && NoDuplicates(names) && forall san :: san in names ==> ':' !in san
    ensures Filtered(names, [key]) == names[1..]
  {
    var n := |names| - 1;
    if n == 0 {
      assert names[..0] == [];
    } else {
      CleanFront(names, n);
      HeadExcluded(names[..n], key);
      LastIsNew(names, n);
    }
  }

  lemma LastIsNew(names: seq<string>, n: nat)
    requires 0 < n == |names| - 1 && NoDuplicates(names)
    ensures names[n] != names[0] && names[n] !in names[..n][1..]
    ensures names[1..] == names[..n][1..] + [names[n]]
  {
    forall i | 0 <= i < |names[..n][1..]| ensures names[..n][1..][i] != names[n] {
      assert names[..n][1..][i] == names[i + 1];
    }
  }

  /** A full common name with a colon is never among the names the built-in issuer keeps. */
  lemma RecreatedColonName(key: string, c: Certificate, u: Usage)
    requires Fitting(c, key, u) && u.fullCN && u.policy == PrependCommonName && ':' in key
    ensures u.FirstNames(key, PassOptions(key, c)) == c.saNames
  {
    var names := c.saNames;
    var requested := Unique(Unique(names, []), []);
    ReissueRequestsSameNames(names);
    assert requested == [] ==> [key] + requested == [key];
    assert requested != [];
    FilteredIsExact([key] + requested, []);
    assert key !in names;
    FilteredOfClean(names);
    ExcludingExactly(names, key);
  }

  /** What a pass makes of a certificate that was released after its snapshot: the SANs survive exactly
      when, under a prefixed key, they are what the issuer puts in by itself, and, under a full common
      name, the issuer puts that in by itself or it is not one of several. */
  lemma RecreatedNamesExactly(key: string, c: Certificate, u: Usage)
    requires Fitting(c, key, u)
    ensures u.FirstNames(key, PassOptions(key, c)) == c.saNames <==>
      (if u.fullCN then u.policy == PrependCommonName || |c.saNames| <= 1 || key !in c.saNames
       else c.saNames == if u.policy == Echo then [] else [c.cn])
  {
    if !u.fullCN {
      FormattedNameDiffersFromPrefix(key, u.trustDomain);
    } else if u.policy == Echo {
      RecreatedByEcho(key, c, u);
    } else if ':' !in key {
      RecreatedByBuiltIn(key, c, u);
    } else {
      RecreatedColonName(key, c, u);
    }
  }

  function RecreatingPass(key: string): seq<Action> {
    [PassBegin, Release(key), PassIssue(key), Load(key)] + [ReadIssuers(key), Sign(key, false, 1), Store(key), PassEnd]
  }

  /** The certificate the pass makes anew. */
  function Recreated(s: State, key: string, c: Certificate): Certificate
    requires s.held.Ready()
  {
    NewCertificate(key, c.certType, PassOptions(key, c), None, s.held.Current(), s.validity, s.now, 1)
  }

  lemma FirstStoreLands(s: State, snapshot: map<string, Certificate>, key: string, ct: CertType, o: IssueOptions,
                        made: Certificate)
    requires s.flights == map[]
    ensures Step(Flying(Passing(s, snapshot, {key}, Some(key)), key, ct, o, Storing(None, made)), Store(key)) ==
      Some(Passing(s.(cache := s.cache[key := made]), snapshot, {}, None))
  {
    var f := Flying(Passing(s, snapshot, {key}, Some(key)), key, ct, o, Storing(None, made));
    assert f.flights - {key} == map[] && {key} - {key} == {};
  }

  /** From the point where the pass's own flight has found nothing in the cache. */
  lemma EmptyHandedFlight(s: State, snapshot: map<string, Certificate>, key: string, c: Certificate)
    requires s.held.Ready() && s.pass == None && s.flights == map[]
    ensures After(Flying(Passing(s, snapshot, {key}, Some(key)), key, c.certType, PassOptions(key, c), Reading(None)),
                  [ReadIssuers(key), Sign(key, false, 1), Store(key), PassEnd]) ==
      Some(s.(cache := s.cache[key := Recreated(s, key, c)], covered := s.now))
  {
    var p, pair, made := Passing(s, snapshot, {key}, Some(key)), s.held.Current(), Recreated(s, key, c);
    var ct, o := c.certType, PassOptions(key, c);
    var done := Passing(s.(cache := s.cache[key := made]), snapshot, {}, None);
    var end := s.(cache := s.cache[key := made], covered := s.now);
    Follow(done, PassEnd, end, [], end);
    FirstStoreLands(s, snapshot, key, ct, o, made);
    Follow(Flying(p, key, ct, o, Storing(None, made)), Store(key), done, [PassEnd] + [], end);
    Advance(p, key, ct, o, Signing(None, pair), Storing(None, made));
    var rest := [Store(key)] + ([PassEnd] + []);
    Follow(Flying(p, key, ct, o, Signing(None, pair)), Sign(key, false, 1),
           Flying(p, key, ct, o, Storing(None, made)), rest, end);
    Advance(p, key, ct, o, Reading(None), Signing(None, pair));
    Follow(Flying(p, key, ct, o, Reading(None)), ReadIssuers(key), Flying(p, key, ct, o, Signing(None, pair)),
      [Sign(key, false, 1)] + rest, end);
    assert [ReadIssuers(key)] + ([Sign(key, false, 1)] + rest) ==
      [ReadIssuers(key), Sign(key, false, 1), Store(key), PassEnd];
  }

  /** A pass over one key that is released right after the snapshot puts a new certificate back. */
  lemma {:induction false} PassRecreates(s: State, key: string)
    requires s.held.Ready() && s.pass == None && s.flights == map[] && s.cache.Keys == {key}
    ensures After(s, RecreatingPass(key)) ==
      Some(s.(cache := map[key := Recreated(s, key, s.cache[key])], covered := s.now))
  {
    var c := s.cache[key];
    var ct, o, gone := c.certType, PassOptions(key, c), s.(cache := map[]);
    var made := Recreated(s, key, c);
    var end := s.(cache := map[key := made], covered := s.now);
    var rest := [ReadIssuers(key), Sign(key, false, 1), Store(key), PassEnd];
    PassFindsNothing(gone, s.cache, key, c);
    assert gone.cache[key := made] == map[key := made];
    ReleaseInPass(s, key);
    rest := [PassIssue(key)] + ([Load(key)] + rest);
    Follow(Passing(s, s.cache, {key}, None), Release(key), Passing(gone, s.cache, {key}, None), rest, end);
    Follow(s, PassBegin, Passing(s, s.cache, {key}, None), [Release(key)] + rest, end);
    assert RecreatingPass(key) == [PassBegin] + ([Release(key)] + rest);
  }

  lemma ReleaseInPass(s: State, key: string)
    requires s.held.Ready() && s.pass == None && s.cache.Keys == {key}
    ensures Step(s, PassBegin) == Some(Passing(s, s.cache, {key}, None))
    ensures Step(Passing(s, s.cache, {key}, None), Release(key)) ==
      Some(Passing(s.(cache := map[]), s.cache, {key}, None))
  {
    assert s.cache - {key} == map[];
  }

  lemma PassIssueLands(s: State, snapshot: map<string, Certificate>, key: string, c: Certificate)
    requires s.flights == map[] && key in snapshot && snapshot[key] == c
    ensures Step(Passing(s, snapshot, {key}, None), PassIssue(key)) ==
      Some(Flying(Passing(s, snapshot, {key}, Some(key)), key, c.certType, PassOptions(key, c), Looking))
  {
  }

  /** The pass opens its flight for a key that is in its snapshot and no longer in the cache. */
  lemma PassFindsNothing(s: State, snapshot: map<string, Certificate>, key: string, c: Certificate)
    requires s.held.Ready() && s.pass == None && s.flights == map[] && s.cache == map[]
    requires key in snapshot && snapshot[key] == c
    ensures After(Passing(s, snapshot, {key}, None),
                  [PassIssue(key)] + ([Load(key)] + [ReadIssuers(key), Sign(key, false, 1), Store(key), PassEnd])) ==
      Some(s.(cache := s.cache[key := Recreated(s, key, c)], covered := s.now))
  {
    var rest := [ReadIssuers(key), Sign(key, false, 1), Store(key), PassEnd];
    var ct, o, waiting := c.certType, PassOptions(key, c), Passing(s, snapshot, {key}, Some(key));
    EmptyHandedFlight(s, snapshot, key, c);
    LoadLands(waiting, key, ct, o, rest);
    PassIssueLands(s, snapshot, key, c);
    Follow(Passing(s, snapshot, {key}, None), PassIssue(key), Flying(waiting, key, ct, o, Looking), [Load(key)] + rest,
           s.(cache := s.cache[key := Recreated(s, key, c)], covered := s.now));
  }

  /** A run, steady in every other respect, in which a certificate is released during a pass. */
  lemma RecreatingRun(o: IssueOptions) returns (tr: seq<State>, acts: seq<Action>, f: nat)
    ensures IsRun(tr, acts) && SteadyUse(tr, acts, "k", Usage(Service, o.fullCN, Echo, "td"))
    ensures f < |tr| && tr[f].cache == Prepared(o, 0).cache && tr[|acts|].cache == AfterRecreating(o).cache
  {
    var s, first := PreparedIsReachable(o, 0);
    acts, f := first + RecreatingPass("k"), |first|;
    PassRecreates(Prepared(o, 0), "k");
    tr := RunInTwo(s, first, Prepared(o, 0), RecreatingPass("k"), AfterRecreating(o));
    NoCallsInPass("k");
    SteadyByActions(tr, acts, o);
  }

  /** Why the key must not be released: a pass puts a prefixed certificate back without its SANs. */
  lemma ReleaseLosesNames() returns (tr: seq<State>, acts: seq<Action>, f: nat)
    ensures IsRun(tr, acts) && SteadyUse(tr, acts, "k", Usage(Service, false, Echo, "td"))
    ensures f < |tr| && "k" in tr[f].cache && "k" in tr[|acts|].cache
    ensures tr[f].cache["k"].saNames == ["a", "b"] && tr[|acts|].cache["k"].saNames == []
  {
    var o := NO_OPTIONS.(saNames := ["a", "b"]);
    RecreatedWithoutNames(o);
    tr, acts, f := RecreatingRun(o);
  }

  /** A full common name drops out of the SANs it is one of. */
  lemma ReleaseLosesFullName() returns (tr: seq<State>, acts: seq<Action>, f: nat)
    ensures IsRun(tr, acts) && SteadyUse(tr, acts, "k", Usage(Service, true, Echo, "td"))
    ensures f < |tr| && "k" in tr[f].cache && "k" in tr[|acts|].cache
    ensures tr[f].cache["k"].saNames == ["k", "a"] && tr[|acts|].cache["k"].saNames == ["a"]
  {
    var o := IssueOptions(true, None, ["k", "a"]);
    RecreatedWithoutFullName(o);
    tr, acts, f := RecreatingRun(o);
  }

  function AfterRecreating(o: IssueOptions): State {
    var s := Prepared(o, 0);
    s.(cache := map["k" := Recreated(s, "k", s.cache["k"])], covered := s.now)
  }

  lemma NoCallsInPass(key: string)
    ensures forall a :: a in RecreatingPass(key) ==> !a.RootEvent? && !a.BeginIssue?
  {
  }

  /** A run made up of two parts, with what is known in the middle and at the end. */
  lemma RunInTwo(s: State, first: seq<Action>, mid: State, second: seq<Action>, end: State) returns (tr: seq<State>)
    requires Initial(s) && After(s, first) == Some(mid) && After(mid, second) == Some(end)
    ensures IsRun(tr, first + second) && tr[|first|] == mid && tr[|first + second|] == end
  {
    AfterCat(s, first, second);
    tr := Trace(s, first + second);
    TraceIsRun(s, first + second);
    TraceAt(s, first, second);
  }

  lemma SteadyByActions(tr: seq<State>, acts: seq<Action>, o: IssueOptions)
    requires IsRun(tr, acts)
    requires forall a :: a in acts ==>
      (a.RootEvent? ==> a == ROOT_EVENT) && (a.BeginIssue? ==> a == BeginIssue("k", Service, o))
    ensures SteadyUse(tr, acts, "k", Usage(Service, o.fullCN, Echo, "td"))
  {
    forall j: nat | j < |tr| && tr[j].held.signing.Some? ensures tr[j].held.signing.value == ROOT {
      OnlyRootSigns(tr, acts, j);
    }
    forall j, ct, p | 0 <= j < |acts| && acts[j] == BeginIssue("k", ct, p) ensures ct == Service && p == o {
      assert acts[j] in acts;
    }
  }

  lemma RecreatedWithoutNames(o: IssueOptions)
    requires o == NO_OPTIONS.(saNames := ["a", "b"])
    ensures var s := Prepared(o, 0); s.cache["k"].saNames == ["a", "b"] && Recreated(s, "k", s.cache["k"]).saNames == []
  {
    TwoNames();
    FormattedNameDiffersFromPrefix("k", "td");
  }

  lemma RecreatedWithoutFullName(o: IssueOptions)
    requires o == IssueOptions(true, None, ["k", "a"])
    ensures Prepared(o, 0).cache["k"].saNames == ["k", "a"]
    ensures Recreated(Prepared(o, 0), "k", Prepared(o, 0).cache["k"]).saNames == ["a"]
  {
    NameDropsOut("k", "a");
    assert Prepared(o, 0).cache["k"].saNames == Unique(["k", "a"], []);
  }

  lemma NameDropsOut(key: string, other: string)
    requires ':' !in key && ':' !in other && key != other
    ensures Unique([key, other], []) == [key, other] && Unique([key, other], [key]) == [other]
  {
    var names := [key, other];
    FilteredOfClean(names);
    HeadExcluded(names, key);
    assert names[1..] == [other];
  }

  lemma TwoNames()
    ensures Unique(Unique(["a", "b"], []), []) == ["a", "b"] && Unique(["a", "b"], []) == ["a", "b"]
  {
    FilteredOfClean(["a", "b"]);
  }
}
