/**
 The certificate manager as a concurrent protocol. Issue calls, rotation
 passes, root-certificate events, releases and the clock interleave at the
 points where the code takes or gives up a lock, reads the cache, or waits.
 Calls for one key share a flight (`singleflight.Group`), so at most one
 flight per key is open; a rotation pass that finds one open joins it.
 */
module CertProtocol {
  import opened Prelude
  import opened CertOptions
  import opened Certificates
  import opened CertManager

  /** Where an issue flight is. `prev` is what it found in the cache. */
  datatype Phase =
    | Looking
    | Checking(c: Certificate)
    | Comparing(c: Certificate)
    | Reading(prev: Option<Certificate>)
    | Signing(prev: Option<Certificate>, pair: Pair)
    | Storing(prev: Option<Certificate>, made: Certificate)
    | Announcing(before: Certificate, made: Certificate)

  /** An open flight: a cache read (`GetCertificate`) or an issue call. */
  datatype Flight = ReadFlight | IssueFlight(ct: CertType, o: IssueOptions, phase: Phase)

  /** A rotation pass in progress: its snapshot, the keys still to do, and the flight it waits for. */
  datatype PassRun = PassRun(begin: int, snapshot: map<string, Certificate>, remaining: set<string>,
                             waiting: Option<string>)

  /** `covered` is when the last completed pass began, or when the manager started. */
  datatype State = State(
    now: int,
    held: Held,
    cache: map<string, Certificate>,
    flights: map<string, Flight>,
    log: seq<Rotation>,
    pass: Option<PassRun>,
    covered: int,
    validity: Validity)

  datatype Action =
    | Tick(elapsed: nat)
    | RootEvent(event: MRCEvent, client: Result<IssuerClient>)
    | BeginRead(key: string)
    | EndRead(key: string)
    | BeginIssue(key: string, ct: CertType, o: IssueOptions)
    | Load(key: string)
    | CheckExpiry(key: string, noise: nat)
    | CompareIssuers(key: string)
    | ReadIssuers(key: string)
    | Sign(key: string, fails: bool, serial: nat)
    | Store(key: string)
    | Announce(key: string)
    | Release(key: string)
    | PassBegin
    | PassIssue(key: string)
    | PassJoin(key: string)
    | PassEnd

  function At(s: State, key: string, phase: Phase): State
    requires key in s.flights && s.flights[key].IssueFlight?
  {
    s.(flights := s.flights[key := s.flights[key].(phase := phase)])
  }

  /** Closes the flight of `key` and releases a pass that waits for it. */
  function Finish(s: State, key: string): State {
    var pass := if s.pass.Some? && s.pass.value.waiting == Some(key)
                then Some(s.pass.value.(remaining := s.pass.value.remaining - {key}, waiting := None))
                else s.pass;
    s.(flights := s.flights - {key}, pass := pass)
  }

  predicate Issuing(s: State, key: string) {
    key in s.flights && s.flights[key].IssueFlight?
  }

  /** The steps of issue flights. */
  predicate OfFlight(a: Action) {
    a.Load? || a.CheckExpiry? || a.CompareIssuers? || a.ReadIssuers? || a.Sign? || a.Store? || a.Announce?
  }

  /** One step of an open issue flight. */
  function FlightStep(s: State, a: Action): Option<State>
    requires a.Load? || a.CheckExpiry? || a.CompareIssuers? || a.ReadIssuers? || a.Sign? || a.Store? || a.Announce?
  {
    var key := a.key;
    if !Issuing(s, key) then None
    else
      var f := s.flights[key];
      match a
      case Load(_) =>
        if !f.phase.Looking? then None
        else Some(At(s, key, if key in s.cache then Checking(s.cache[key]) else Reading(None)))
      case CheckExpiry(_, noise) =>
        if !f.phase.Checking? || noise >= NOISE_SECONDS then None
        else if Expiring(f.phase.c, s.now, noise) then Some(At(s, key, Reading(Some(f.phase.c))))
        else Some(At(s, key, Comparing(f.phase.c)))
      case CompareIssuers(_) =>
        if !f.phase.Comparing? || !s.held.Ready() then None
        else if Superseded(f.phase.c, s.held.Current()) then Some(At(s, key, Reading(Some(f.phase.c))))
        else Some(Finish(s, key))
      case ReadIssuers(_) =>
        if !f.phase.Reading? || !s.held.Ready() then None
        else Some(At(s, key, Signing(f.phase.prev, s.held.Current())))
      case Sign(_, fails, serial) =>
        if !f.phase.Signing? then None
        else if fails then Some(Finish(s, key))
        else Some(At(s, key, Storing(f.phase.prev,
          NewCertificate(key, f.ct, f.o, f.phase.prev, f.phase.pair, s.validity, s.now, serial))))
      case Store(_) =>
        if !f.phase.Storing? then None
        else
          var s' := s.(cache := s.cache[key := f.phase.made]);
          if f.phase.prev.Some? then Some(At(s', key, Announcing(f.phase.prev.value, f.phase.made)))
          else Some(Finish(s', key))
      case Announce(_) =>
        if !f.phase.Announcing? then None
        else Some(Finish(s.(log := s.log + [Rotation(key, f.phase.before, f.phase.made)]), key))
  }

  /** One step of the rotation pass. */
  function PassStep(s: State, a: Action): Option<State>
    requires a.PassBegin? || a.PassIssue? || a.PassJoin? || a.PassEnd?
  {
    match a
    case PassBegin =>
      if s.pass.Some? || !s.held.Ready() then None
      else Some(s.(pass := Some(PassRun(s.now, s.cache, s.cache.Keys, None))))
    case PassEnd =>
      if s.pass.None? || s.pass.value.remaining != {} then None
      else Some(s.(pass := None, covered := s.pass.value.begin))
    case PassIssue(key) =>
      if s.pass.None? || s.pass.value.waiting.Some? || key !in s.pass.value.remaining || key in s.flights
         || key !in s.pass.value.snapshot then None
      else
        var c := s.pass.value.snapshot[key];
        Some(s.(flights := s.flights[key := IssueFlight(c.certType, PassOptions(key, c), Looking)],
                pass := Some(s.pass.value.(waiting := Some(key)))))
    case PassJoin(key) =>
      if s.pass.None? || s.pass.value.waiting.Some? || key !in s.pass.value.remaining || key !in s.flights then None
      else Some(s.(pass := Some(s.pass.value.(waiting := Some(key)))))
  }

  /** The state after `a`, or nothing when `a` is not possible. */
  function Step(s: State, a: Action): Option<State> {
    match a
    case Tick(elapsed) => Some(s.(now := s.now + elapsed))
    case RootEvent(event, client) => Some(s.(held := AfterEvent(s.held, event, client)))
    case BeginRead(key) =>
      if key in s.flights || !s.held.Ready() then None else Some(s.(flights := s.flights[key := ReadFlight]))
    case EndRead(key) =>
      if key !in s.flights || !s.flights[key].ReadFlight? then None else Some(Finish(s, key))
    case BeginIssue(key, ct, o) =>
      if key in s.flights || !s.held.Ready() then None
      else Some(s.(flights := s.flights[key := IssueFlight(ct, o, Looking)]))
    case Release(key) => Some(s.(cache := s.cache - {key}))
    case PassBegin => PassStep(s, a)
    case PassIssue(_) => PassStep(s, a)
    case PassJoin(_) => PassStep(s, a)
    case PassEnd => PassStep(s, a)
    case _ => FlightStep(s, a)
  }

  ghost predicate Initial(s: State) {
    && s.held == Held(None, None) && s.cache == map[] && s.flights == map[] && s.log == []
    && s.pass == None && s.covered == s.now
  }

  /** A run from the start of the manager: a trace of states and the actions between them. */
  ghost predicate IsRun(tr: seq<State>, acts: seq<Action>) {
    && |tr| == |acts| + 1
    && Initial(tr[0])
    && forall i :: 0 <= i < |acts| ==> Step(tr[i], acts[i]) == Some(tr[i + 1])
  }

  // ---------------------------------------------------------------------
  // Issuers: never torn, never lost

  /** Once both issuers are known, neither is forgotten. */
  lemma {:induction false} IssuersStay(tr: seq<State>, acts: seq<Action>, i: nat, j: nat)
    requires IsRun(tr, acts) && i <= j < |tr| && tr[i].held.Ready()
    ensures tr[j].held.Ready()
  {
    if i < j {
      IssuersStay(tr, acts, i, j - 1);
      assert Step(tr[j - 1], acts[j - 1]) == Some(tr[j]);
    }
  }

  /** An event that brings a new signing issuer. */
  predicate NewSigning(a: Action) {
    a.RootEvent? && a.event.Added? && a.client.Ok? &&
    (a.event.state == Active || a.event.state == Inactive || a.event.state == IssuingRollback ||
     a.event.state == IssuingRollout)
  }

  /** An event that brings a new validating issuer. */
  predicate NewValidating(a: Action) {
    a.RootEvent? && a.event.Added? && a.client.Ok? &&
    (a.event.state == Active || a.event.state == Inactive || a.event.state == ValidatingRollback ||
     a.event.state == ValidatingRollout)
  }

  /** The issuer of an event: the name and trust domain of the root certificate, and its client. */
  function Brought(a: Action): Issuer
    requires a.RootEvent? && a.event.Added? && a.client.Ok?
  {
    Issuer(a.event.name, a.event.trustDomain, a.client.value.ca, a.client.value.issuingCA, a.client.value.policy)
  }

  lemma IssuersStep(s: State, a: Action, s': State)
    requires Step(s, a) == Some(s')
    ensures s'.held.signing == if NewSigning(a) then Some(Brought(a)) else s.held.signing
    ensures s'.held.validating == if NewValidating(a) then Some(Brought(a)) else s.held.validating
  {
  }

  lemma {:induction false} SigningStays(tr: seq<State>, acts: seq<Action>, f: nat, i: nat)
    requires IsRun(tr, acts) && f <= i < |tr| && forall l :: f <= l < i ==> !NewSigning(acts[l])
    ensures tr[i].held.signing == tr[f].held.signing
    decreases i
  {
    if f < i {
      SigningStays(tr, acts, f, i - 1);
      assert Step(tr[i - 1], acts[i - 1]) == Some(tr[i]);
      IssuersStep(tr[i - 1], acts[i - 1], tr[i]);
    }
  }

  lemma {:induction false} ValidatingStays(tr: seq<State>, acts: seq<Action>, f: nat, i: nat)
    requires IsRun(tr, acts) && f <= i < |tr| && forall l :: f <= l < i ==> !NewValidating(acts[l])
    ensures tr[i].held.validating == tr[f].held.validating
    decreases i
  {
    if f < i {
      ValidatingStays(tr, acts, f, i - 1);
      assert Step(tr[i - 1], acts[i - 1]) == Some(tr[i]);
      IssuersStep(tr[i - 1], acts[i - 1], tr[i]);
    }
  }

  /** In every run: the signing issuer is the one brought by the last event in state active, inactive,
      issuing rollback or issuing rollout, and it stays as it was if there is none since `f`. */
  lemma LastEventSigns(tr: seq<State>, acts: seq<Action>, f: nat, i: nat)
    requires IsRun(tr, acts) && f <= i < |tr|
    ensures (forall l :: f <= l < i ==> !NewSigning(acts[l])) ==> tr[i].held.signing == tr[f].held.signing
    ensures forall j :: f <= j < i && NewSigning(acts[j]) && (forall l :: j < l < i ==> !NewSigning(acts[l])) ==>
      tr[i].held.signing == Some(Brought(acts[j]))
  {
    if forall l :: f <= l < i ==> !NewSigning(acts[l]) { SigningStays(tr, acts, f, i); }
    forall j | f <= j < i && NewSigning(acts[j]) && (forall l :: j < l < i ==> !NewSigning(acts[l]))
      ensures tr[i].held.signing == Some(Brought(acts[j]))
    {
      IssuersStep(tr[j], acts[j], tr[j + 1]);
      SigningStays(tr, acts, j + 1, i);
    }
  }

  /** Likewise the validating issuer, with the states active, inactive, validating rollback and
      validating rollout. */
  lemma LastEventValidates(tr: seq<State>, acts: seq<Action>, f: nat, i: nat)
    requires IsRun(tr, acts) && f <= i < |tr|
    ensures (forall l :: f <= l < i ==> !NewValidating(acts[l])) ==> tr[i].held.validating == tr[f].held.validating
    ensures forall j :: f <= j < i && NewValidating(acts[j]) && (forall l :: j < l < i ==> !NewValidating(acts[l])) ==>
      tr[i].held.validating == Some(Brought(acts[j]))
  {
    if forall l :: f <= l < i ==> !NewValidating(acts[l]) { ValidatingStays(tr, acts, f, i); }
    forall j | f <= j < i && NewValidating(acts[j]) && (forall l :: j < l < i ==> !NewValidating(acts[l]))
      ensures tr[i].held.validating == Some(Brought(acts[j]))
    {
      IssuersStep(tr[j], acts[j], tr[j + 1]);
      ValidatingStays(tr, acts, j + 1, i);
    }
  }

  /** The manager held `pair` at one instant no later than `i`. */
  ghost predicate HeldBy(tr: seq<State>, i: nat, pair: Pair)
    requires i < |tr|
  {
    exists j :: 0 <= j <= i && tr[j].held == Held(Some(pair.signing), Some(pair.validating))
  }

  /** `c` bears the names and the trust context of exactly this pair. */
  predicate Stamped(c: Certificate, pair: Pair) {
    && c.signingID == pair.signing.id && c.validatingID == pair.validating.id
    && c.issuingCA == pair.signing.issuingCA
    && c.trustedCAs == pair.signing.issuingCA +
         (if pair.signing.id != pair.validating.id then pair.validating.ca else [])
  }

  ghost predicate StampedByHeld(tr: seq<State>, i: nat, c: Certificate)
    requires i < |tr|
  {
    exists pair :: HeldBy(tr, i, pair) && Stamped(c, pair)
  }

  ghost predicate FlightUntorn(tr: seq<State>, i: nat, phase: Phase)
    requires i < |tr|
  {
    match phase
    case Signing(_, pair) => HeldBy(tr, i, pair)
    case Storing(_, made) => StampedByHeld(tr, i, made)
    case _ => true
  }

  ghost predicate Untorn(tr: seq<State>, i: nat)
    requires i < |tr|
  {
    && (forall key :: key in tr[i].cache ==> StampedByHeld(tr, i, tr[i].cache[key]))
    && (forall key :: Issuing(tr[i], key) ==> FlightUntorn(tr, i, tr[i].flights[key].phase))
  }

  lemma HeldByGrows(tr: seq<State>, i: nat)
    requires i + 1 < |tr|
    ensures forall pair :: HeldBy(tr, i, pair) ==> HeldBy(tr, i + 1, pair)
    ensures forall c :: StampedByHeld(tr, i, c) ==> StampedByHeld(tr, i + 1, c)
  {
  }

  /** Only a store by its own flight, or a release, changes a cache entry. */
  lemma CacheFrame(s: State, a: Action, s': State, key: string)
    requires Step(s, a) == Some(s') && key in s'.cache
    ensures if a == Store(key)
      then Issuing(s, key) && s.flights[key].phase.Storing? && s'.cache[key] == s.flights[key].phase.made
      else key in s.cache && s'.cache[key] == s.cache[key]
  {
  }

  /** A flight changes phase only by its own steps. */
  lemma FlightFrame(s: State, a: Action, s': State, key: string)
    requires Step(s, a) == Some(s') && Issuing(s', key)
    requires s'.flights[key].phase.Signing? || s'.flights[key].phase.Storing?
    ensures Issuing(s, key)
    ensures
      var was, phase := s.flights[key].phase, s'.flights[key].phase;
      if a == ReadIssuers(key) then s.held.Ready() && phase == Signing(was.prev, s.held.Current())
      else if a.Sign? && a.key == key then
        was.Signing? && phase == Storing(was.prev,
          NewCertificate(key, s.flights[key].ct, s.flights[key].o, was.prev, was.pair, s.validity, s.now, a.serial))
      else phase == was
  {
  }

  // ---------------------------------------------------------------------
  // Where certificates come from

  /** A caller opened the flight with these options, or a pass without a duration. */
  ghost predicate Asked(acts: seq<Action>, i: nat, key: string, f: Flight)
    requires i <= |acts| && f.IssueFlight?
  {
    exists b :: 0 <= b < i && (acts[b] == BeginIssue(key, f.ct, f.o) ||
      (acts[b] == PassIssue(key) && f.o.validity.None?))
  }

  lemma OpenedStep(s: State, a: Action, s': State, key: string)
    requires Step(s, a) == Some(s') && Issuing(s', key)
    ensures var f := s'.flights[key];
      || a == BeginIssue(key, f.ct, f.o)
      || (a == PassIssue(key) && f.o.validity.None?)
      || (Issuing(s, key) && s.flights[key].ct == f.ct && s.flights[key].o == f.o)
  {
  }

  lemma {:induction false} FlightsAreAsked(tr: seq<State>, acts: seq<Action>, i: nat, key: string)
    requires IsRun(tr, acts) && i < |tr| && Issuing(tr[i], key)
    ensures Asked(acts, i, key, tr[i].flights[key])
  {
    assert i > 0;
    assert Step(tr[i - 1], acts[i - 1]) == Some(tr[i]);
    OpenedStep(tr[i - 1], acts[i - 1], tr[i], key);
    var f := tr[i].flights[key];
    if !(acts[i - 1] == BeginIssue(key, f.ct, f.o) || (acts[i - 1] == PassIssue(key) && f.o.validity.None?)) {
      FlightsAreAsked(tr, acts, i - 1, key);
    }
  }

  /** The step at `j` signed `c` for `key`, by a flight that was asked for, with the name, type and
      lifetime that go with it. */
  ghost predicate SignedAt(tr: seq<State>, acts: seq<Action>, j: nat, key: string, c: Certificate)
    requires |tr| == |acts| + 1
  {
    && j < |acts| && acts[j].Sign? && acts[j].key == key && !acts[j].fails
    && Issuing(tr[j], key) && tr[j].flights[key].phase.Signing?
    && Asked(acts, j, key, tr[j].flights[key])
    && var f, validity := tr[j].flights[key], tr[0].validity;
       && c.certType == f.ct && c.serial == acts[j].serial
       && c.cn == (if f.o.fullCN then key else key + "." + f.phase.pair.signing.trustDomain)
       && c.expiration - tr[j].now ==
            if f.o.validity.Some? then f.o.validity.value
            else if f.ct == Service then validity.service
            else if f.ct == IngressGateway then validity.ingress
            else 10 * 365 * 24 * 3600 * 1_000_000_000
  }

  ghost predicate WasSigned(tr: seq<State>, acts: seq<Action>, i: nat, key: string, c: Certificate)
    requires |tr| == |acts| + 1
  {
    exists j: nat :: j < i && SignedAt(tr, acts, j, key, c)
  }

  lemma {:induction false} ValidityStays(tr: seq<State>, acts: seq<Action>, i: nat)
    requires IsRun(tr, acts) && i < |tr|
    ensures tr[i].validity == tr[0].validity
  {
    if i > 0 {
      ValidityStays(tr, acts, i - 1);
      assert Step(tr[i - 1], acts[i - 1]) == Some(tr[i]);
    }
  }

  lemma SignStepSigns(tr: seq<State>, acts: seq<Action>, j: nat, key: string)
    requires IsRun(tr, acts) && j < |acts| && acts[j].Sign? && acts[j].key == key
    requires Issuing(tr[j + 1], key) && tr[j + 1].flights[key].phase.Storing?
    ensures SignedAt(tr, acts, j, key, tr[j + 1].flights[key].phase.made)
  {
    assert Step(tr[j], acts[j]) == Some(tr[j + 1]);
    FlightFrame(tr[j], acts[j], tr[j + 1], key);
    FlightsAreAsked(tr, acts, j, key);
    ValidityStays(tr, acts, j);
    var f := tr[j].flights[key];
    NameAndLifetime(key, f.ct, f.o, f.phase.prev, f.phase.pair, tr[j].validity, tr[j].now, acts[j].serial);
  }

  lemma {:induction false} StoringWasSigned(tr: seq<State>, acts: seq<Action>, i: nat, key: string)
    requires IsRun(tr, acts) && i < |tr| && Issuing(tr[i], key) && tr[i].flights[key].phase.Storing?
    ensures WasSigned(tr, acts, i, key, tr[i].flights[key].phase.made)
  {
    assert i > 0;
    assert Step(tr[i - 1], acts[i - 1]) == Some(tr[i]);
    FlightFrame(tr[i - 1], acts[i - 1], tr[i], key);
    if acts[i - 1].Sign? && acts[i - 1].key == key {
      SignStepSigns(tr, acts, i - 1, key);
    } else {
      StoringWasSigned(tr, acts, i - 1, key);
    }
  }

  /** In every run each cached certificate was signed by some step, for a flight somebody asked for: it
      lasts, from that moment, the duration the caller gave, else the period of its type. */
  lemma {:induction false} EveryCertificateWasSigned(tr: seq<State>, acts: seq<Action>, i: nat, key: string)
    requires IsRun(tr, acts) && i < |tr| && key in tr[i].cache
    ensures WasSigned(tr, acts, i, key, tr[i].cache[key])
  {
    assert i > 0;
    assert Step(tr[i - 1], acts[i - 1]) == Some(tr[i]);
    CacheFrame(tr[i - 1], acts[i - 1], tr[i], key);
    if acts[i - 1] == Store(key) {
      StoringWasSigned(tr, acts, i - 1, key);
    } else {
      EveryCertificateWasSigned(tr, acts, i - 1, key);
    }
  }

  // ---------------------------------------------------------------------
  // Nothing is torn

  lemma UntornStep(tr: seq<State>, acts: seq<Action>, i: nat)
    requires IsRun(tr, acts) && i < |acts| && Untorn(tr, i)
    ensures Untorn(tr, i + 1)
  {
    var s, a, s' := tr[i], acts[i], tr[i + 1];
    assert Step(s, a) == Some(s');
    HeldByGrows(tr, i);
    forall key | key in s'.cache ensures StampedByHeld(tr, i + 1, s'.cache[key]) {
      CacheFrame(s, a, s', key);
      if a == Store(key) { assert FlightUntorn(tr, i, s.flights[key].phase); }
    }
    forall key | Issuing(s', key) ensures FlightUntorn(tr, i + 1, s'.flights[key].phase) {
      FlightUntornStep(tr, acts, i, key);
    }
  }

  lemma FlightUntornStep(tr: seq<State>, acts: seq<Action>, i: nat, key: string)
    requires IsRun(tr, acts) && i < |acts| && Untorn(tr, i) && Issuing(tr[i + 1], key)
    ensures FlightUntorn(tr, i + 1, tr[i + 1].flights[key].phase)
  {
    var s, a, s' := tr[i], acts[i], tr[i + 1];
    assert Step(s, a) == Some(s');
    HeldByGrows(tr, i);
    var phase := s'.flights[key].phase;
    if phase.Signing? || phase.Storing? {
      FlightFrame(s, a, s', key);
      assert FlightUntorn(tr, i, s.flights[key].phase);
      if a == ReadIssuers(key) {
        assert tr[i].held == Held(Some(phase.pair.signing), Some(phase.pair.validating));
      } else if a.Sign? && a.key == key {
        var f := s.flights[key];
        TrustContext(key, f.ct, f.o, f.phase.prev, f.phase.pair, s.validity, s.now, a.serial);
        assert HeldBy(tr, i, f.phase.pair) && Stamped(phase.made, f.phase.pair);
      }
    }
  }

  /** Under every interleaving, the issuer pair on a cached certificate, and its trust context,
      are those of one pair the manager held at a single instant. */
  lemma {:induction false} NoTornPair(tr: seq<State>, acts: seq<Action>, i: nat)
    requires IsRun(tr, acts) && i < |tr|
    ensures Untorn(tr, i)
  {
    if i > 0 {
      NoTornPair(tr, acts, i - 1);
      UntornStep(tr, acts, i - 1);
    }
  }

  // ---------------------------------------------------------------------
  // What a flight remembers

  /** The cached certificate a flight has found, if any, and has not yet replaced. */
  function Remembered(phase: Phase): Option<Certificate> {
    match phase
    case Looking => None
    case Checking(c) => Some(c)
    case Comparing(c) => Some(c)
    case Reading(prev) => prev
    case Signing(prev, _) => prev
    case Storing(prev, _) => prev
    case Announcing(_, _) => None
  }

  /** What a flight remembers of its key agrees with the cache, unless the entry was released. */
  ghost predicate Aligned(s: State, key: string) {
    Issuing(s, key) && key in s.cache ==>
      match s.flights[key].phase
      case Looking => true
      case Announcing(_, made) => s.cache[key] == made
      case _ => Remembered(s.flights[key].phase) == Some(s.cache[key])
  }

  lemma AlignedOwnFlight(s: State, a: Action, s': State, key: string)
    requires OfFlight(a) && a.key == key && Step(s, a) == Some(s') && Aligned(s, key)
    ensures Aligned(s', key)
  {
  }

  lemma AlignedOtherFlight(s: State, a: Action, s': State, key: string)
    requires OfFlight(a) && a.key != key && Step(s, a) == Some(s') && Aligned(s, key)
    ensures Aligned(s', key)
  {
  }

  lemma AlignedStep(s: State, a: Action, s': State, key: string)
    requires Step(s, a) == Some(s') && Aligned(s, key)
    ensures Aligned(s', key)
  {
    if OfFlight(a) {
      if a.key == key { AlignedOwnFlight(s, a, s', key); } else { AlignedOtherFlight(s, a, s', key); }
    }
  }

  lemma {:induction false} AlwaysAligned(tr: seq<State>, acts: seq<Action>, i: nat, key: string)
    requires IsRun(tr, acts) && i < |tr|
    ensures Aligned(tr[i], key)
  {
    if i > 0 {
      AlwaysAligned(tr, acts, i - 1, key);
      AlignedStep(tr[i - 1], acts[i - 1], tr[i], key);
    }
  }

  // ---------------------------------------------------------------------
  // Announcements form a chain

  /** The announcements lead from `first` to `last`, each picking up where the one before ended. */
  ghost predicate Chain(first: Certificate, links: seq<Rotation>, last: Certificate) {
    if links == [] then first == last
    else
      var n := |links| - 1;
      Chain(first, links[..n], links[n].before) && links[n].after == last
  }

  /** What a flight remembers agrees with the cache; only this flight writes its key. */
  ghost predicate InStep(s: State, key: string) {
    Issuing(s, key) ==>
      match s.flights[key].phase
      case Looking => true
      case Checking(c) => Cached(s.cache, key) == Some(c)
      case Comparing(c) => Cached(s.cache, key) == Some(c)
      case Reading(prev) => Cached(s.cache, key) == prev
      case Signing(prev, _) => Cached(s.cache, key) == prev
      case Storing(prev, _) => Cached(s.cache, key) == prev
      case Announcing(_, made) => Cached(s.cache, key) == Some(made)
  }

  /** The certificate up to which the announcements have got. */
  function AnnouncedUpTo(s: State, key: string): (r: Option<Certificate>)
    ensures key in s.cache ==> r.Some?
  {
    if Issuing(s, key) && s.flights[key].phase.Announcing? then Some(s.flights[key].phase.before)
    else Cached(s.cache, key)
  }

  ghost predicate NeverReleased(acts: seq<Action>, i: nat, key: string)
    requires i <= |acts|
  {
    forall j :: 0 <= j < i ==> acts[j] != Release(key)
  }

  lemma InStepOwnFlight(s: State, a: Action, s': State, key: string)
    requires OfFlight(a) && a.key == key && Step(s, a) == Some(s') && InStep(s, key)
    ensures InStep(s', key)
  {
  }

  lemma InStepOtherFlight(s: State, a: Action, s': State, key: string)
    requires OfFlight(a) && a.key != key && Step(s, a) == Some(s') && InStep(s, key)
    ensures InStep(s', key)
  {
  }

  lemma InStepHolds(s: State, a: Action, s': State, key: string)
    requires Step(s, a) == Some(s') && InStep(s, key) && a != Release(key)
    ensures InStep(s', key)
  {
    if OfFlight(a) {
      if a.key == key { InStepOwnFlight(s, a, s', key); } else { InStepOtherFlight(s, a, s', key); }
    }
  }

  lemma {:induction false} LogStep(s: State, a: Action, s': State, key: string)
    requires Step(s, a) == Some(s')
    ensures Of(s'.log, key) == Of(s.log, key) +
      (if a == Announce(key) then [Rotation(key, s.flights[key].phase.before, s.flights[key].phase.made)] else [])
  {
    if a.Announce? {
      var f := s.flights[a.key];
      OfCat(s.log, [Rotation(a.key, f.phase.before, f.phase.made)], key);
    }
  }

  /** Announcing moves the chain to the new certificate; nothing else moves it. */
  lemma AnnouncedStep(s: State, a: Action, s': State, key: string)
    requires Step(s, a) == Some(s') && InStep(s, key) && a != Release(key) && key in s.cache
    ensures key in s'.cache
    ensures AnnouncedUpTo(s', key) ==
      if a == Announce(key) then Some(s.flights[key].phase.made) else AnnouncedUpTo(s, key)
    ensures a == Announce(key) ==> AnnouncedUpTo(s, key) == Some(s.flights[key].phase.before)
  {
  }

  lemma {:induction false} ChainStep(s: State, a: Action, s': State, key: string, first: Certificate)
    requires Step(s, a) == Some(s') && InStep(s, key) && a != Release(key) && key in s.cache
    requires Chain(first, Of(s.log, key), AnnouncedUpTo(s, key).value)
    ensures key in s'.cache && Chain(first, Of(s'.log, key), AnnouncedUpTo(s', key).value)
  {
    AnnouncedStep(s, a, s', key);
    LogStep(s, a, s', key);
    var links, links' := Of(s.log, key), Of(s'.log, key);
    if a == Announce(key) {
      assert links'[..|links|] == links;
    } else {
      assert links' == links;
    }
  }

  /** Before the key is first stored nothing is announced about it. */
  lemma {:induction false} NothingAnnouncedBeforeFirstIssue(tr: seq<State>, acts: seq<Action>, i: nat, key: string)
    requires IsRun(tr, acts) && i < |tr| && NeverReleased(acts, i, key)
    ensures InStep(tr[i], key)
    ensures key !in tr[i].cache ==> Of(tr[i].log, key) == []
    ensures i > 0 && key in tr[i - 1].cache ==> key in tr[i].cache
  {
    if i > 0 {
      NothingAnnouncedBeforeFirstIssue(tr, acts, i - 1, key);
      assert Step(tr[i - 1], acts[i - 1]) == Some(tr[i]);
      InStepHolds(tr[i - 1], acts[i - 1], tr[i], key);
      LogStep(tr[i - 1], acts[i - 1], tr[i], key);
    }
  }

  /** `f` is where `key` enters the cache. */
  ghost predicate FirstIssued(tr: seq<State>, f: nat, key: string) {
    0 < f < |tr| && key in tr[f].cache && key !in tr[f - 1].cache
  }

  /** With no release of the key, its announcements lead without a gap from the certificate first
      issued to the one now cached (or being replaced by a flight about to announce), and the
      first issue itself announces nothing. */
  lemma {:induction false} AnnouncementsFormChain(tr: seq<State>, acts: seq<Action>, f: nat, i: nat, key: string)
    requires IsRun(tr, acts) && FirstIssued(tr, f, key) && f <= i < |tr| && NeverReleased(acts, i, key)
    ensures key in tr[i].cache
    ensures Chain(tr[f].cache[key], Of(tr[i].log, key), AnnouncedUpTo(tr[i], key).value)
    ensures Of(tr[f].log, key) == []
    decreases i
  {
    if i == f {
      NothingAnnouncedBeforeFirstIssue(tr, acts, f - 1, key);
      assert Step(tr[f - 1], acts[f - 1]) == Some(tr[f]);
      FirstStore(tr[f - 1], acts[f - 1], tr[f], key);
    } else {
      AnnouncementsFormChain(tr, acts, f, i - 1, key);
      NothingAnnouncedBeforeFirstIssue(tr, acts, i - 1, key);
      assert Step(tr[i - 1], acts[i - 1]) == Some(tr[i]);
      ChainStep(tr[i - 1], acts[i - 1], tr[i], key, tr[f].cache[key]);
    }
  }

  /** A first issue stores and is done: it has nothing to announce. */
  lemma {:induction false} FirstStore(s: State, a: Action, s': State, key: string)
    requires Step(s, a) == Some(s') && InStep(s, key) && key !in s.cache && key in s'.cache && Of(s.log, key) == []
    ensures AnnouncedUpTo(s', key) == Some(s'.cache[key]) && Of(s'.log, key) == []
  {
    CacheFrame(s, a, s', key);
  }
}
