/**
 Sequences of protocol steps: the state they lead to, the run they make up, and
 the agreement between a flight that nothing interrupts and the manager's
 `IssueCertificate`.
 */
module CertFlights {
  import opened Prelude
  import opened CertOptions
  import opened Certificates
  import opened CertManager
  import opened CertProtocol

  /** The state after a sequence of actions, if all of them are possible. */
  function After(s: State, acts: seq<Action>): Option<State>
    decreases acts
  {
    if acts == [] then Some(s)
    else match Step(s, acts[0])
         case None => None
         case Some(s') => After(s', acts[1..])
  }

  lemma {:induction false} AfterCat(s: State, a: seq<Action>, b: seq<Action>)
    ensures After(s, a + b) == match After(s, a) case None => None case Some(s') => After(s', b)
    decreases a
  {
    if a == [] {
      assert a + b == b;
    } else {
      assert (a + b)[1..] == a[1..] + b;
      if Step(s, a[0]).Some? { AfterCat(Step(s, a[0]).value, a[1..], b); }
    }
  }

  lemma {:induction false} AfterOne(s: State, a: Action, rest: seq<Action>)
    ensures After(s, [a] + rest) == match Step(s, a) case None => None case Some(s') => After(s', rest)
  {
    assert ([a] + rest)[1..] == rest;
  }

  /** The states along a sequence of possible actions. */
  function Trace(s: State, acts: seq<Action>): (tr: seq<State>)
    requires After(s, acts).Some?
    ensures |tr| == |acts| + 1
    decreases acts
  {
    if acts == [] then [s] else [s] + Trace(Step(s, acts[0]).value, acts[1..])
  }

  lemma {:induction false} TraceSteps(s: State, acts: seq<Action>)
    requires After(s, acts).Some?
    ensures var tr := Trace(s, acts);
      && tr[0] == s && tr[|acts|] == After(s, acts).value
      && forall i :: 0 <= i < |acts| ==> Step(tr[i], acts[i]) == Some(tr[i + 1])
    decreases acts
  {
    if acts != [] {
      var s' := Step(s, acts[0]).value;
      var tr, rest := Trace(s, acts), Trace(s', acts[1..]);
      TraceSteps(s', acts[1..]);
      forall i | 0 <= i < |acts| ensures Step(tr[i], acts[i]) == Some(tr[i + 1]) {
        if i > 0 { assert tr[i] == rest[i - 1] && tr[i + 1] == rest[i] && acts[i] == acts[1..][i - 1]; }
      }
    }
  }

  /** Actions that are possible one after the other from the start make up a run. */
  lemma {:induction false} TraceIsRun(s: State, acts: seq<Action>)
    requires Initial(s) && After(s, acts).Some?
    ensures IsRun(Trace(s, acts), acts) && Trace(s, acts)[|acts|] == After(s, acts).value
  {
    TraceSteps(s, acts);
  }

  /** The state in the middle of a run is where its first part leads. */
  lemma {:induction false} TraceAt(s: State, a: seq<Action>, b: seq<Action>)
    requires After(s, a + b).Some?
    ensures After(s, a).Some? && Trace(s, a + b)[|a|] == After(s, a).value
    decreases a
  {
    if a == [] {
      assert a + b == b;
    } else {
      assert (a + b)[1..] == a[1..] + b;
      TraceAt(Step(s, a[0]).value, a[1..], b);
    }
  }

  // ---------------------------------------------------------------------
  // An uninterrupted flight is one `IssueCertificate` call

  /** The steps from the decision to issue up to the announcement. */
  function IssueSteps(key: string, prev: Option<Certificate>, at: Moment): seq<Action> {
    [ReadIssuers(key), Sign(key, at.fails, at.serial)]
    + (if at.fails then [] else [Store(key)] + if prev.Some? then [Announce(key)] else [])
  }

  /** The steps after the cache has been read. */
  function LoadedSteps(s: State, key: string, prev: Option<Certificate>, at: Moment): seq<Action>
    requires s.held.Ready()
  {
    var issue := IssueSteps(key, prev, at);
    if prev.None? then issue
    else if Expiring(prev.value, at.now, at.noise) then [CheckExpiry(key, at.noise)] + issue
    else [CheckExpiry(key, at.noise)]
         + ([CompareIssuers(key)] + (if Superseded(prev.value, s.held.Current()) then issue else []))
  }

  /** The steps a flight takes when nothing comes in between. */
  function Steps(s: State, key: string, ct: CertType, o: IssueOptions, at: Moment): seq<Action>
    requires s.held.Ready()
  {
    [BeginIssue(key, ct, o)] + ([Load(key)] + LoadedSteps(s, key, Cached(s.cache, key), at))
  }

  /** The state in which `IssueCertificate` would leave `s`. */
  function Issued(s: State, key: string, ct: CertType, o: IssueOptions, at: Moment): State
    requires s.held.Ready()
  {
    var out := IssueOutcome(s.cache, key, ct, o, s.held.Current(), s.validity, at);
    s.(cache := out.cache, log := s.log + out.announced)
  }

  /** `s` with an open flight for `key`. */
  function Flying(s: State, key: string, ct: CertType, o: IssueOptions, phase: Phase): State {
    s.(flights := s.flights[key := IssueFlight(ct, o, phase)])
  }

  lemma Advance(s: State, key: string, ct: CertType, o: IssueOptions, phase: Phase, next: Phase)
    ensures At(Flying(s, key, ct, o, phase), key, next) == Flying(s, key, ct, o, next)
  {
    assert s.flights[key := IssueFlight(ct, o, phase)][key := IssueFlight(ct, o, next)] ==
           s.flights[key := IssueFlight(ct, o, next)];
  }

  lemma Landing(s: State, key: string, ct: CertType, o: IssueOptions, phase: Phase)
    requires key !in s.flights && (s.pass.Some? ==> s.pass.value.waiting != Some(key))
    ensures Finish(Flying(s, key, ct, o, phase), key) == s
  {
    assert s.flights[key := IssueFlight(ct, o, phase)] - {key} == s.flights;
  }

  lemma IssueStepsLand(s: State, key: string, ct: CertType, o: IssueOptions, prev: Option<Certificate>, at: Moment)
    requires key !in s.flights && (s.pass.Some? ==> s.pass.value.waiting != Some(key))
    requires s.held.Ready() && at.now == s.now
    ensures var c := NewCertificate(key, ct, o, prev, s.held.Current(), s.validity, s.now, at.serial);
      After(Flying(s, key, ct, o, Reading(prev)), IssueSteps(key, prev, at)) ==
      Some(if at.fails then s
           else s.(cache := s.cache[key := c],
                   log := s.log + if prev.Some? then [Rotation(key, prev.value, c)] else []))
  {
    var pair := s.held.Current();
    var c := NewCertificate(key, ct, o, prev, pair, s.validity, s.now, at.serial);
    var tail := if at.fails then [] else [Store(key)] + if prev.Some? then [Announce(key)] else [];
    assert IssueSteps(key, prev, at) == [ReadIssuers(key)] + ([Sign(key, at.fails, at.serial)] + tail);
    AfterOne(Flying(s, key, ct, o, Reading(prev)), ReadIssuers(key), [Sign(key, at.fails, at.serial)] + tail);
    var signing := Flying(s, key, ct, o, Signing(prev, pair));
    Advance(s, key, ct, o, Reading(prev), Signing(prev, pair));
    assert Step(Flying(s, key, ct, o, Reading(prev)), ReadIssuers(key)) == Some(signing);
    SignLands(s, key, ct, o, prev, pair, c, at, tail);
  }

  lemma {:induction false} SignLands(s: State, key: string, ct: CertType, o: IssueOptions, prev: Option<Certificate>,
                                     pair: Pair,
                  c: Certificate, at: Moment, tail: seq<Action>)
    requires key !in s.flights && (s.pass.Some? ==> s.pass.value.waiting != Some(key))
    requires c == NewCertificate(key, ct, o, prev, pair, s.validity, s.now, at.serial)
    requires tail == if at.fails then [] else [Store(key)] + if prev.Some? then [Announce(key)] else []
    ensures After(Flying(s, key, ct, o, Signing(prev, pair)), [Sign(key, at.fails, at.serial)] + tail) ==
      Some(if at.fails then s
           else s.(cache := s.cache[key := c],
                   log := s.log + if prev.Some? then [Rotation(key, prev.value, c)] else []))
  {
    var signing := Flying(s, key, ct, o, Signing(prev, pair));
    AfterOne(signing, Sign(key, at.fails, at.serial), tail);
    Landing(s, key, ct, o, Signing(prev, pair));
    if !at.fails {
      var storing := Flying(s, key, ct, o, Storing(prev, c));
      Advance(s, key, ct, o, Signing(prev, pair), Storing(prev, c));
      assert Step(signing, Sign(key, at.fails, at.serial)) == Some(storing);
      StoreLands(s, key, ct, o, prev, c);
    }
  }

  lemma StoreLands(s: State, key: string, ct: CertType, o: IssueOptions, prev: Option<Certificate>, c: Certificate)
    requires key !in s.flights && (s.pass.Some? ==> s.pass.value.waiting != Some(key))
    ensures After(Flying(s, key, ct, o, Storing(prev, c)), [Store(key)] + if prev.Some? then [Announce(key)] else []) ==
      Some(s.(cache := s.cache[key := c], log := s.log + if prev.Some? then [Rotation(key, prev.value, c)] else []))
  {
    var storing := Flying(s, key, ct, o, Storing(prev, c));
    var stored := s.(cache := s.cache[key := c]);
    AfterOne(storing, Store(key), if prev.Some? then [Announce(key)] else []);
    if prev.Some? {
      var announcing := Flying(stored, key, ct, o, Announcing(prev.value, c));
      Advance(stored, key, ct, o, Storing(prev, c), Announcing(prev.value, c));
      assert Step(storing, Store(key)) == Some(announcing);
      AfterOne(announcing, Announce(key), []);
      assert [Announce(key)] + [] == [Announce(key)];
      Landing(stored.(log := s.log + [Rotation(key, prev.value, c)]), key, ct, o, Announcing(prev.value, c));
    } else {
      Landing(stored, key, ct, o, Storing(prev, c));
      assert s.log + [] == s.log;
    }
  }

  lemma {:induction false} CheckLands(s: State, key: string, ct: CertType, o: IssueOptions, c: Certificate,
                                      at: Moment, rest: seq<Action>)
    requires at.now == s.now && at.noise < NOISE_SECONDS
    ensures After(Flying(s, key, ct, o, Checking(c)), [CheckExpiry(key, at.noise)] + rest) ==
      After(Flying(s, key, ct, o, if Expiring(c, s.now, at.noise) then Reading(Some(c)) else Comparing(c)), rest)
  {
    Advance(s, key, ct, o, Checking(c), if Expiring(c, s.now, at.noise) then Reading(Some(c)) else Comparing(c));
    AfterOne(Flying(s, key, ct, o, Checking(c)), CheckExpiry(key, at.noise), rest);
  }

  /** The certificate is not expiring: the issuers are compared, and it is kept or replaced. */
  lemma ComparedFlight(s: State, key: string, ct: CertType, o: IssueOptions, c: Certificate, at: Moment)
    requires key !in s.flights && (s.pass.Some? ==> s.pass.value.waiting != Some(key)) && s.held.Ready()
    ensures Superseded(c, s.held.Current()) ==>
      After(Flying(s, key, ct, o, Comparing(c)), [CompareIssuers(key)] + IssueSteps(key, Some(c), at)) ==
      After(Flying(s, key, ct, o, Reading(Some(c))), IssueSteps(key, Some(c), at))
    ensures !Superseded(c, s.held.Current()) ==>
      After(Flying(s, key, ct, o, Comparing(c)), [CompareIssuers(key)] + []) == Some(s)
  {
    var comparing := Flying(s, key, ct, o, Comparing(c));
    AfterOne(comparing, CompareIssuers(key), IssueSteps(key, Some(c), at));
    AfterOne(comparing, CompareIssuers(key), []);
    Advance(s, key, ct, o, Comparing(c), Reading(Some(c)));
    Landing(s, key, ct, o, Comparing(c));
  }

  lemma CheckedFlight(s: State, key: string, ct: CertType, o: IssueOptions, at: Moment)
    requires key !in s.flights && (s.pass.Some? ==> s.pass.value.waiting != Some(key))
    requires s.held.Ready() && at.now == s.now && at.noise < NOISE_SECONDS && key in s.cache
    ensures After(Flying(s, key, ct, o, Checking(s.cache[key])), LoadedSteps(s, key, Some(s.cache[key]), at)) ==
      Some(Issued(s, key, ct, o, at))
  {
    var c := s.cache[key];
    var issue := IssueSteps(key, Some(c), at);
    IssueStepsLand(s, key, ct, o, Some(c), at);
    assert s.log + [] == s.log;
    if Expiring(c, at.now, at.noise) {
      CheckLands(s, key, ct, o, c, at, issue);
    } else {
      var last := if Superseded(c, s.held.Current()) then issue else [];
      CheckLands(s, key, ct, o, c, at, [CompareIssuers(key)] + last);
      ComparedFlight(s, key, ct, o, c, at);
    }
  }

  lemma MissedFlight(s: State, key: string, ct: CertType, o: IssueOptions, at: Moment)
    requires key !in s.flights && (s.pass.Some? ==> s.pass.value.waiting != Some(key))
    requires s.held.Ready() && at.now == s.now && key !in s.cache
    ensures After(Flying(s, key, ct, o, Reading(None)), LoadedSteps(s, key, None, at)) ==
      Some(Issued(s, key, ct, o, at))
  {
    IssueStepsLand(s, key, ct, o, None, at);
    assert s.log + [] == s.log;
  }

  /** Looking the cache up, and what comes after it. */
  lemma {:induction false} LoadLands(s: State, key: string, ct: CertType, o: IssueOptions, rest: seq<Action>)
    ensures After(Flying(s, key, ct, o, Looking), [Load(key)] + rest) ==
      After(Flying(s, key, ct, o, if key in s.cache then Checking(s.cache[key]) else Reading(None)), rest)
  {
    Advance(s, key, ct, o, Looking, if key in s.cache then Checking(s.cache[key]) else Reading(None));
    AfterOne(Flying(s, key, ct, o, Looking), Load(key), rest);
  }

  /** Left alone, a flight does exactly what the manager's `IssueCertificate` does in one go. */
  lemma {:induction false} UninterruptedFlightIsIssue(s: State, key: string, ct: CertType, o: IssueOptions, at: Moment)
    requires key !in s.flights && (s.pass.Some? ==> s.pass.value.waiting != Some(key))
    requires s.held.Ready() && at.now == s.now && at.noise < NOISE_SECONDS
    ensures After(s, Steps(s, key, ct, o, at)) == Some(Issued(s, key, ct, o, at))
  {
    var rest := LoadedSteps(s, key, Cached(s.cache, key), at);
    AfterOne(s, BeginIssue(key, ct, o), [Load(key)] + rest);
    LoadLands(s, key, ct, o, rest);
    if key in s.cache {
      CheckedFlight(s, key, ct, o, at);
    } else {
      MissedFlight(s, key, ct, o, at);
    }
  }

  // ---------------------------------------------------------------------
  // A start for example runs

  /** The issuer of the example runs, which echoes names. */
  const ROOT := Issuer("root", "td", [], [], Echo)
  const ROOT_EVENT := RootEvent(Added("root", "td", Active), Ok(IssuerClient([], [], Echo)))

  /** A manager that has held `ROOT` from the start, has issued one certificate under `k`, and has
      waited. */
  function Prepared(o: IssueOptions, elapsed: nat): State {
    var validity := Validity(40 * SECOND, 40 * SECOND);
    var c := NewCertificate("k", Service, o, None, Pair(ROOT, ROOT), validity, 0, 0);
    State(elapsed, Held(Some(ROOT), Some(ROOT)), map["k" := c], map[], [], None, 0, validity)
  }

  lemma PreparedIsReachable(o: IssueOptions, elapsed: nat) returns (s: State, acts: seq<Action>)
    ensures Initial(s) && After(s, acts) == Some(Prepared(o, elapsed))
    ensures forall a :: a in acts ==>
      (a.RootEvent? ==> a == ROOT_EVENT) && (a.BeginIssue? ==> a == BeginIssue("k", Service, o)) && !a.Release?
  {
    s := State(0, Held(None, None), map[], map[], [], None, 0, Validity(40 * SECOND, 40 * SECOND));
    var ready := s.(held := Held(Some(ROOT), Some(ROOT)));
    var steps := Steps(ready, "k", Service, o, AT_START);
    acts := [ROOT_EVENT] + steps + [Tick(elapsed)];
    RootArrives(s);
    AfterOne(s, ROOT_EVENT, steps);
    FirstIssuePrepares(ready, o);
    AfterCat(s, [ROOT_EVENT] + steps, [Tick(elapsed)]);
    TickPrepares(o, elapsed);
    StepsOfFlight(ready, "k", Service, o, AT_START);
  }

  const AT_START := Moment(0, 0, false, 0)

  lemma RootArrives(s: State)
    ensures Step(s, ROOT_EVENT) == Some(s.(held := Held(Some(ROOT), Some(ROOT))))
  {
  }

  lemma {:induction false} FirstIssuePrepares(ready: State, o: IssueOptions)
    requires ready == Prepared(o, 0).(cache := map[])
    ensures After(ready, Steps(ready, "k", Service, o, AT_START)) == Some(Prepared(o, 0))
  {
    UninterruptedFlightIsIssue(ready, "k", Service, o, AT_START);
    assert ready.log + [] == ready.log;
  }

  lemma TickPrepares(o: IssueOptions, elapsed: nat)
    ensures After(Prepared(o, 0), [Tick(elapsed)]) == Some(Prepared(o, elapsed))
  {
    AfterOne(Prepared(o, 0), Tick(elapsed), []);
    assert [Tick(elapsed)] + [] == [Tick(elapsed)];
  }

  lemma StepsOfFlight(s: State, key: string, ct: CertType, o: IssueOptions, at: Moment)
    requires s.held.Ready()
    ensures forall a :: a in Steps(s, key, ct, o, at) ==>
      !a.RootEvent? && !a.Release? && !a.Tick? && (a.BeginIssue? ==> a == BeginIssue(key, ct, o)) &&
      (a.Sign? ==> a.fails == at.fails)
  {
    StepsAfterLoad(s, key, Cached(s.cache, key), at);
  }

  lemma StepsAfterLoad(s: State, key: string, prev: Option<Certificate>, at: Moment)
    requires s.held.Ready()
    ensures forall a :: a in LoadedSteps(s, key, prev, at) ==>
      a.CheckExpiry? || a.CompareIssuers? || a.ReadIssuers? || a.Store? || a.Announce? ||
      (a.Sign? && a.fails == at.fails)
  {
    StepsOfIssue(key, prev, at);
  }

  lemma StepsOfIssue(key: string, prev: Option<Certificate>, at: Moment)
    ensures forall a :: a in IssueSteps(key, prev, at) ==>
      a.ReadIssuers? || a.Store? || a.Announce? || (a.Sign? && a.fails == at.fails)
  {
  }

  /** Where every root-certificate event is the one of `ROOT`, no other issuer ever signs. */
  lemma {:induction false} OnlyRootSigns(tr: seq<State>, acts: seq<Action>, i: nat)
    requires IsRun(tr, acts) && i < |tr| && forall a :: a in acts && a.RootEvent? ==> a == ROOT_EVENT
    ensures tr[i].held.signing.Some? ==> tr[i].held.signing.value == ROOT
  {
    if i > 0 {
      OnlyRootSigns(tr, acts, i - 1);
      assert Step(tr[i - 1], acts[i - 1]) == Some(tr[i]) && acts[i - 1] in acts;
    }
  }

  /** `s` with a pass in progress that began just now. */
  function Passing(s: State, snapshot: map<string, Certificate>, remaining: set<string>,
                   waiting: Option<string>): State {
    s.(pass := Some(PassRun(s.now, snapshot, remaining, waiting)))
  }

  lemma {:induction false} Follow(s: State, a: Action, s': State, rest: seq<Action>, end: State)
    requires Step(s, a) == Some(s') && After(s', rest) == Some(end)
    ensures After(s, [a] + rest) == Some(end)
  {
    AfterOne(s, a, rest);
  }
}
