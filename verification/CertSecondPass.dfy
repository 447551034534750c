/**
 What is left to do after a rotation pass, while other calls go on: with clock
 and issuers as they were when it began, only certificates in the window that
 the random noise opens are replaced.
 */
module CertSecondPass {
  import opened Prelude
  import opened CertOptions
  import opened Certificates
  import opened CertManager
  import opened CertProtocol
  import opened CertFreshness
  import opened CertConvergence

  /** Under the current issuers, and with more than thirty seconds left, less what a flight may take. */
  predicate Good(c: Certificate, s: State, limit: nat)
    requires s.held.Ready()
  {
    !Superseded(c, s.held.Current()) && LastsPast(c, s.now - limit)
  }

  /** With so little left that a check may replace it, but more than thirty seconds less `limit`. */
  predicate Noisy(c: Certificate, now: int, limit: nat) {
    RENEW_BEFORE - limit < c.expiration - now <= RENEW_BEFORE + 4 * SECOND
  }

  ghost predicate QuietFlight(s: State, key: string, limit: nat)
    requires s.held.Ready() && Issuing(s, key)
  {
    var f := s.flights[key];
    && (f.o.validity.Some? ==> f.o.validity.value > RENEW_BEFORE)
    && match f.phase
       case Looking => true
       case Checking(c) => Good(c, s, limit)
       case Comparing(c) => Good(c, s, limit)
       case Reading(prev) => prev.Some? ==> Noisy(prev.value, s.now, limit)
       case Signing(prev, _) => (prev.Some? ==> Noisy(prev.value, s.now, limit)) && !StaleFlight(s, key)
       case Storing(prev, made) => (prev.Some? ==> Noisy(prev.value, s.now, limit)) && Good(made, s, limit)
       case Announcing(_, made) => Good(made, s, limit)
  }

  /** The key needs no attention: its entry is good, and a flight replaces it only in the window. */
  ghost predicate Quiet(s: State, key: string, limit: nat) {
    && s.held.Ready()
    && (key in s.cache ==> Good(s.cache[key], s, limit))
    && (Issuing(s, key) ==> QuietFlight(s, key, limit))
  }

  lemma SignedIsGood(s: State, a: Action, s': State, key: string, limit: nat)
    requires a.Sign? && a.key == key && Step(s, a) == Some(s') && LongEnough(s.validity) && Quiet(s, key, limit)
    ensures Quiet(s', key, limit)
  {
    var f := s.flights[key];
    MadeLastsPast(key, f.ct, f.o, f.phase.prev, f.phase.pair, s.validity, s.now, a.serial);
  }

  lemma OwnFlightQuiet(s: State, a: Action, s': State, key: string, limit: nat)
    requires OfFlight(a) && a.key == key && !a.Sign? && Step(s, a) == Some(s') && Quiet(s, key, limit)
    ensures Quiet(s', key, limit)
  {
  }

  /** Nothing of `key` changes but that its entry goes, or its flight goes or begins. */
  predicate Restarted(s: State, s': State, key: string) {
    && s'.now == s.now && s'.held == s.held
    && (key in s'.cache ==> key in s.cache && s'.cache[key] == s.cache[key])
    && (Issuing(s', key) ==>
          || (key in s.flights && s'.flights[key] == s.flights[key])
          || (s'.flights[key].phase == Looking &&
              (s'.flights[key].o.validity.Some? ==> s'.flights[key].o.validity.value > RENEW_BEFORE)))
  }

  lemma OtherFlightRestarts(s: State, a: Action, s': State, key: string)
    requires OfFlight(a) && a.key != key && Step(s, a) == Some(s')
    ensures Restarted(s, s', key)
  {
  }

  lemma OtherStepRestarts(s: State, a: Action, s': State, key: string)
    requires !OfFlight(a) && Step(s, a) == Some(s') && Prompt(a) && s'.now == s.now && s'.held == s.held
    ensures Restarted(s, s', key)
  {
  }

  lemma RestartedIsQuiet(s: State, s': State, key: string, limit: nat)
    requires Restarted(s, s', key) && Quiet(s, key, limit)
    ensures Quiet(s', key, limit)
  {
  }

  lemma QuietStep(s: State, a: Action, s': State, key: string, limit: nat)
    requires Step(s, a) == Some(s') && Prompt(a) && LongEnough(s.validity) && Quiet(s, key, limit)
    requires s'.now == s.now && s'.held == s.held
    ensures Quiet(s', key, limit)
  {
    if !OfFlight(a) {
      OtherStepRestarts(s, a, s', key);
      RestartedIsQuiet(s, s', key, limit);
    } else if a.key != key {
      OtherFlightRestarts(s, a, s', key);
      RestartedIsQuiet(s, s', key, limit);
    } else if a.Sign? {
      SignedIsGood(s, a, s', key, limit);
    } else {
      OwnFlightQuiet(s, a, s', key, limit);
    }
  }

  // ---------------------------------------------------------------------
  // From the visit of a pass on

  /** Clock and issuers are the same from `b` to `i`. */
  ghost predicate Still(tr: seq<State>, b: nat, i: nat)
    requires b <= i < |tr|
  {
    forall j :: b <= j <= i ==> tr[j].now == tr[b].now && tr[j].held == tr[b].held
  }

  /** A steady pass that joins, for `key`, only issue flights that are not stale. */
  ghost predicate Visits(tr: seq<State>, acts: seq<Action>, b: nat, e: nat, key: string) {
    && SteadyPass(tr, acts, b, e) && key in tr[b].cache
    && forall j :: b < j < e && acts[j] == PassJoin(key) ==> Issuing(tr[j], key) && !StaleFlight(tr[j], key)
  }

  lemma {:induction false} NotSkipped(tr: seq<State>, acts: seq<Action>, b: nat, e: nat, i: nat, key: string)
    requires Visits(tr, acts, b, e, key) && b < i <= e
    ensures key !in Skipped(tr, acts, i)
    decreases i
  {
    if i > b + 1 { NotSkipped(tr, acts, b, e, i - 1, key); }
  }

  /** The pass ticks the key off when an issue flight closes. */
  lemma TickedByFlight(tr: seq<State>, acts: seq<Action>, b: nat, e: nat, i: nat, key: string, limit: nat)
    requires Visits(tr, acts, b, e, key) && PromptRun(tr, acts, limit) && b < i < e
    requires ToDo(tr[i], key) && !ToDo(tr[i + 1], key)
    ensures Issuing(tr[i], key) && key !in tr[i + 1].flights
  {
    RemainingFrame(tr[i], acts[i], tr[i + 1]);
    PassIsFresh(tr, acts, limit, i);
    NotSkipped(tr, acts, b, e, i, key);
  }

  lemma TickedIsCurrent(tr: seq<State>, acts: seq<Action>, b: nat, e: nat, i: nat, key: string)
    requires Visits(tr, acts, b, e, key) && b < i <= e && !ToDo(tr[i], key)
    ensures tr[i].held.Ready() && (key in tr[i].cache ==> !SupersededEntry(tr[i], key))
  {
    FollowedThroughout(tr, acts, b, e, i, key);
    NotMissed(tr, acts, b, e, i, key);
  }

  /** The step that ticks the key off leaves a good entry. */
  lemma VisitedIsQuiet(tr: seq<State>, acts: seq<Action>, b: nat, e: nat, i: nat, key: string, limit: nat)
    requires Visits(tr, acts, b, e, key) && PromptRun(tr, acts, limit) && b < i < e
    requires ToDo(tr[i], key) && !ToDo(tr[i + 1], key) && tr[i + 1].now == tr[i].now
    ensures Quiet(tr[i + 1], key, limit)
  {
    TickedByFlight(tr, acts, b, e, i, key, limit);
    TickedIsCurrent(tr, acts, b, e, i + 1, key);
    if key in tr[i + 1].cache { ClosedStep(tr, acts, limit, i, key); }
  }

  /** One step of a run, while the clock stands and the issuers stay. */
  lemma QuietNext(tr: seq<State>, acts: seq<Action>, i: nat, key: string, limit: nat)
    requires PromptRun(tr, acts, limit) && i < |acts| && Quiet(tr[i], key, limit)
    requires tr[i + 1].now == tr[i].now && tr[i + 1].held == tr[i].held
    ensures Quiet(tr[i + 1], key, limit)
  {
    FlightsAreFresh(tr, acts, limit, i);
    assert Step(tr[i], acts[i]) == Some(tr[i + 1]) && Prompt(acts[i]);
    QuietStep(tr[i], acts[i], tr[i + 1], key, limit);
  }

  lemma BeginsWithAll(s: State, s': State, key: string)
    requires Step(s, PassBegin) == Some(s') && key in s.cache
    ensures ToDo(s', key)
  {
  }

  lemma VisitBegins(tr: seq<State>, acts: seq<Action>, b: nat, e: nat, key: string)
    requires Visits(tr, acts, b, e, key)
    ensures ToDo(tr[b + 1], key)
  {
    assert Step(tr[b], acts[b]) == Some(tr[b + 1]);
    BeginsWithAll(tr[b], tr[b + 1], key);
  }

  /** Still on the list of the pass, or quiet. */
  ghost predicate Dealt(tr: seq<State>, i: nat, key: string, limit: nat)
    requires i < |tr|
  {
    ToDo(tr[i], key) || Quiet(tr[i], key, limit)
  }

  lemma VisitNext(tr: seq<State>, acts: seq<Action>, b: nat, e: nat, i: nat, key: string, limit: nat)
    requires Visits(tr, acts, b, e, key) && PromptRun(tr, acts, limit) && b < i < e
    requires tr[i + 1].now == tr[i].now && tr[i + 1].held == tr[i].held && Dealt(tr, i, key, limit)
    ensures Dealt(tr, i + 1, key, limit)
  {
    if Quiet(tr[i], key, limit) {
      QuietNext(tr, acts, i, key, limit);
    } else if !ToDo(tr[i + 1], key) {
      VisitedIsQuiet(tr, acts, b, e, i, key, limit);
    }
  }

  lemma {:induction false} QuietOnceVisited(tr: seq<State>, b: nat, i: nat, key: string, limit: nat)
    requires b < i < |tr| && Dealt(tr, b + 1, key, limit)
    requires forall j: nat :: b < j < i && Dealt(tr, j, key, limit) ==> Dealt(tr, j + 1, key, limit)
    ensures Dealt(tr, i, key, limit)
    decreases i
  {
    if i > b + 1 {
      QuietOnceVisited(tr, b, i - 1, key, limit);
      assert Dealt(tr, i - 1 + 1, key, limit);
    }
  }

  lemma QuietAtEnd(tr: seq<State>, acts: seq<Action>, b: nat, e: nat, key: string, limit: nat)
    requires Visits(tr, acts, b, e, key) && PromptRun(tr, acts, limit) && Still(tr, b, e)
    ensures Quiet(tr[e], key, limit)
  {
    VisitBegins(tr, acts, b, e, key);
    forall j: nat | b < j < e && Dealt(tr, j, key, limit) ensures Dealt(tr, j + 1, key, limit) {
      VisitNext(tr, acts, b, e, j, key, limit);
    }
    QuietOnceVisited(tr, b, e, key, limit);
    CoveredFrame(tr[e], acts[e], tr[e + 1]);
  }

  lemma StillBefore(tr: seq<State>, b: nat, i: nat)
    requires b < i < |tr| && Still(tr, b, i)
    ensures Still(tr, b, i - 1) && tr[i].now == tr[i - 1].now && tr[i].held == tr[i - 1].held
  {
  }

  lemma {:induction false} QuietAfterPass(tr: seq<State>, acts: seq<Action>, b: nat, e: nat, i: nat, key: string,
                                          limit: nat)
    requires Visits(tr, acts, b, e, key) && PromptRun(tr, acts, limit) && e <= i < |tr| && Still(tr, b, i)
    ensures Quiet(tr[i], key, limit)
    decreases i
  {
    if i == e {
      QuietAtEnd(tr, acts, b, e, key, limit);
    } else {
      StillBefore(tr, b, i);
      QuietAfterPass(tr, acts, b, e, i - 1, key, limit);
      QuietNext(tr, acts, i - 1, key, limit);
    }
  }

  /** In every run: as long as clock and issuers are as they were when a pass began, whatever is stored
      over a certificate after the pass, by the next pass or any call, replaces one with at most
      thirty-four seconds left, and with more than thirty less what a flight may take; unless the pass
      joined, for this key, a read or a stale flight. */
  lemma LaterStoresAreNoisy(tr: seq<State>, acts: seq<Action>, b: nat, e: nat, i: nat, key: string, limit: nat)
    requires Visits(tr, acts, b, e, key) && PromptRun(tr, acts, limit) && e < i < |acts| && Still(tr, b, i)
    requires acts[i] == Store(key)
    ensures Issuing(tr[i], key) && tr[i].flights[key].phase.Storing?
    ensures var prev := tr[i].flights[key].phase.prev; prev.Some? ==> Noisy(prev.value, tr[i].now, limit)
  {
    QuietAfterPass(tr, acts, b, e, i, key, limit);
    assert Step(tr[i], acts[i]) == Some(tr[i + 1]);
  }
}
