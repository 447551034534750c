/**
 What a rotation pass achieves while other calls go on: with the issuers steady
 since it began, which certificates it leaves under issuers that are no longer
 current.
 */
module CertConvergence {
  import opened Prelude
  import opened CertOptions
  import opened Certificates
  import opened CertManager
  import opened CertProtocol
  import opened CertFlights

  /** An issue flight that has read issuers which have been replaced since. */
  predicate StaleFlight(s: State, key: string) {
    s.held.Ready() && Issuing(s, key) &&
    match s.flights[key].phase
    case Signing(_, pair) =>
      pair.signing.id != s.held.Current().signing.id || pair.validating.id != s.held.Current().validating.id
    case Storing(_, made) => Superseded(made, s.held.Current())
    case Announcing(_, made) => Superseded(made, s.held.Current())
    case _ => false
  }

  predicate SupersededEntry(s: State, key: string) {
    s.held.Ready() && key in s.cache && Superseded(s.cache[key], s.held.Current())
  }

  predicate ReadOpen(s: State, key: string) {
    key in s.flights && s.flights[key].ReadFlight?
  }

  /** A pass that joins the open flight of `key` now will not bring it up to date: the flight is
      stale, or a mere read of a superseded entry. */
  predicate JoinsInVain(s: State, key: string) {
    StaleFlight(s, key) || (ReadOpen(s, key) && SupersededEntry(s, key))
  }

  predicate ToDo(s: State, key: string) {
    s.pass.Some? && key in s.pass.value.remaining
  }

  /** The keys the pass in progress joined in vain and nobody has stored since it ticked them off. */
  ghost function Missed(tr: seq<State>, acts: seq<Action>, i: nat): set<string>
    requires |tr| == |acts| + 1 && i < |tr|
  {
    if i == 0 || acts[i - 1].PassBegin? then {}
    else MissedAfter(tr[i - 1], acts[i - 1], Missed(tr, acts, i - 1))
  }

  function MissedAfter(s: State, a: Action, missed: set<string>): set<string> {
    if a.PassJoin? && JoinsInVain(s, a.key) then missed + {a.key}
    else if a.Store? && !ToDo(s, a.key) then missed - {a.key}
    else missed
  }

  // ---------------------------------------------------------------------
  // The fate of one key during a pass

  /** The pass is done with `key`: its entry is superseded exactly when it was missed. */
  ghost predicate Settled(s: State, missed: set<string>, key: string) {
    !StaleFlight(s, key) && (key in s.cache ==> (SupersededEntry(s, key) <==> key in missed))
  }

  /** The pass waits for the flight of `key`, which will leave a superseded entry exactly when missed. */
  ghost predicate Awaited(s: State, missed: set<string>, key: string) {
    && key in s.flights
    && (Issuing(s, key) ==> (StaleFlight(s, key) <==> key in missed))
    && (ReadOpen(s, key) && key in s.cache ==> (SupersededEntry(s, key) <==> key in missed))
  }

  ghost predicate Followed(s: State, missed: set<string>, key: string) {
    s.held.Ready() && s.pass.Some? &&
    if key !in s.pass.value.remaining then Settled(s, missed, key)
    else if s.pass.value.waiting == Some(key) then Awaited(s, missed, key)
    else key !in missed
  }

  predicate Steady(s: State, a: Action, s': State) {
    s'.held == s.held && s'.pass.Some? && (a.Sign? ==> !a.fails)
  }

  lemma SettledFlightStep(s: State, a: Action, s': State, missed: set<string>, key: string)
    requires OfFlight(a) && Step(s, a) == Some(s') && Steady(s, a, s') && s.held.Ready() && !ToDo(s, key) &&
      s.pass.Some?
    requires Settled(s, missed, key) && Aligned(s, key)
    ensures !ToDo(s', key) && Settled(s', MissedAfter(s, a, missed), key)
  {
  }

  lemma SettledStep(s: State, a: Action, s': State, missed: set<string>, key: string)
    requires Step(s, a) == Some(s') && Steady(s, a, s') && s.held.Ready() && !ToDo(s, key) && s.pass.Some?
    requires Settled(s, missed, key) && Aligned(s, key)
    ensures !ToDo(s', key) && Settled(s', MissedAfter(s, a, missed), key)
  {
    if OfFlight(a) { SettledFlightStep(s, a, s', missed, key); }
  }

  lemma AwaitedFlightStep(s: State, a: Action, s': State, missed: set<string>, key: string)
    requires OfFlight(a) && a.key == key && Step(s, a) == Some(s') && Steady(s, a, s') && s.held.Ready() && ToDo(s, key)
    requires s.pass.value.waiting == Some(key) && Awaited(s, missed, key) && Aligned(s, key)
    ensures Followed(s', MissedAfter(s, a, missed), key)
  {
  }

  lemma AwaitedElsewhere(s: State, a: Action, s': State, missed: set<string>, key: string)
    requires OfFlight(a) && a.key != key && Step(s, a) == Some(s') && Steady(s, a, s') && s.held.Ready() && ToDo(s, key)
    requires s.pass.value.waiting == Some(key) && Awaited(s, missed, key)
    ensures Followed(s', MissedAfter(s, a, missed), key)
  {
  }

  lemma AwaitedOtherStep(s: State, a: Action, s': State, missed: set<string>, key: string)
    requires !OfFlight(a) && Step(s, a) == Some(s') && Steady(s, a, s') && s.held.Ready() && ToDo(s, key)
    requires s.pass.value.waiting == Some(key) && Awaited(s, missed, key)
    ensures Followed(s', MissedAfter(s, a, missed), key)
  {
  }

  lemma AwaitedStep(s: State, a: Action, s': State, missed: set<string>, key: string)
    requires Step(s, a) == Some(s') && Steady(s, a, s') && s.held.Ready() && ToDo(s, key)
    requires s.pass.value.waiting == Some(key) && Awaited(s, missed, key) && Aligned(s, key)
    ensures Followed(s', MissedAfter(s, a, missed), key)
  {
    if !OfFlight(a) {
      AwaitedOtherStep(s, a, s', missed, key);
    } else if a.key == key {
      AwaitedFlightStep(s, a, s', missed, key);
    } else {
      AwaitedElsewhere(s, a, s', missed, key);
    }
  }

  lemma UntouchedStep(s: State, a: Action, s': State, missed: set<string>, key: string)
    requires Step(s, a) == Some(s') && Steady(s, a, s') && s.held.Ready() && ToDo(s, key)
    requires s.pass.value.waiting != Some(key) && key !in missed
    ensures Followed(s', MissedAfter(s, a, missed), key)
  {
  }

  lemma FollowedStep(s: State, a: Action, s': State, missed: set<string>, key: string)
    requires Step(s, a) == Some(s') && Steady(s, a, s') && Followed(s, missed, key) && Aligned(s, key)
    ensures Followed(s', MissedAfter(s, a, missed), key)
  {
    if !ToDo(s, key) {
      SettledStep(s, a, s', missed, key);
    } else if s.pass.value.waiting == Some(key) {
      AwaitedStep(s, a, s', missed, key);
    } else {
      UntouchedStep(s, a, s', missed, key);
    }
  }

  // ---------------------------------------------------------------------
  // Whole passes

  /** One pass from `b` to `e`, during which the issuers are the same and issuing succeeds. */
  ghost predicate SteadyPass(tr: seq<State>, acts: seq<Action>, b: nat, e: nat) {
    && IsRun(tr, acts) && b < e < |acts| && acts[b] == PassBegin && acts[e] == PassEnd
    && forall j :: b < j <= e ==> tr[j].pass.Some? && tr[j].held == tr[b].held && (acts[j].Sign? ==> !acts[j].fails)
  }

  lemma {:induction false} FollowedThroughout(tr: seq<State>, acts: seq<Action>, b: nat, e: nat, i: nat, key: string)
    requires SteadyPass(tr, acts, b, e) && b < i <= e && key in tr[b].cache
    ensures Followed(tr[i], Missed(tr, acts, i), key)
    decreases i
  {
    assert Step(tr[i - 1], acts[i - 1]) == Some(tr[i]);
    if i > b + 1 {
      FollowedThroughout(tr, acts, b, e, i - 1, key);
      AlwaysAligned(tr, acts, i - 1, key);
      assert !acts[i - 1].PassBegin?;
      FollowedStep(tr[i - 1], acts[i - 1], tr[i], Missed(tr, acts, i - 1), key);
    }
  }

  /** When a pass ends with the issuers it began with, a certificate it found is superseded exactly
      when the pass joined a stale flight for it, or a read of a superseded entry, and nobody has
      stored a new one since. */
  lemma {:induction false} PassConvergesExactly(tr: seq<State>, acts: seq<Action>, b: nat, e: nat, key: string)
    requires SteadyPass(tr, acts, b, e) && key in tr[b].cache && key in tr[e].cache
    ensures tr[b].held.Ready()
    ensures (tr[e].cache[key].signingID == tr[b].held.signing.value.id &&
             tr[e].cache[key].validatingID == tr[b].held.validating.value.id) <==> key !in Missed(tr, acts, e)
  {
    assert Step(tr[b], acts[b]) == Some(tr[b + 1]);
    assert Step(tr[e], acts[e]) == Some(tr[e + 1]);
    FollowedThroughout(tr, acts, b, e, e, key);
  }

  /** A pass takes nothing away: what is not released is there at the end. */
  lemma {:induction false} PassKeepsKeys(tr: seq<State>, acts: seq<Action>, b: nat, e: nat, key: string)
    requires IsRun(tr, acts) && b <= e < |tr| && key in tr[b].cache
    requires forall j :: b <= j < e ==> acts[j] != Release(key)
    ensures key in tr[e].cache
    decreases e
  {
    if b < e {
      PassKeepsKeys(tr, acts, b, e - 1, key);
      assert Step(tr[e - 1], acts[e - 1]) == Some(tr[e]);
    }
  }

  /** A pass that joins only reads of current entries, and flights that are not stale, leaves every
      certificate it found under the current issuers. */
  lemma PassConverges(tr: seq<State>, acts: seq<Action>, b: nat, e: nat, key: string)
    requires SteadyPass(tr, acts, b, e) && key in tr[b].cache && key in tr[e].cache
    requires forall j :: b < j < e && acts[j] == PassJoin(key) ==> !JoinsInVain(tr[j], key)
    ensures tr[b].held.Ready() && tr[e].cache[key].signingID == tr[b].held.signing.value.id &&
      tr[e].cache[key].validatingID == tr[b].held.validating.value.id
  {
    NotMissed(tr, acts, b, e, e, key);
    PassConvergesExactly(tr, acts, b, e, key);
  }

  lemma {:induction false} NotMissed(tr: seq<State>, acts: seq<Action>, b: nat, e: nat, i: nat, key: string)
    requires SteadyPass(tr, acts, b, e) && b < i <= e
    requires forall j :: b < j < e && acts[j] == PassJoin(key) ==> !JoinsInVain(tr[j], key)
    ensures key !in Missed(tr, acts, i)
    decreases i
  {
    if i > b + 1 { NotMissed(tr, acts, b, e, i - 1, key); }
  }

  // ---------------------------------------------------------------------
  // A pass that joins a stale flight

  /** A pass is steady when nothing but its own end and failures could disturb it. */
  lemma {:induction false} SteadyByActions(tr: seq<State>, acts: seq<Action>, b: nat, e: nat, i: nat)
    requires IsRun(tr, acts) && b < i <= e < |acts| && acts[b] == PassBegin
    requires forall j :: b < j < e ==> acts[j] != PassEnd && !acts[j].RootEvent?
    ensures tr[i].pass.Some? && tr[i].held == tr[b].held
    decreases i
  {
    assert Step(tr[i - 1], acts[i - 1]) == Some(tr[i]);
    if i > b + 1 { SteadyByActions(tr, acts, b, e, i - 1); }
  }

  function PassJoining(key: string): seq<Action> {
    [PassBegin, PassJoin(key), Sign(key, false, 1), Store(key), Announce(key), PassEnd]
  }

  lemma SignLands(p: State, key: string, ct: CertType, o: IssueOptions, c: Certificate, read: Pair)
    ensures Step(Flying(p, key, ct, o, Signing(Some(c), read)), Sign(key, false, 1)) ==
      Some(Flying(p, key, ct, o, Storing(Some(c), NewCertificate(key, ct, o, Some(c), read, p.validity, p.now, 1))))
  {
    var made := NewCertificate(key, ct, o, Some(c), read, p.validity, p.now, 1);
    Advance(p, key, ct, o, Signing(Some(c), read), Storing(Some(c), made));
  }

  lemma RestoreLands(p: State, key: string, ct: CertType, o: IssueOptions, c: Certificate, made: Certificate)
    ensures Step(Flying(p, key, ct, o, Storing(Some(c), made)), Store(key)) ==
      Some(Flying(p.(cache := p.cache[key := made]), key, ct, o, Announcing(c, made)))
  {
    Advance(p.(cache := p.cache[key := made]), key, ct, o, Storing(Some(c), made), Announcing(c, made));
  }

  lemma AnnounceLands(s: State, snapshot: map<string, Certificate>, key: string, ct: CertType, o: IssueOptions,
                      c: Certificate, made: Certificate)
    requires s.flights == map[]
    ensures Step(Flying(Passing(s, snapshot, {key}, Some(key)), key, ct, o, Announcing(c, made)), Announce(key)) ==
      Some(Passing(s.(log := s.log + [Rotation(key, c, made)]), snapshot, {}, None))
  {
    var f := Flying(Passing(s, snapshot, {key}, Some(key)), key, ct, o, Announcing(c, made));
    assert f.flights - {key} == map[];
    assert {key} - {key} == {};
  }

  lemma PassOpens(s: State, key: string, ct: CertType, o: IssueOptions, phase: Phase)
    requires s.held.Ready() && s.pass == None && s.cache.Keys == {key} && s.flights == map[]
    ensures var f := Flying(s, key, ct, o, phase);
      && Step(f, PassBegin) == Some(Flying(Passing(s, s.cache, {key}, None), key, ct, o, phase))
      && Step(Flying(Passing(s, s.cache, {key}, None), key, ct, o, phase), PassJoin(key)) ==
           Some(Flying(Passing(s, s.cache, {key}, Some(key)), key, ct, o, phase))
  {
  }

  /** Where the pass over one key ends once its flight has announced. */
  function Ended(s: State, key: string, c: Certificate, made: Certificate): State {
    s.(cache := s.cache[key := made], log := s.log + [Rotation(key, c, made)], covered := s.now)
  }

  lemma AnnouncingEnds(s: State, key: string, ct: CertType, o: IssueOptions, c: Certificate, made: Certificate)
    requires s.pass == None && s.flights == map[]
    ensures var stored := Passing(s.(cache := s.cache[key := made]), s.cache, {key}, Some(key));
      After(Flying(stored, key, ct, o, Announcing(c, made)), [Announce(key), PassEnd]) == Some(Ended(s, key, c, made))
  {
    var stored := s.(cache := s.cache[key := made]);
    var done := Passing(stored.(log := s.log + [Rotation(key, c, made)]), s.cache, {}, None);
    AnnounceLands(stored, s.cache, key, ct, o, c, made);
    Follow(done, PassEnd, Ended(s, key, c, made), [], Ended(s, key, c, made));
    assert [PassEnd] + [] == [PassEnd];
    Follow(Flying(Passing(stored, s.cache, {key}, Some(key)), key, ct, o, Announcing(c, made)), Announce(key),
           done, [PassEnd], Ended(s, key, c, made));
  }

  lemma SigningEnds(s: State, key: string, ct: CertType, o: IssueOptions, c: Certificate, read: Pair)
    requires s.pass == None && s.flights == map[]
    ensures After(Flying(Passing(s, s.cache, {key}, Some(key)), key, ct, o, Signing(Some(c), read)),
                  [Sign(key, false, 1), Store(key), Announce(key), PassEnd]) ==
      Some(Ended(s, key, c, NewCertificate(key, ct, o, Some(c), read, s.validity, s.now, 1)))
  {
    var made := NewCertificate(key, ct, o, Some(c), read, s.validity, s.now, 1);
    var p, end := Passing(s, s.cache, {key}, Some(key)), Ended(s, key, c, made);
    AnnouncingEnds(s, key, ct, o, c, made);
    RestoreLands(p, key, ct, o, c, made);
    assert p.(cache := p.cache[key := made]) == Passing(s.(cache := s.cache[key := made]), s.cache, {key}, Some(key));
    Follow(Flying(p, key, ct, o, Storing(Some(c), made)), Store(key),
           Flying(p.(cache := p.cache[key := made]), key, ct, o, Announcing(c, made)), [Announce(key), PassEnd], end);
    assert [Store(key)] + [Announce(key), PassEnd] == [Store(key), Announce(key), PassEnd];
    SignLands(p, key, ct, o, c, read);
    Follow(Flying(p, key, ct, o, Signing(Some(c), read)), Sign(key, false, 1),
           Flying(p, key, ct, o, Storing(Some(c), made)), [Store(key), Announce(key), PassEnd], end);
    assert [Sign(key, false, 1)] + [Store(key), Announce(key), PassEnd] ==
      [Sign(key, false, 1), Store(key), Announce(key), PassEnd];
  }

  /** A pass over one key whose flight has already read its issuers ends with a certificate of those. */
  lemma PassJoinsSigning(s: State, key: string, ct: CertType, o: IssueOptions, c: Certificate, read: Pair)
    requires s.held.Ready() && s.pass == None && s.cache.Keys == {key} && s.flights == map[]
    ensures After(Flying(s, key, ct, o, Signing(Some(c), read)), PassJoining(key)) ==
      Some(Ended(s, key, c, NewCertificate(key, ct, o, Some(c), read, s.validity, s.now, 1)))
  {
    var end := Ended(s, key, c, NewCertificate(key, ct, o, Some(c), read, s.validity, s.now, 1));
    var phase := Signing(Some(c), read);
    var rest := [Sign(key, false, 1), Store(key), Announce(key), PassEnd];
    SigningEnds(s, key, ct, o, c, read);
    PassOpens(s, key, ct, o, phase);
    Follow(Flying(Passing(s, s.cache, {key}, None), key, ct, o, phase), PassJoin(key),
           Flying(Passing(s, s.cache, {key}, Some(key)), key, ct, o, phase), rest, end);
    Follow(Flying(s, key, ct, o, phase), PassBegin, Flying(Passing(s, s.cache, {key}, None), key, ct, o, phase),
           [PassJoin(key)] + rest, end);
    assert PassJoining(key) == [PassBegin] + ([PassJoin(key)] + rest);
  }

  function Reissue(key: string): seq<Action> {
    [BeginIssue(key, Service, NO_OPTIONS), Load(key), CheckExpiry(key, 0), ReadIssuers(key)]
  }

  /** An issue call that finds an expiring certificate and gets as far as reading the issuers. */
  lemma {:induction false} ReissueReads(s: State, key: string)
    requires s.held.Ready() && key in s.cache && key !in s.flights && Expiring(s.cache[key], s.now, 0)
    ensures After(s, Reissue(key)) ==
      Some(Flying(s, key, Service, NO_OPTIONS, Signing(Some(s.cache[key]), s.held.Current())))
  {
    var c, o := s.cache[key], NO_OPTIONS;
    var end := Flying(s, key, Service, o, Signing(Some(c), s.held.Current()));
    Advance(s, key, Service, o, Looking, Checking(c));
    Advance(s, key, Service, o, Checking(c), Reading(Some(c)));
    Advance(s, key, Service, o, Reading(Some(c)), Signing(Some(c), s.held.Current()));
    var reading := Flying(s, key, Service, o, Reading(Some(c)));
    Follow(reading, ReadIssuers(key), end, [], end);
    var rest := [ReadIssuers(key)] + [];
    Follow(Flying(s, key, Service, o, Checking(c)), CheckExpiry(key, 0), reading, rest, end);
    rest := [CheckExpiry(key, 0)] + rest;
    LoadLands(s, key, Service, o, rest);
    rest := [Load(key)] + rest;
    Follow(s, BeginIssue(key, Service, o), Flying(s, key, Service, o, Looking), rest, end);
    assert Reissue(key) == [BeginIssue(key, Service, o)] + rest;
  }

  /** Both parts with a change of issuers in between. */
  lemma ReissueThenPass(s: State, key: string, event: Action, held: Held) returns (end: State)
    requires s.held.Ready() && s.pass == None && s.flights == map[] && s.cache.Keys == {key} &&
      Expiring(s.cache[key], s.now, 0)
    requires event.RootEvent? && AfterEvent(s.held, event.event, event.client) == held && held.Ready()
    ensures After(s, Reissue(key) + ([event] + PassJoining(key))) == Some(end)
    ensures key in end.cache && end.held == held
    ensures end.cache[key].signingID == s.held.Current().signing.id
  {
    var c, read, t := s.cache[key], s.held.Current(), s.(held := held);
    var made := NewCertificate(key, Service, NO_OPTIONS, Some(c), read, t.validity, t.now, 1);
    end := Ended(t, key, c, made);
    ReissueReads(s, key);
    AfterCat(s, Reissue(key), [event] + PassJoining(key));
    PassJoinsSigning(t, key, Service, NO_OPTIONS, c, read);
    Follow(Flying(s, key, Service, NO_OPTIONS, Signing(Some(c), read)), event,
           Flying(t, key, Service, NO_OPTIONS, Signing(Some(c), read)), PassJoining(key), end);
  }

  /** A run whose pass is steady and joins a flight that read the issuers before they changed: the
      pass completes, and the certificate it found is still under the old ones. */
  lemma ConvergenceFailsAfterStaleJoin() returns (tr: seq<State>, acts: seq<Action>, b: nat, e: nat)
    ensures SteadyPass(tr, acts, b, e) && "k" in tr[b].cache && "k" in tr[e].cache
    ensures tr[b].held.Ready() && Superseded(tr[e].cache["k"], tr[b].held.Current())
  {
    var s, first := PreparedIsReachable(NO_OPTIONS, 20 * SECOND);
    var late := Prepared(NO_OPTIONS, 20 * SECOND);
    var event := RootEvent(Added("next", "td", Active), Ok(IssuerClient([], [], Echo)));
    var next := ROOT.(id := "next");
    var end := ReissueThenPass(late, "k", event, Held(Some(next), Some(next)));
    var front := first + Reissue("k") + [event];
    acts := front + PassJoining("k");
    assert acts == first + (Reissue("k") + ([event] + PassJoining("k")));
    AfterCat(s, first, Reissue("k") + ([event] + PassJoining("k")));
    tr := Trace(s, acts);
    TraceIsRun(s, acts);
    b, e := |front|, |acts| - 1;
    assert acts[b..] == PassJoining("k");
    StaleEnd(tr, acts, b, e, end);
  }

  lemma JoiningIsSteady(tr: seq<State>, acts: seq<Action>, b: nat, key: string)
    requires IsRun(tr, acts) && |acts| == b + 6 && acts[b..] == PassJoining(key)
    ensures SteadyPass(tr, acts, b, b + 5)
  {
    assert forall j :: b <= j <= b + 5 ==> acts[j] == PassJoining(key)[j - b];
    forall i | b < i <= b + 5
      ensures tr[i].pass.Some? && tr[i].held == tr[b].held && (acts[i].Sign? ==> !acts[i].fails)
    {
      SteadyByActions(tr, acts, b, b + 5, i);
    }
  }

  lemma StaleEnd(tr: seq<State>, acts: seq<Action>, b: nat, e: nat, end: State)
    requires IsRun(tr, acts) && e == b + 5 && |acts| == b + 6 && acts[b..] == PassJoining("k") && tr[|acts|] == end
    requires "k" in end.cache && end.held.Ready() && end.cache["k"].signingID != end.held.Current().signing.id
    ensures SteadyPass(tr, acts, b, e) && "k" in tr[b].cache && "k" in tr[e].cache
    ensures tr[b].held.Ready() && Superseded(tr[e].cache["k"], tr[b].held.Current())
  {
    JoiningIsSteady(tr, acts, b, "k");
    assert acts[b..][0] == acts[b] && acts[b..][1] == acts[b + 1] && acts[b..][5] == acts[e];
    PassEndFrame(tr[e], end);
    JoinedWasCached(tr[b], tr[b + 1], tr[b + 2], "k");
  }

  lemma PassEndFrame(s: State, s': State)
    requires Step(s, PassEnd) == Some(s')
    ensures s'.cache == s.cache && s'.held == s.held
  {
  }

  lemma JoinedWasCached(s0: State, s1: State, s2: State, key: string)
    requires Step(s0, PassBegin) == Some(s1) && Step(s1, PassJoin(key)) == Some(s2)
    ensures key in s0.cache && s0.held.Ready()
  {
  }
}
