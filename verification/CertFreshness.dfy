/**
 Timed safety of the certificate protocol: how much life every cached
 certificate has left, over whole runs.
 */
module CertFreshness {
  import opened Prelude
  import opened CertOptions
  import opened Certificates
  import opened CertManager
  import opened CertProtocol
  import opened CertFlights

  /** Issuing succeeds, and no caller asks for a validity below the renewal period. */
  predicate Prompt(a: Action) {
    match a
    case Sign(_, fails, _) => !fails
    case BeginIssue(_, _, o) => o.validity.Some? ==> o.validity.value > RENEW_BEFORE
    case _ => true
  }

  predicate LongEnough(validity: Validity) {
    validity.service > RENEW_BEFORE && validity.ingress > RENEW_BEFORE
  }

  ghost predicate OpenThroughout(tr: seq<State>, i: nat, j: nat, key: string)
    requires i <= j < |tr|
  {
    forall k :: i <= k <= j ==> key in tr[k].flights
  }

  /** No flight stays open for longer than `limit`. */
  ghost predicate FlightsBounded(tr: seq<State>, limit: int) {
    forall i: nat, j: nat, key: string :: i <= j < |tr| && OpenThroughout(tr, i, j, key) ==>
      tr[j].now - tr[i].now <= limit
  }

  ghost predicate PromptRun(tr: seq<State>, acts: seq<Action>, limit: int) {
    && IsRun(tr, acts)
    && LongEnough(tr[0].validity)
    && FlightsBounded(tr, limit)
    && forall i :: 0 <= i < |acts| ==> Prompt(acts[i])
  }

  /** `c` does not come up for renewal before `t`. */
  predicate LastsPast(c: Certificate, t: int) {
    c.expiration > RENEW_BEFORE + t
  }

  /** The keys a pass in progress has ticked off, or is about to, by joining a read. */
  ghost function Skipped(tr: seq<State>, acts: seq<Action>, i: nat): set<string>
    requires |tr| == |acts| + 1 && i < |tr|
  {
    if i == 0 || acts[i - 1].PassBegin? then {}
    else if acts[i - 1].PassJoin? && !Issuing(tr[i - 1], acts[i - 1].key)
    then Skipped(tr, acts, i - 1) + {acts[i - 1].key}
    else Skipped(tr, acts, i - 1)
  }

  /** When the flight of `key` that is open at `i` was opened. */
  ghost function OpenedAt(tr: seq<State>, i: nat, key: string): (o: nat)
    requires i < |tr| && key in tr[i].flights
    ensures o <= i && OpenThroughout(tr, o, i, key)
  {
    if i > 0 && key in tr[i - 1].flights then OpenedAt(tr, i - 1, key) else i
  }

  // ---------------------------------------------------------------------
  // What flights and passes guarantee

  /** What a flight opened at time `since` guarantees about the key it works on. A released entry
      makes no promise. */
  ghost predicate FlightFresh(s: State, key: string, since: int)
    requires Issuing(s, key)
  {
    var f := s.flights[key];
    && since <= s.now
    && (f.o.validity.Some? ==> f.o.validity.value > RENEW_BEFORE)
    && match f.phase
       case Looking => true
       case Checking(c) => key in s.cache ==> s.cache[key] == c
       case Comparing(c) => (key in s.cache ==> s.cache[key] == c) && LastsPast(c, since)
       case Reading(_) => true
       case Signing(_, _) => true
       case Storing(_, made) => LastsPast(made, since)
       case Announcing(_, made) => (key in s.cache ==> s.cache[key] == made) && LastsPast(made, since)
  }

  ghost predicate FlightsFresh(tr: seq<State>, i: nat)
    requires i < |tr|
  {
    LongEnough(tr[i].validity) &&
    forall key :: Issuing(tr[i], key) ==> FlightFresh(tr[i], key, tr[OpenedAt(tr, i, key)].now)
  }

  lemma MadeLastsPast(key: string, ct: CertType, o: IssueOptions, prev: Option<Certificate>, pair: Pair,
                      validity: Validity, now: int, serial: nat)
    requires LongEnough(validity) && (o.validity.Some? ==> o.validity.value > RENEW_BEFORE)
    ensures LastsPast(NewCertificate(key, ct, o, prev, pair, validity, now, serial), now)
  {
  }

  lemma SignedIsFresh(s: State, a: Action, s': State, key: string, since: int)
    requires a.Sign? && a.key == key && Step(s, a) == Some(s') && LongEnough(s.validity)
    requires Issuing(s, key) && Issuing(s', key) && FlightFresh(s, key, since)
    ensures FlightFresh(s', key, since)
  {
    var f := s.flights[key];
    MadeLastsPast(key, f.ct, f.o, f.phase.prev, f.phase.pair, s.validity, s.now, a.serial);
  }

  lemma OwnFlightFresh(s: State, a: Action, s': State, key: string, since: int)
    requires OfFlight(a) && a.key == key && !a.Sign? && Step(s, a) == Some(s')
    requires Issuing(s, key) && Issuing(s', key) && FlightFresh(s, key, since)
    ensures FlightFresh(s', key, since)
  {
  }

  lemma OtherFlightFresh(s: State, a: Action, s': State, key: string, since: int)
    requires OfFlight(a) && a.key != key && Step(s, a) == Some(s')
    requires Issuing(s, key) && Issuing(s', key) && FlightFresh(s, key, since)
    ensures FlightFresh(s', key, since)
  {
  }

  lemma FlightFreshStep(s: State, a: Action, s': State, key: string, since: int)
    requires Step(s, a) == Some(s') && LongEnough(s.validity)
    requires Issuing(s, key) && Issuing(s', key) && FlightFresh(s, key, since)
    ensures FlightFresh(s', key, since)
  {
    if OfFlight(a) {
      if a.key != key {
        OtherFlightFresh(s, a, s', key, since);
      } else if a.Sign? {
        SignedIsFresh(s, a, s', key, since);
      } else {
        OwnFlightFresh(s, a, s', key, since);
      }
    }
  }

  /** A flight is opened in its first phase; an open one stays of its kind. */
  lemma FlightOpens(s: State, a: Action, s': State, key: string)
    requires Step(s, a) == Some(s') && Issuing(s', key) && !Issuing(s, key)
    ensures key !in s.flights && s'.flights[key].phase == Looking
    ensures Prompt(a) && s'.flights[key].o.validity.Some? ==> s'.flights[key].o.validity.value > RENEW_BEFORE
  {
  }

  lemma {:induction false} FlightsAreFresh(tr: seq<State>, acts: seq<Action>, limit: int, i: nat)
    requires PromptRun(tr, acts, limit) && i < |tr|
    ensures FlightsFresh(tr, i)
  {
    if i > 0 {
      FlightsAreFresh(tr, acts, limit, i - 1);
      var s, a, s' := tr[i - 1], acts[i - 1], tr[i];
      assert Step(s, a) == Some(s');
      assert s'.validity == s.validity;
      forall key | Issuing(s', key) ensures FlightFresh(s', key, tr[OpenedAt(tr, i, key)].now) {
        if Issuing(s, key) {
          FlightFreshStep(s, a, s', key, tr[OpenedAt(tr, i - 1, key)].now);
        } else {
          FlightOpens(s, a, s', key);
        }
      }
    }
  }

  /** A store by a flight leaves a certificate that lasts past the opening of the flight. */
  lemma StoredLasts(s: State, a: Action, s': State, key: string, since: int)
    requires Step(s, a) == Some(s') && a == Store(key) && Issuing(s, key) && FlightFresh(s, key, since)
    ensures key in s'.cache && LastsPast(s'.cache[key], since)
  {
  }

  /** So does a flight that closes, if it leaves a certificate at all. */
  lemma ClosedFlightLasts(s: State, a: Action, s': State, key: string, since: int)
    requires Step(s, a) == Some(s') && Prompt(a)
    requires Issuing(s, key) && FlightFresh(s, key, since) && key !in s'.flights && key in s'.cache
    ensures LastsPast(s'.cache[key], since)
  {
  }

  /** An entry is as it was, or lasts past the recent past. */
  lemma EntryStep(tr: seq<State>, acts: seq<Action>, limit: int, i: nat, key: string)
    requires PromptRun(tr, acts, limit) && i < |acts| && key in tr[i + 1].cache
    ensures LastsPast(tr[i + 1].cache[key], tr[i].now - limit) ||
      (key in tr[i].cache && tr[i + 1].cache[key] == tr[i].cache[key])
  {
    CacheFrame(tr[i], acts[i], tr[i + 1], key);
    if acts[i] == Store(key) {
      FlightsAreFresh(tr, acts, limit, i);
      var o := OpenedAt(tr, i, key);
      assert OpenThroughout(tr, o, i, key);
      StoredLasts(tr[i], acts[i], tr[i + 1], key, tr[o].now);
    }
  }

  lemma ClosedStep(tr: seq<State>, acts: seq<Action>, limit: int, i: nat, key: string)
    requires PromptRun(tr, acts, limit) && i < |acts|
    requires Issuing(tr[i], key) && key !in tr[i + 1].flights && key in tr[i + 1].cache
    ensures LastsPast(tr[i + 1].cache[key], tr[i].now - limit)
  {
    FlightsAreFresh(tr, acts, limit, i);
    var o := OpenedAt(tr, i, key);
    assert OpenThroughout(tr, o, i, key);
    ClosedFlightLasts(tr[i], acts[i], tr[i + 1], key, tr[o].now);
  }

  /** What a pass in progress has ticked off without skipping lasts past its beginning. */
  ghost predicate PassFresh(s: State, skipped: set<string>, limit: int) {
    && s.covered <= s.now
    && (s.pass.Some? ==>
      var p := s.pass.value;
      && s.covered <= p.begin <= s.now
      && (forall key :: key in s.cache && key !in p.remaining && key !in skipped ==>
        LastsPast(s.cache[key], p.begin - limit))
      && (p.waiting.Some? ==>
        p.waiting.value in p.remaining && (Issuing(s, p.waiting.value) || p.waiting.value in skipped)))
  }

  /** Only closing the flight it waits for takes a key off the list of a pass. */
  lemma RemainingFrame(s: State, a: Action, s': State)
    requires Step(s, a) == Some(s') && s.pass.Some? && s'.pass.Some?
    ensures s'.pass.value.begin == s.pass.value.begin && s'.covered == s.covered
    ensures s'.pass.value.remaining == s.pass.value.remaining ||
      (s.pass.value.waiting.Some? && s.pass.value.waiting.value !in s'.flights && s'.pass.value.waiting == None &&
       s'.pass.value.remaining == s.pass.value.remaining - {s.pass.value.waiting.value})
  {
  }

  /** A pass waits for an issue flight, unless it has joined a read. */
  lemma WaitingFrame(s: State, a: Action, s': State, skipped: set<string>, skipped': set<string>)
    requires Step(s, a) == Some(s') && s'.pass.Some? && s'.pass.value.waiting.Some?
    requires s.pass.Some? && s.pass.value.waiting.Some? ==>
      var w := s.pass.value.waiting.value; w in s.pass.value.remaining && (Issuing(s, w) || w in skipped)
    requires skipped' == skipped + if a.PassJoin? && !Issuing(s, a.key) then {a.key} else {}
    ensures var w := s'.pass.value.waiting.value; w in s'.pass.value.remaining && (Issuing(s', w) || w in skipped')
  {
  }

  lemma PassFreshStep(tr: seq<State>, acts: seq<Action>, limit: int, i: nat)
    requires PromptRun(tr, acts, limit) && i < |acts| && PassFresh(tr[i], Skipped(tr, acts, i), limit)
    requires tr[i].pass.Some? && tr[i + 1].pass.Some?
    ensures PassFresh(tr[i + 1], Skipped(tr, acts, i + 1), limit)
  {
    var s, a, s', skipped := tr[i], acts[i], tr[i + 1], Skipped(tr, acts, i + 1);
    assert Step(s, a) == Some(s') && !a.PassBegin?;
    RemainingFrame(s, a, s');
    var p, p' := s.pass.value, s'.pass.value;
    if p'.waiting.Some? { WaitingFrame(s, a, s', Skipped(tr, acts, i), skipped); }
    forall key | key in s'.cache && key !in p'.remaining && key !in skipped
      ensures LastsPast(s'.cache[key], p'.begin - limit)
    {
      if key in p.remaining {
        ClosedStep(tr, acts, limit, i, key);
      } else {
        EntryStep(tr, acts, limit, i, key);
      }
    }
  }

  /** The steps that begin or end a pass, and those outside one. */
  lemma PassFreshEdge(s: State, a: Action, s': State, skipped: set<string>, skipped': set<string>, limit: int)
    requires Step(s, a) == Some(s') && PassFresh(s, skipped, limit) && (s.pass.None? || s'.pass.None?)
    ensures PassFresh(s', skipped', limit)
  {
  }

  lemma PassFreshAtEdge(tr: seq<State>, acts: seq<Action>, limit: int, i: nat)
    requires IsRun(tr, acts) && i < |acts| && PassFresh(tr[i], Skipped(tr, acts, i), limit)
    requires tr[i].pass.None? || tr[i + 1].pass.None?
    ensures PassFresh(tr[i + 1], Skipped(tr, acts, i + 1), limit)
  {
    var skipped, skipped' := Skipped(tr, acts, i), Skipped(tr, acts, i + 1);
    PassFreshEdge(tr[i], acts[i], tr[i + 1], skipped, skipped', limit);
  }

  lemma {:induction false} PassIsFresh(tr: seq<State>, acts: seq<Action>, limit: int, i: nat)
    requires PromptRun(tr, acts, limit) && i < |tr|
    ensures PassFresh(tr[i], Skipped(tr, acts, i), limit)
  {
    if i == 0 {
      PassFreshAtStart(tr[0], limit);
    } else {
      PassIsFresh(tr, acts, limit, i - 1);
      PassFreshNext(tr, acts, limit, i - 1);
    }
  }

  lemma PassFreshAtStart(s: State, limit: int)
    requires Initial(s)
    ensures PassFresh(s, {}, limit)
  {
  }

  lemma PassFreshNext(tr: seq<State>, acts: seq<Action>, limit: int, i: nat)
    requires PromptRun(tr, acts, limit) && i < |acts| && PassFresh(tr[i], Skipped(tr, acts, i), limit)
    ensures PassFresh(tr[i + 1], Skipped(tr, acts, i + 1), limit)
  {
    if tr[i].pass.Some? && tr[i + 1].pass.Some? {
      PassFreshStep(tr, acts, limit, i);
    } else {
      PassFreshAtEdge(tr, acts, limit, i);
    }
  }

  // ---------------------------------------------------------------------
  // Freshness, exactly

  /** No certificate is closer to expiry than a pass at its last turn would have allowed. */
  ghost predicate AlwaysFresh(tr: seq<State>, limit: int) {
    forall i, key :: 0 <= i < |tr| && key in tr[i].cache ==> LastsPast(tr[i].cache[key], tr[i].covered - limit)
  }

  /** A pass ends here, having skipped `key`, which is still cached. */
  ghost predicate SkippedAtEnd(tr: seq<State>, acts: seq<Action>, i: nat, key: string)
    requires |tr| == |acts| + 1 && i < |acts|
  {
    acts[i] == PassEnd && tr[i].pass.Some? && key in Skipped(tr, acts, i) && key in tr[i].cache
  }

  /** Whenever a pass ends, what it skipped was not due for renewal when it began. */
  ghost predicate SkipsHarmless(tr: seq<State>, acts: seq<Action>, limit: int)
    requires IsRun(tr, acts)
  {
    forall i: nat, key :: i < |acts| && SkippedAtEnd(tr, acts, i, key) ==>
      tr[i].cache[key].expiration - tr[i].pass.value.begin > RENEW_BEFORE - limit
  }

  /** Only the end of a pass moves the time that is covered. */
  lemma CoveredFrame(s: State, a: Action, s': State)
    requires Step(s, a) == Some(s')
    ensures if a == PassEnd
      then s.pass.Some? && s.pass.value.remaining == {} && s'.covered == s.pass.value.begin && s'.cache == s.cache
      else s'.covered == s.covered
  {
  }

  lemma {:induction false} FreshAt(tr: seq<State>, acts: seq<Action>, limit: int, i: nat, key: string)
    requires PromptRun(tr, acts, limit) && SkipsHarmless(tr, acts, limit) && i < |tr| && key in tr[i].cache
    ensures LastsPast(tr[i].cache[key], tr[i].covered - limit)
  {
    if i > 0 {
      var s, a, s' := tr[i - 1], acts[i - 1], tr[i];
      CoveredFrame(s, a, s');
      PassIsFresh(tr, acts, limit, i - 1);
      if a == PassEnd {
        if key in Skipped(tr, acts, i - 1) { assert SkippedAtEnd(tr, acts, i - 1, key); }
      } else {
        EntryStep(tr, acts, limit, i - 1, key);
        if key in s.cache { FreshAt(tr, acts, limit, i - 1, key); }
      }
    }
  }

  /** Every certificate stays fresh throughout a run exactly when each pass skips, by joining reads,
      only what was not due: whatever noise the checks draw and however calls, events, releases
      and passes interleave. */
  lemma FreshExactlyWhenSkipsHarmless(tr: seq<State>, acts: seq<Action>, limit: int)
    requires PromptRun(tr, acts, limit)
    ensures AlwaysFresh(tr, limit) <==> SkipsHarmless(tr, acts, limit)
  {
    if SkipsHarmless(tr, acts, limit) {
      forall i: nat, key | i < |tr| && key in tr[i].cache ensures LastsPast(tr[i].cache[key], tr[i].covered - limit) {
        FreshAt(tr, acts, limit, i, key);
      }
    }
    if AlwaysFresh(tr, limit) {
      forall i: nat, key | i < |acts| && SkippedAtEnd(tr, acts, i, key)
        ensures tr[i].cache[key].expiration - tr[i].pass.value.begin > RENEW_BEFORE - limit
      {
        assert Step(tr[i], acts[i]) == Some(tr[i + 1]);
        assert key in tr[i + 1].cache;
      }
    }
  }

  /** While the last completed pass began at most `d` ago and no flight takes longer than `limit`,
      every cached certificate has more than thirty seconds minus both left. */
  lemma TimedFreshness(tr: seq<State>, acts: seq<Action>, limit: int, i: nat, d: int, key: string)
    requires PromptRun(tr, acts, limit) && SkipsHarmless(tr, acts, limit)
    requires i < |tr| && key in tr[i].cache && tr[i].now - tr[i].covered <= d
    ensures tr[i].cache[key].expiration - tr[i].now > RENEW_BEFORE - d - limit
  {
    FreshExactlyWhenSkipsHarmless(tr, acts, limit);
  }

  /** In particular skips are harmless when no pass ever joins a read. */
  lemma NoReadJoinedNoSkips(tr: seq<State>, acts: seq<Action>, limit: int)
    requires PromptRun(tr, acts, limit)
    requires forall i :: 0 <= i < |acts| && acts[i].PassJoin? ==> Issuing(tr[i], acts[i].key)
    ensures SkipsHarmless(tr, acts, limit)
  {
    forall i: nat | i < |tr| ensures Skipped(tr, acts, i) == {} { NothingSkipped(tr, acts, i); }
  }

  lemma {:induction false} NothingSkipped(tr: seq<State>, acts: seq<Action>, i: nat)
    requires |tr| == |acts| + 1 && i < |tr|
    requires forall i :: 0 <= i < |acts| && acts[i].PassJoin? ==> Issuing(tr[i], acts[i].key)
    ensures Skipped(tr, acts, i) == {}
  {
    if i > 0 { NothingSkipped(tr, acts, i - 1); }
  }

  // ---------------------------------------------------------------------
  // A run that joins a read

  /** A pass whose only check joins an open read completes without looking at the certificate,
      however close to expiry that is: the time is counted as covered all the same. */
  lemma {:induction false} JoinedReadSkipsTheCheck(s: State, key: string)
    requires s.held.Ready() && s.flights == map[] && s.pass == None && s.cache.Keys == {key}
    ensures After(s, [PassBegin, BeginRead(key), PassJoin(key), EndRead(key), PassEnd]) == Some(s.(covered := s.now))
  {
    var s1 := s.(pass := Some(PassRun(s.now, s.cache, {key}, None)));
    var s2 := s1.(flights := map[key := ReadFlight]);
    var s3 := s2.(pass := Some(PassRun(s.now, s.cache, {key}, Some(key))));
    var s4 := s.(pass := Some(PassRun(s.now, s.cache, {}, None)));
    assert Step(s, PassBegin) == Some(s1);
    assert Step(s1, BeginRead(key)) == Some(s2);
    assert Step(s2, PassJoin(key)) == Some(s3);
    assert Finish(s3, key) == s4 by {
      assert s3.flights - {key} == map[];
      assert {key} - {key} == {};
    }
    assert Step(s3, EndRead(key)) == Some(s4);
    assert Step(s4, PassEnd) == Some(s.(covered := s.now));
    var acts := [PassBegin, BeginRead(key), PassJoin(key), EndRead(key), PassEnd];
    assert acts[1..] == [BeginRead(key), PassJoin(key), EndRead(key), PassEnd];
    assert acts[1..][1..] == [PassJoin(key), EndRead(key), PassEnd];
    assert acts[1..][1..][1..] == [EndRead(key), PassEnd];
    assert acts[1..][1..][1..][1..] == [PassEnd];
    assert [PassEnd][1..] == [];
    assert After(s4, [PassEnd]) == Some(s.(covered := s.now));
    assert After(s3, [EndRead(key), PassEnd]) == Some(s.(covered := s.now));
    assert After(s2, [PassJoin(key), EndRead(key), PassEnd]) == Some(s.(covered := s.now));
    assert After(s1, [BeginRead(key), PassJoin(key), EndRead(key), PassEnd]) == Some(s.(covered := s.now));
  }

  /** When time passes only while no flight is open, flights take no time. */
  lemma {:induction false} QuietTicks(tr: seq<State>, acts: seq<Action>, i: nat, j: nat, key: string)
    requires |tr| == |acts| + 1 && i <= j < |tr| && OpenThroughout(tr, i, j, key)
    requires forall l :: 0 <= l < |acts| ==> Step(tr[l], acts[l]) == Some(tr[l + 1])
    requires forall l :: 0 <= l < |acts| && acts[l].Tick? ==> tr[l].flights == map[]
    ensures tr[j].now == tr[i].now
    decreases j
  {
    if i < j {
      assert OpenThroughout(tr, i, j - 1, key);
      QuietTicks(tr, acts, i, j - 1, key);
      assert key in tr[j - 1].flights && Step(tr[j - 1], acts[j - 1]) == Some(tr[j]);
    }
  }

  /** A flight that succeeds is prompt, and takes no time. */
  lemma StepsArePrompt(s: State, key: string, ct: CertType, o: IssueOptions, at: Moment)
    requires s.held.Ready() && !at.fails && (o.validity.Some? ==> o.validity.value > RENEW_BEFORE)
    ensures forall a :: a in Steps(s, key, ct, o, at) ==> Prompt(a) && !a.Tick?
  {
    StepsOfFlight(s, key, ct, o, at);
  }

  /** The failing family is reachable: a prompt run, in which no flight takes any time, whose one
      pass joins a read, completes, and leaves behind a certificate with twenty seconds left
      although the pass has only just begun. */
  lemma FreshnessFailsAfterJoinedRead() returns (tr: seq<State>, acts: seq<Action>)
    ensures PromptRun(tr, acts, 0) && !SkipsHarmless(tr, acts, 0)
    ensures var last := tr[|acts|];
      last.covered == last.now && "k" in last.cache && last.cache["k"].expiration - last.now == 20 * SECOND
  {
    var client := IssuerClient([], [], Echo);
    var event := RootEvent(Added("root", "td", Active), Ok(client));
    var s := State(0, Held(None, None), map[], map[], [], None, 0, Validity(40 * SECOND, 40 * SECOND));
    var ready := s.(held := AfterEvent(s.held, event.event, event.client));
    var at := Moment(0, 0, false, 0);
    var steps := Steps(ready, "k", Service, NO_OPTIONS, at);
    var skip := [PassBegin, BeginRead("k"), PassJoin("k"), EndRead("k"), PassEnd];
    var issued := IssueThenWait(s, ready, event, at, steps, skip);
    acts := ([event] + steps) + ([Tick(20 * SECOND)] + skip);
    tr := Trace(s, acts);
    TraceIsRun(s, acts);
    TraceAt(s, [event] + steps, [Tick(20 * SECOND)] + skip);
    StepsArePrompt(ready, "k", Service, NO_OPTIONS, at);
    forall l | 0 <= l < |acts| ensures Prompt(acts[l]) && (acts[l].Tick? ==> l == |[event] + steps|) {
      if l < |[event] + steps| {
        assert acts[l] in [event] + steps;
      } else {
        assert acts[l] in [Tick(20 * SECOND)] + skip;
      }
    }
    forall i: nat, j: nat, key | i <= j < |tr| && OpenThroughout(tr, i, j, key) ensures tr[j].now - tr[i].now <= 0 {
      QuietTicks(tr, acts, i, j, key);
    }
    FreshExactlyWhenSkipsHarmless(tr, acts, 0);
  }

  /** The run of the lemma above, in three parts: a first issue, a wait, a pass that joins a read. */
  lemma IssueThenWait(s: State, ready: State, event: Action, at: Moment, steps: seq<Action>, skip: seq<Action>)
    returns (issued: State)
    requires s.cache == map[] && s.flights == map[] && s.pass == None && s.now == 0
    requires s.validity == Validity(40 * SECOND, 40 * SECOND)
    requires Step(s, event) == Some(ready) && ready == s.(held := ready.held) && ready.held.Ready()
    requires at == Moment(0, 0, false, 0) && steps == Steps(ready, "k", Service, NO_OPTIONS, at)
    requires skip == [PassBegin, BeginRead("k"), PassJoin("k"), EndRead("k"), PassEnd]
    ensures After(s, [event] + steps) == Some(issued) && issued.flights == map[]
    ensures var end := issued.(now := 20 * SECOND, covered := 20 * SECOND);
      && After(s, [event] + steps + ([Tick(20 * SECOND)] + skip)) == Some(end)
      && "k" in end.cache && end.cache["k"].expiration == 40 * SECOND
  {
    issued := Issued(ready, "k", Service, NO_OPTIONS, at);
    AfterOne(s, event, steps);
    UninterruptedFlightIsIssue(ready, "k", Service, NO_OPTIONS, at);
    AfterCat(s, [event] + steps, [Tick(20 * SECOND)] + skip);
    AfterOne(issued, Tick(20 * SECOND), skip);
    assert issued.cache.Keys == {"k"};
    JoinedReadSkipsTheCheck(issued.(now := 20 * SECOND), "k");
  }
}
