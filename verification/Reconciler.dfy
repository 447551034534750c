/**
 The connector's cache controller (pkg/connector/cache.go): a level-triggered
 reconciliation loop. Informer notifications go into a work queue; the worker
 takes an event, looks its key up in the informer store, and applies what it
 finds downstream, retrying a bounded number of times.
 */
module Reconciler {
  import opened Prelude
  import opened WorkQueue

  const MAX_RETRIES: nat := 5

  /** What the worker is doing with the event it has taken. */
  datatype Worker =
    | Idle
    | Got(e: Event)
    | Looked(e: Event, item: Option<nat>)
    | Finishing(e: Event)

  /** `dropped` holds the keys whose last attempt was given up after the retries ran out. */
  datatype State = State(
    store: map<string, nat>,
    pending: seq<Event>,
    q: Queue,
    worker: Worker,
    view: map<string, nat>,
    dropped: set<string>)

  datatype Action =
    | Upserted(key: string, obj: nat)
    | Deleted(key: string)
    | Resync(key: string)
    | Deliver
    | Expire(e: Event)
    | Take
    | Lookup
    | LookupFails
    | Apply
    | ApplyFails(left: Option<nat>)
    | Finish

  function Find<V>(m: map<string, V>, key: string): Option<V> {
    if key in m then Some(m[key]) else None
  }

  /** `m` with `key` mapped to `item`, or removed. */
  function Put(m: map<string, nat>, key: string, item: Option<nat>): map<string, nat> {
    if item.Some? then m[key := item.value] else m - {key}
  }

  /** After a failed attempt: retry, or give up once the retries are used. */
  function RetryOrDrop(s: State, e: Event): State {
    if NumRequeues(s.q, e) < MAX_RETRIES then s.(q := Retried(s.q, e), worker := Finishing(e))
    else s.(q := Forgotten(s.q, e), worker := Finishing(e), dropped := s.dropped + {e.key})
  }

  /** The state after `a`, or nothing when `a` is not possible. The store changes before the
      notification is sent; a failed attempt may leave anything downstream for its key. */
  function Step(s: State, a: Action): Option<State> {
    match a
    case Upserted(key, obj) => Some(s.(store := s.store[key := obj], pending := s.pending + [Event(key, obj)]))
    case Deleted(key) =>
      if key !in s.store then None
      else Some(s.(store := s.store - {key}, pending := s.pending + [Event(key, s.store[key])]))
    case Resync(key) =>
      if key !in s.store then None else Some(s.(pending := s.pending + [Event(key, s.store[key])]))
    case Deliver =>
      if s.pending == [] then None else Some(s.(q := Added(s.q, s.pending[0]), pending := s.pending[1..]))
    case Expire(e) =>
      if e !in s.q.waiting then None else Some(s.(q := Expired(s.q, e)))
    case Take =>
      if !s.worker.Idle? || s.q.items == [] then None
      else Some(s.(q := Taken(s.q), worker := Got(s.q.items[0])))
    case Lookup =>
      if !s.worker.Got? then None else Some(s.(worker := Looked(s.worker.e, Find(s.store, s.worker.e.key))))
    case LookupFails =>
      if !s.worker.Got? then None else Some(RetryOrDrop(s, s.worker.e))
    case Apply =>
      if !s.worker.Looked? then None
      else
        var Looked(e, item) := s.worker;
        Some(s.(view := Put(s.view, e.key, item), q := Forgotten(s.q, e), worker := Finishing(e),
                dropped := s.dropped - {e.key}))
    case ApplyFails(left) =>
      if !s.worker.Looked? then None
      else Some(RetryOrDrop(s.(view := Put(s.view, s.worker.e.key, left)), s.worker.e))
    case Finish =>
      if !s.worker.Finishing? then None
      else Some(s.(q := Finished(s.q, s.worker.e), worker := Idle))
  }

  ghost predicate Initial(s: State) {
    s == State(map[], [], EMPTY_QUEUE, Idle, map[], {})
  }

  ghost predicate IsRun(tr: seq<State>, acts: seq<Action>) {
    && |tr| == |acts| + 1
    && forall i :: 0 <= i < |acts| ==> Step(tr[i], acts[i]) == Some(tr[i + 1])
  }

  // ---------------------------------------------------------------------
  // Safety: nothing is forgotten

  function Busy(w: Worker): set<Event> {
    if w.Idle? then {} else {w.e}
  }

  /** An event for `key` is still on its way, apart from the one the worker holds. */
  ghost predicate Coming(s: State, key: string) {
    exists e: Event :: e.key == key && (e in s.pending || e in s.q.dirty || e in s.q.waiting)
  }

  ghost predicate InProcess(s: State, key: string) {
    (s.worker.Got? || s.worker.Looked?) && s.worker.e.key == key
  }

  /** What the worker has looked up is current, or an event will bring it up to date. */
  ghost predicate LookedCurrent(s: State) {
    s.worker.Looked? ==>
      s.worker.item == Find(s.store, s.worker.e.key) || Coming(s, s.worker.e.key)
  }

  /** For each key: downstream agrees with the store, or an event is pending, queued, in process
      or awaiting retry, or the last attempt was given up. */
  ghost predicate Converging(s: State) {
    forall key: string :: Settled(s, key) || Coming(s, key) || InProcess(s, key)
  }

  ghost predicate Settled(s: State, key: string) {
    Find(s.view, key) == Find(s.store, key) || key in s.dropped
  }

  /** The event whose attempt is under way. */
  function Attempting(w: Worker): set<Event> {
    if w.Got? || w.Looked? then {w.e} else {}
  }

  /** Retries are counted only for events still to be attempted, and never beyond the limit. */
  ghost predicate FailuresAccounted(s: State) {
    && s.q.failures.Keys <= s.q.dirty + s.q.waiting + Attempting(s.worker)
    && forall e :: e in s.q.failures ==> s.q.failures[e] <= MAX_RETRIES
  }

  ghost predicate QueueInvariant(s: State) {
    Sound(s.q) && s.q.processing == Busy(s.worker) && FailuresAccounted(s)
  }

  ghost predicate Inv(s: State) {
    QueueInvariant(s) && LookedCurrent(s) && Converging(s)
  }

  lemma ProcessingStep(s: State, a: Action, s': State)
    requires Step(s, a) == Some(s') && s.q.processing == Busy(s.worker)
    ensures s'.q.processing == Busy(s'.worker)
  {
  }

  /** Every step leaves the queue as it is, or uses it by one of its own operations. */
  lemma QueueStep(s: State, a: Action, s': State) returns (e: Event)
    requires Step(s, a) == Some(s') && s.q.processing == Busy(s.worker)
    ensures s'.q == s.q || s'.q == Added(s.q, e) || s'.q == Expired(s.q, e) || s'.q == Forgotten(s.q, e) ||
      s'.q == Retried(s.q, e) || (s.q.items != [] && s'.q == Taken(s.q)) ||
        (e in s.q.processing && s'.q == Finished(s.q, e))
  {
    e := *;
    if a.Deliver? {
      e := s.pending[0];
    } else if a.Expire? {
      e := a.e;
    } else if !s.worker.Idle? {
      e := s.worker.e;
    }
  }

  lemma SoundStep(s: State, a: Action, s': State)
    requires Step(s, a) == Some(s') && Sound(s.q) && s.q.processing == Busy(s.worker)
    ensures Sound(s'.q) && s'.q.processing == Busy(s'.worker)
  {
    var e := QueueStep(s, a, s');
    QueueStaysSound(s.q, e);
    ProcessingStep(s, a, s');
  }

  lemma FailuresAccountedStep(s: State, a: Action, s': State)
    requires Step(s, a) == Some(s') && FailuresAccounted(s)
    ensures FailuresAccounted(s')
  {
  }

  /** An event on its way stays on its way until the worker takes it. */
  lemma ComingStays(s: State, a: Action, s': State, key: string)
    requires Step(s, a) == Some(s') && Coming(s, key)
    ensures Coming(s', key) || (a == Take && InProcess(s', key))
  {
    var e: Event :| e.key == key && (e in s.pending || e in s.q.dirty || e in s.q.waiting);
    if a == Deliver && e in s.pending {
      assert e == s.pending[0] || e in s.pending[1..];
    }
    if !(a == Take && e == s.q.items[0]) {
      assert e in s'.pending || e in s'.q.dirty || e in s'.q.waiting;
    }
  }

  /** A change in the store is announced in the same step. */
  lemma StoreChangeIsComing(s: State, a: Action, s': State, key: string)
    requires Step(s, a) == Some(s') && Find(s'.store, key) != Find(s.store, key)
    ensures Coming(s', key)
  {
    assert s'.pending[|s.pending|] in s'.pending;
  }

  lemma LookedCurrentStep(s: State, a: Action, s': State)
    requires Step(s, a) == Some(s') && LookedCurrent(s)
    ensures LookedCurrent(s')
  {
    if s'.worker.Looked? {
      var key := s'.worker.e.key;
      if Find(s'.store, key) != Find(s.store, key) {
        StoreChangeIsComing(s, a, s', key);
      } else if s.worker == s'.worker && Coming(s, key) {
        ComingStays(s, a, s', key);
      }
    }
  }

  lemma KeyConvergesStep(s: State, a: Action, s': State, key: string)
    requires Step(s, a) == Some(s') && Inv(s)
    ensures Settled(s', key) || Coming(s', key) || InProcess(s', key)
  {
    if Coming(s, key) {
      ComingStays(s, a, s', key);
    } else if Find(s'.store, key) != Find(s.store, key) {
      StoreChangeIsComing(s, a, s', key);
    } else if InProcess(s, key) && !InProcess(s', key) {
      WorkerMovesOn(s, a, s');
    }
  }

  /** When the worker lets go of an event, its key is settled or the event awaits a retry. */
  lemma WorkerMovesOn(s: State, a: Action, s': State)
    requires Step(s, a) == Some(s') && LookedCurrent(s)
    requires (s.worker.Got? || s.worker.Looked?) && !(s'.worker.Got? || s'.worker.Looked?)
    ensures Settled(s', s.worker.e.key) || Coming(s', s.worker.e.key)
  {
    var e := s.worker.e;
    if a == Apply {
      if Coming(s, e.key) { ComingStays(s, a, s', e.key); }
    } else if NumRequeues(s.q, e) < MAX_RETRIES {
      assert e in s'.q.waiting;
    }
  }

  lemma InvStep(s: State, a: Action, s': State)
    requires Step(s, a) == Some(s') && Inv(s)
    ensures Inv(s')
  {
    SoundStep(s, a, s');
    FailuresAccountedStep(s, a, s');
    LookedCurrentStep(s, a, s');
    forall key: string ensures Settled(s', key) || Coming(s', key) || InProcess(s', key) {
      KeyConvergesStep(s, a, s', key);
    }
  }

  /** Level-triggered convergence holds after every step of every run. */
  lemma {:induction false} AlwaysConverging(tr: seq<State>, acts: seq<Action>, i: nat)
    requires IsRun(tr, acts) && Initial(tr[0]) && i < |tr|
    ensures Inv(tr[i])
  {
    if i > 0 {
      AlwaysConverging(tr, acts, i - 1);
      assert Step(tr[i - 1], acts[i - 1]) == Some(tr[i]);
      InvStep(tr[i - 1], acts[i - 1], tr[i]);
    }
  }

  /** How often `e` was requeued between two points of a run. */
  function Requeued(tr: seq<State>, acts: seq<Action>, i: nat, j: nat, e: Event): nat
    requires |tr| == |acts| + 1 && i <= j < |tr|
    decreases j
  {
    if i == j then 0
    else Requeued(tr, acts, i, j - 1, e) + if IsRequeue(tr[j - 1], acts[j - 1], e) then 1 else 0
  }

  predicate IsAttempt(s: State, a: Action, e: Event) {
    (s.worker.Got? || s.worker.Looked?) && s.worker.e == e && (a.LookupFails? || a.Apply? || a.ApplyFails?)
  }

  predicate IsRequeue(s: State, a: Action, e: Event) {
    IsAttempt(s, a, e) && !a.Apply? && NumRequeues(s.q, e) < MAX_RETRIES
  }

  /** The attempt succeeds or is given up, and the count is reset. */
  predicate IsForget(s: State, a: Action, e: Event) {
    IsAttempt(s, a, e) && (a.Apply? || NumRequeues(s.q, e) >= MAX_RETRIES)
  }

  lemma CountStep(s: State, a: Action, s': State, e: Event)
    requires Step(s, a) == Some(s') && !IsForget(s, a, e)
    ensures NumRequeues(s'.q, e) == NumRequeues(s.q, e) + if IsRequeue(s, a, e) then 1 else 0
  {
  }

  /** The step at `l` counts `e` up exactly when it requeues it. */
  ghost predicate CountsUp(tr: seq<State>, acts: seq<Action>, l: nat, e: Event)
    requires |tr| == |acts| + 1 && l < |acts|
  {
    NumRequeues(tr[l + 1].q, e) == NumRequeues(tr[l].q, e) + if IsRequeue(tr[l], acts[l], e) then 1 else 0
  }

  lemma {:induction false} RequeuesAreCounted(tr: seq<State>, acts: seq<Action>, i: nat, j: nat, e: Event)
    requires |tr| == |acts| + 1 && i <= j < |tr|
    requires forall l :: i <= l < j ==> CountsUp(tr, acts, l, e)
    ensures NumRequeues(tr[j].q, e) == NumRequeues(tr[i].q, e) + Requeued(tr, acts, i, j, e)
    decreases j
  {
    if i < j {
      RequeuesAreCounted(tr, acts, i, j - 1, e);
      assert CountsUp(tr, acts, j - 1, e);
    }
  }

  /** How often in a row attempts at `e` have failed before `i`: a success starts afresh, and so does the
      failure after five retries. */
  ghost function FailuresBefore(tr: seq<State>, acts: seq<Action>, i: nat, e: Event): nat
    requires |tr| == |acts| + 1 && i < |tr|
  {
    if i == 0 then 0
    else
      var n := FailuresBefore(tr, acts, i - 1, e);
      if !IsAttempt(tr[i - 1], acts[i - 1], e) then n
      else if acts[i - 1].Apply? || n == 5 then 0
      else n + 1
  }

  lemma FailureStep(s: State, a: Action, s': State, e: Event)
    requires Step(s, a) == Some(s')
    ensures NumRequeues(s'.q, e) ==
      if !IsAttempt(s, a, e) then NumRequeues(s.q, e)
      else if a.Apply? || NumRequeues(s.q, e) >= 5 then 0
      else NumRequeues(s.q, e) + 1
  {
  }

  lemma {:induction false} FailuresAreCounted(tr: seq<State>, acts: seq<Action>, i: nat, e: Event)
    requires IsRun(tr, acts) && Initial(tr[0]) && i < |tr|
    ensures NumRequeues(tr[i].q, e) == FailuresBefore(tr, acts, i, e) <= 5
  {
    if i > 0 {
      FailuresAreCounted(tr, acts, i - 1, e);
      assert Step(tr[i - 1], acts[i - 1]) == Some(tr[i]);
      FailureStep(tr[i - 1], acts[i - 1], tr[i], e);
    }
  }

  /** The step at `j` is an attempt at an event for `key` that fails for the sixth time in a row. */
  ghost predicate GivesUp(tr: seq<State>, acts: seq<Action>, j: nat, key: string)
    requires |tr| == |acts| + 1 && j < |acts|
  {
    exists e: Event :: e.key == key && IsAttempt(tr[j], acts[j], e) && !acts[j].Apply? &&
      FailuresBefore(tr, acts, j, e) == 5
  }

  /** The step applies what was looked up for `key`. */
  predicate Applies(s: State, a: Action, key: string) {
    a.Apply? && s.worker.Looked? && s.worker.e.key == key
  }

  lemma DroppedStep(s: State, a: Action, s': State, key: string)
    requires Step(s, a) == Some(s')
    ensures key in s'.dropped <==>
      (key in s.dropped && !Applies(s, a, key)) ||
      exists e: Event :: e.key == key && IsAttempt(s, a, e) && !a.Apply? && NumRequeues(s.q, e) >= 5
  {
    if s.worker.Got? || s.worker.Looked? {
      assert forall e: Event :: IsAttempt(s, a, e) ==> e == s.worker.e;
    }
  }

  lemma GivesUpExactly(tr: seq<State>, acts: seq<Action>, j: nat, key: string)
    requires IsRun(tr, acts) && Initial(tr[0]) && j < |acts|
    ensures GivesUp(tr, acts, j, key) <==>
      exists e: Event :: e.key == key && IsAttempt(tr[j], acts[j], e) && !acts[j].Apply? && NumRequeues(tr[j].q, e) >= 5
  {
    forall e ensures NumRequeues(tr[j].q, e) == FailuresBefore(tr, acts, j, e) <= 5 { FailuresAreCounted(tr, acts, j,
      e); }
  }

  /** A key counts as given up exactly when an event for it failed six times in a row, that is after five
      retries, and nothing was applied for the key since. */
  lemma {:induction false} GivenUpExactly(tr: seq<State>, acts: seq<Action>, i: nat, key: string)
    requires IsRun(tr, acts) && Initial(tr[0]) && i < |tr|
    ensures key in tr[i].dropped <==>
      exists j :: 0 <= j < i && GivesUp(tr, acts, j, key) && forall l :: j < l < i ==> !Applies(tr[l], acts[l], key)
  {
    if i > 0 {
      var n := i - 1;
      GivenUpExactly(tr, acts, n, key);
      assert Step(tr[n], acts[n]) == Some(tr[i]);
      DroppedStep(tr[n], acts[n], tr[i], key);
      GivesUpExactly(tr, acts, n, key);
      GivenUpNext(tr, acts, n, key);
    }
  }

  lemma GivenUpNext(tr: seq<State>, acts: seq<Action>, n: nat, key: string)
    requires |tr| == |acts| + 1 && n < |acts|
    ensures
      (exists j :: 0 <= j < n + 1 && GivesUp(tr, acts, j, key) && forall l :: j < l < n + 1 ==>
        !Applies(tr[l], acts[l], key))
      <==>
      GivesUp(tr, acts, n, key) || (!Applies(tr[n], acts[n], key) &&
        exists j :: 0 <= j < n && GivesUp(tr, acts, j, key) && forall l :: j < l < n ==> !Applies(tr[l], acts[l], key))
  {
    if j :| 0 <= j < n && GivesUp(tr, acts, j, key) && forall l :: j < l < n ==> !Applies(tr[l], acts[l], key) {
      if !Applies(tr[n], acts[n], key) { assert forall l :: j < l < n + 1 ==> !Applies(tr[l], acts[l], key); }
    }
  }

  /** Any other failed attempt is followed by a retry. */
  lemma {:induction false} FailureIsRetried(tr: seq<State>, acts: seq<Action>, j: nat, e: Event)
    requires IsRun(tr, acts) && Initial(tr[0]) && j < |acts| && IsAttempt(tr[j], acts[j], e) && !acts[j].Apply?
    ensures FailuresBefore(tr, acts, j, e) < 5 ==> e in tr[j + 1].q.waiting
  {
    FailuresAreCounted(tr, acts, j, e);
    assert Step(tr[j], acts[j]) == Some(tr[j + 1]);
  }

  // ---------------------------------------------------------------------
  // The queue is fair

  function TakesBetween(acts: seq<Action>, i: nat, j: nat): nat
    requires i <= j <= |acts|
    decreases j
  {
    if i == j then 0 else TakesBetween(acts, i, j - 1) + if acts[j - 1].Take? then 1 else 0
  }

  lemma ItemsStep(s: State, a: Action, s': State)
    requires Step(s, a) == Some(s')
    ensures if a.Take? then s.q.items != [] && s'.q.items == s.q.items[1..] else s.q.items <= s'.q.items
  {
  }

  lemma PrefixMoves<T>(first: seq<T>, t: nat, items: seq<T>, items': seq<T>, take: bool)
    requires t < |first| || (t == |first| && !take)
    requires first[t..] <= items && (if take then items != [] && items' == items[1..] else items <= items')
    ensures first[t + if take then 1 else 0..] <= items'
  {
    if take { assert first[t + 1..] == first[t..][1..]; }
  }

  /** First come, first served: after `t` events have been taken, those that were queued behind them
      are first in line, in the same order. */
  lemma {:induction false} FirstComeFirstServed(tr: seq<State>, acts: seq<Action>, i: nat, j: nat)
    requires IsRun(tr, acts) && i <= j < |tr| && TakesBetween(acts, i, j) <= |tr[i].q.items|
    ensures tr[i].q.items[TakesBetween(acts, i, j)..] <= tr[j].q.items
    decreases j
  {
    if i < j {
      FirstComeFirstServed(tr, acts, i, j - 1);
      assert Step(tr[j - 1], acts[j - 1]) == Some(tr[j]);
      ItemsStep(tr[j - 1], acts[j - 1], tr[j]);
      PrefixMoves(tr[i].q.items, TakesBetween(acts, i, j - 1), tr[j - 1].q.items, tr[j].q.items, acts[j - 1].Take?);
    }
  }

  /** Between two resets of its count an event is requeued at most five times. */
  lemma {:induction false} AtMostFiveRequeues(tr: seq<State>, acts: seq<Action>, i: nat, j: nat, e: Event)
    requires IsRun(tr, acts) && Initial(tr[0]) && i <= j < |tr|
    requires forall l :: i <= l < j ==> !IsForget(tr[l], acts[l], e)
    ensures Requeued(tr, acts, i, j, e) <= MAX_RETRIES
  {
    AlwaysConverging(tr, acts, j);
    forall l | i <= l < j ensures CountsUp(tr, acts, l, e) {
      CountStep(tr[l], acts[l], tr[l + 1], e);
    }
    RequeuesAreCounted(tr, acts, i, j, e);
  }

  // ---------------------------------------------------------------------
  // Progress: without changes the queue drains

  predicate Quiet(a: Action) {
    !a.Upserted? && !a.Deleted? && !a.Resync?
  }

  /** The sum of all retry counts. */
  ghost function Total(m: map<Event, nat>): nat
    decreases |m.Keys|
  {
    if m == map[] then 0
    else
      var e :| e in m;
      assert (m - {e}).Keys == m.Keys - {e};
      m[e] + Total(m - {e})
  }

  lemma {:induction false} TotalRemove(m: map<Event, nat>, e: Event)
    requires e in m
    ensures Total(m) == m[e] + Total(m - {e})
    decreases |m.Keys|
  {
    var first :| first in m && Total(m) == m[first] + Total(m - {first});
    if first != e {
      assert (m - {first}).Keys == m.Keys - {first};
      assert (m - {e}).Keys == m.Keys - {e};
      TotalRemove(m - {first}, e);
      TotalRemove(m - {e}, first);
      assert m - {first} - {e} == m - {e} - {first};
    }
  }

  lemma {:induction false} TotalForget(m: map<Event, nat>, e: Event)
    ensures Total(m) == Total(m - {e}) + if e in m then m[e] else 0
  {
    if e in m { TotalRemove(m, e); } else { assert m - {e} == m; }
  }

  lemma TotalPut(m: map<Event, nat>, e: Event, n: nat)
    ensures Total(m[e := n]) == Total(m - {e}) + n
  {
    TotalRemove(m[e := n], e);
    assert m[e := n] - {e} == m - {e};
  }

  lemma {:induction false} TotalBounded(m: map<Event, nat>)
    requires forall e :: e in m ==> m[e] <= MAX_RETRIES
    ensures Total(m) <= MAX_RETRIES * |m.Keys|
    decreases |m.Keys|
  {
    if m != map[] {
      var e :| e in m;
      TotalRemove(m, e);
      assert (m - {e}).Keys == m.Keys - {e};
      TotalBounded(m - {e});
    }
  }

  /** The attempts that may still have to be made, one for each place an event can be in. */
  function Tokens(s: State): nat {
    |s.pending| + |s.q.dirty| + |s.q.waiting| + |Attempting(s.worker)|
  }

  function Rank(w: Worker): nat {
    match w
    case Idle => 0
    case Finishing(_) => 1
    case Looked(_, _) => 2
    case Got(_) => 3
  }

  /** Each token may be retried; within an attempt events only move towards the worker. */
  ghost function Measure(s: State): int {
    6 * (6 * Tokens(s) - Total(s.q.failures))
    + 5 * |s.pending| + 5 * |s.q.waiting| + 4 * |s.q.dirty| + Rank(s.worker)
  }

  lemma MeasureNonNegative(s: State)
    requires FailuresAccounted(s)
    ensures Measure(s) >= 0
  {
    var all := s.q.dirty + s.q.waiting + Attempting(s.worker);
    TotalBounded(s.q.failures);
    SubsetSize(s.q.failures.Keys, all);
    assert |all| <= |s.q.dirty| + |s.q.waiting| + |Attempting(s.worker)|;
  }

  lemma {:induction false} SubsetSize<T>(a: set<T>, b: set<T>)
    requires a <= b
    ensures |a| <= |b|
    decreases a
  {
    if a != {} {
      var x :| x in a;
      SubsetSize(a - {x}, b - {x});
    }
  }

  lemma RetryOrDropDecreases(s: State, e: Event)
    requires s.worker.Got? || s.worker.Looked?
    requires s.worker.e == e && FailuresAccounted(s)
    ensures Measure(RetryOrDrop(s, e)) < Measure(s)
  {
    TotalForget(s.q.failures, e);
    if NumRequeues(s.q, e) < MAX_RETRIES { RetryDecreases(s, e); }
  }

  lemma RetryDecreases(s: State, e: Event)
    requires s.worker.Got? || s.worker.Looked?
    ensures Measure(s.(q := Retried(s.q, e), worker := Finishing(e))) < Measure(s)
  {
    TotalForget(s.q.failures, e);
    TotalPut(s.q.failures, e, NumRequeues(s.q, e) + 1);
    assert |s.q.waiting + {e}| <= |s.q.waiting| + 1;
  }

  /** Queueing an event moves one token and never makes one. */
  lemma DeliverDecreases(s: State)
    requires s.pending != []
    ensures Measure(s.(q := Added(s.q, s.pending[0]), pending := s.pending[1..])) < Measure(s)
  {
    assert |Added(s.q, s.pending[0]).dirty| <= |s.q.dirty| + 1;
  }

  lemma ExpireDecreases(s: State, e: Event)
    requires e in s.q.waiting
    ensures Measure(s.(q := Expired(s.q, e))) < Measure(s)
  {
    assert |s.q.waiting - {e}| == |s.q.waiting| - 1;
    assert |Expired(s.q, e).dirty| <= |s.q.dirty| + 1;
  }

  lemma TakeDecreases(s: State)
    requires s.worker.Idle? && s.q.items != [] && Sound(s.q)
    ensures Measure(s.(q := Taken(s.q), worker := Got(s.q.items[0]))) < Measure(s)
  {
    var e := s.q.items[0];
    assert e in s.q.items && e in s.q.dirty;
    assert |s.q.dirty - {e}| == |s.q.dirty| - 1;
  }

  lemma QuietStepDecreases(s: State, a: Action, s': State)
    requires Step(s, a) == Some(s') && Quiet(a) && QueueInvariant(s)
    ensures Measure(s') < Measure(s)
  {
    match a
    case Deliver => DeliverDecreases(s);
    case Expire(e) => ExpireDecreases(s, e);
    case Take => TakeDecreases(s);
    case LookupFails => RetryOrDropDecreases(s, s.worker.e);
    case ApplyFails(left) => RetryOrDropDecreases(s.(view := Put(s.view, s.worker.e.key, left)), s.worker.e);
    case Apply => TotalForget(s.q.failures, s.worker.e);
    case Lookup =>
    case Finish =>
  }

  /** Nothing is on its way and the worker is idle. */
  predicate Drained(s: State) {
    s.pending == [] && s.q.items == [] && s.q.waiting == {} && s.worker.Idle?
  }

  /** Short of that, some step is always possible without any change in the store. */
  lemma SomeStepPossible(s: State) returns (a: Action)
    requires !Drained(s)
    ensures Quiet(a) && Step(s, a).Some?
  {
    if s.pending != [] { a := Deliver; }
    else if s.worker.Got? { a := Lookup; }
    else if s.worker.Looked? { a := Apply; }
    else if s.worker.Finishing? { a := Finish; }
    else if s.q.items != [] { a := Take; }
    else { var e :| e in s.q.waiting; a := Expire(e); }
  }

  lemma {:induction false} QuietRunIsBounded(tr: seq<State>, acts: seq<Action>, i: nat)
    requires IsRun(tr, acts) && Inv(tr[0]) && i < |tr|
    requires forall j :: 0 <= j < |acts| ==> Quiet(acts[j])
    ensures Inv(tr[i]) && i + Measure(tr[i]) <= Measure(tr[0])
  {
    if i > 0 {
      QuietRunIsBounded(tr, acts, i - 1);
      assert Step(tr[i - 1], acts[i - 1]) == Some(tr[i]);
      InvStep(tr[i - 1], acts[i - 1], tr[i]);
      QuietStepDecreases(tr[i - 1], acts[i - 1], tr[i]);
    }
  }

  /** From any reachable state, a run without further changes is bounded in length; when it can go
      no further the queue is empty and downstream agrees with the store on every key that was
      not given up. */
  lemma QuietRunDrains(tr: seq<State>, acts: seq<Action>)
    requires IsRun(tr, acts) && Inv(tr[0])
    requires forall j :: 0 <= j < |acts| ==> Quiet(acts[j])
    ensures |acts| <= Measure(tr[0])
    ensures var last := tr[|acts|];
      (forall a :: Quiet(a) ==> Step(last, a).None?) ==>
        Drained(last) && forall key: string :: key !in last.dropped ==> Find(last.view, key) == Find(last.store, key)
  {
    QuietRunIsBounded(tr, acts, |acts|);
    var last := tr[|acts|];
    MeasureNonNegative(last);
    if !Drained(last) {
      var a := SomeStepPossible(last);
    } else {
      forall key: string | key !in last.dropped ensures Find(last.view, key) == Find(last.store, key) {
        assert !Coming(last, key) by { assert last.q.dirty == {} by { NothingDirty(last); } }
        assert Settled(last, key) || Coming(last, key) || InProcess(last, key);
      }
    }
  }

  lemma NothingDirty(s: State)
    requires QueueInvariant(s) && Drained(s)
    ensures s.q.dirty == {}
  {
    assert forall e :: e in s.q.dirty ==> e in s.q.items;
  }
}
