/**
 The race between nameservers in `Resolver.Lookup` (pkg/dns/resolver.go). The
 caller starts one goroutine per nameserver, waiting a tick between starts; the
 goroutines compete for a channel that holds one reply and never wait on it.
 */
module Resolver {
  import opened Prelude

  const SERVER_FAILURE: nat := 2

  /** How an exchange with a nameserver ends. */
  datatype Exchange = SocketError | Answer(rcode: nat)

  /** A reply worth sending: anything but an error or a server failure. */
  predicate Useful(x: Exchange) {
    x.Answer? && x.rcode != SERVER_FAILURE
  }

  datatype Routine = NotStarted | Querying | Sending(reply: Exchange) | Done(end: Exchange)

  datatype Message = Message(from: nat, rcode: nat)

  /** Where the caller is: about to start server `k`, waiting after starting `k`, or returned. */
  datatype Caller = Starting(k: nat) | Selecting(k: nat) | Returned(result: Result<Message>)

  datatype State = State(routines: seq<Routine>, slot: Option<Message>, caller: Caller)

  datatype Action =
    | Start
    | Receive
    | Tick
    | Collect
    | Answered(i: nat, x: Exchange)
    | TrySend(i: nat)

  /** All started goroutines have called `wg.Done`. */
  predicate AllDone(s: State) {
    forall i :: 0 <= i < |s.routines| ==> s.routines[i].Done?
  }

  function Step(s: State, a: Action): Option<State> {
    match a
    case Start =>
      if !s.caller.Starting? || s.caller.k >= |s.routines| then None
      else Some(s.(routines := s.routines[s.caller.k := Querying], caller := Selecting(s.caller.k)))
    case Receive =>
      if !s.caller.Selecting? || s.slot.None? then None
      else Some(s.(slot := None, caller := Returned(Ok(s.slot.value))))
    case Tick =>
      if !s.caller.Selecting? then None else Some(s.(caller := Starting(s.caller.k + 1)))
    case Collect =>
      if !s.caller.Starting? || s.caller.k < |s.routines| || !AllDone(s) then None
      else Some(s.(slot := None, caller := Returned(if s.slot.Some? then Ok(s.slot.value) else Err)))
    case Answered(i, x) =>
      if i >= |s.routines| || !s.routines[i].Querying? then None
      else Some(s.(routines := s.routines[i := if Useful(x) then Sending(x) else Done(x)]))
    case TrySend(i) =>
      if i >= |s.routines| || !s.routines[i].Sending? || !s.routines[i].reply.Answer? then None
      else
        var x := s.routines[i].reply;
        Some(s.(routines := s.routines[i := Done(x)],
                slot := if s.slot.None? then Some(Message(i, x.rcode)) else s.slot))
  }

  ghost predicate Initial(s: State) {
    && (forall i :: 0 <= i < |s.routines| ==> s.routines[i] == NotStarted)
    && s.slot == None && s.caller == Starting(0)
  }

  ghost predicate IsRun(tr: seq<State>, acts: seq<Action>) {
    && |tr| == |acts| + 1
    && Initial(tr[0])
    && forall i :: 0 <= i < |acts| ==> Step(tr[i], acts[i]) == Some(tr[i + 1])
  }

  /** A message stems from a queried nameserver that gave a useful answer. */
  predicate Genuine(s: State, m: Message) {
    m.from < |s.routines| && s.routines[m.from] == Done(Answer(m.rcode)) && m.rcode != SERVER_FAILURE
  }

  /** Servers are started in order, and none beyond the caller's position. */
  ghost predicate StartedInOrder(s: State) {
    match s.caller
    case Starting(k) =>
      k <= |s.routines| && forall i :: 0 <= i < |s.routines| ==> (i < k <==> !s.routines[i].NotStarted?)
    case Selecting(k) =>
      k < |s.routines| && forall i :: 0 <= i < |s.routines| ==> (i <= k <==> !s.routines[i].NotStarted?)
    case Returned(_) => true
  }

  ghost predicate Inv(s: State) {
    && StartedInOrder(s)
    && (forall i :: 0 <= i < |s.routines| && s.routines[i].Sending? ==> Useful(s.routines[i].reply))
    && (s.slot.Some? ==> Genuine(s, s.slot.value))
    // a useful reply is never lost before the caller has returned
    && (!s.caller.Returned? ==>
          forall i :: 0 <= i < |s.routines| && s.routines[i].Done? && Useful(s.routines[i].end) ==> s.slot.Some?)
    && (s.caller.Returned? ==>
          match s.caller.result
          case Ok(m) => Genuine(s, m)
          case Err => forall i :: 0 <= i < |s.routines| ==> s.routines[i].Done? && !Useful(s.routines[i].end))
  }

  lemma InvStep(s: State, a: Action, s': State)
    requires Step(s, a) == Some(s') && Inv(s)
    ensures Inv(s')
  {
  }

  lemma {:induction false} InvAlways(tr: seq<State>, acts: seq<Action>, i: nat)
    requires IsRun(tr, acts) && i < |tr|
    ensures Inv(tr[i]) && |tr[i].routines| == |tr[0].routines|
  {
    if i > 0 {
      InvAlways(tr, acts, i - 1);
      assert Step(tr[i - 1], acts[i - 1]) == Some(tr[i]);
      InvStep(tr[i - 1], acts[i - 1], tr[i]);
    }
  }

  lemma UselessExactly(r: Routine)
    ensures r.Done? && !Useful(r.end) <==> r == Done(SocketError) || r == Done(Answer(2))
  {
  }

  /** In every schedule: a lookup succeeds only with the useful reply of a nameserver it queried,
      and it fails exactly when every nameserver was queried and erred or failed. */
  lemma LookupOutcome(tr: seq<State>, acts: seq<Action>, i: nat)
    requires IsRun(tr, acts) && i < |tr| && tr[i].caller.Returned?
    ensures var s := tr[i];
      && (s.caller.result.Ok? ==>
            var m := s.caller.result.value;
            m.from < |s.routines| && s.routines[m.from] == Done(Answer(m.rcode)) && m.rcode != 2)
      && (s.caller.result.Err? <==>
            forall j :: 0 <= j < |s.routines| ==>
              s.routines[j] == Done(SocketError) || s.routines[j] == Done(Answer(2)))
  {
    InvAlways(tr, acts, i);
    forall j | 0 <= j < |tr[i].routines|
      ensures tr[i].routines[j].Done? && !Useful(tr[i].routines[j].end) <==>
        tr[i].routines[j] == Done(SocketError) || tr[i].routines[j] == Done(Answer(2))
    {
      UselessExactly(tr[i].routines[j]);
    }
  }

  /** Goroutine `r` was the first to send, before `i`. */
  ghost predicate SentFirst(acts: seq<Action>, i: nat, r: nat)
    requires i <= |acts|
  {
    exists j :: 0 <= j < i && acts[j] == TrySend(r) && forall l :: 0 <= l < j ==> !acts[l].TrySend?
  }

  ghost predicate NoneSent(acts: seq<Action>, i: nat)
    requires i <= |acts|
  {
    forall l :: 0 <= l < i ==> !acts[l].TrySend?
  }

  /** Until the caller returns, the channel is empty or holds the first reply sent; that is what it gets. */
  ghost predicate FirstKept(s: State, acts: seq<Action>, i: nat)
    requires i <= |acts|
  {
    match s.caller
    case Returned(Ok(m)) => SentFirst(acts, i, m.from)
    case Returned(Err) => true
    case _ => if s.slot.Some? then SentFirst(acts, i, s.slot.value.from) else NoneSent(acts, i)
  }

  lemma SentNext(acts: seq<Action>, i: nat)
    requires i < |acts|
    ensures NoneSent(acts, i) && !acts[i].TrySend? ==> NoneSent(acts, i + 1)
    ensures NoneSent(acts, i) && acts[i].TrySend? ==> SentFirst(acts, i + 1, acts[i].i)
    ensures forall r :: SentFirst(acts, i, r) ==> SentFirst(acts, i + 1, r)
  {
  }

  lemma FirstKeptStep(s: State, a: Action, s': State, acts: seq<Action>, i: nat)
    requires i < |acts| && acts[i] == a && Step(s, a) == Some(s') && FirstKept(s, acts, i)
    ensures FirstKept(s', acts, i + 1)
  {
    SentNext(acts, i);
  }

  lemma {:induction false} FirstAlwaysKept(tr: seq<State>, acts: seq<Action>, i: nat)
    requires IsRun(tr, acts) && i < |tr|
    ensures FirstKept(tr[i], acts, i)
  {
    if i > 0 {
      FirstAlwaysKept(tr, acts, i - 1);
      assert Step(tr[i - 1], acts[i - 1]) == Some(tr[i]);
      FirstKeptStep(tr[i - 1], acts[i - 1], tr[i], acts, i - 1);
    }
  }

  /** A lookup that succeeds returns the reply that was sent first; later ones are dropped. */
  lemma FirstReplyWins(tr: seq<State>, acts: seq<Action>, i: nat)
    requires IsRun(tr, acts) && i < |tr| && tr[i].caller.Returned? && tr[i].caller.result.Ok?
    ensures SentFirst(acts, i, tr[i].caller.result.value.from)
  {
    FirstAlwaysKept(tr, acts, i);
  }

  /** No goroutine is ever held up by its send, even after the caller has gone. */
  lemma SendNeverBlocks(tr: seq<State>, acts: seq<Action>, i: nat, r: nat)
    requires IsRun(tr, acts) && i < |tr| && r < |tr[i].routines| && tr[i].routines[r].Sending?
    ensures Step(tr[i], TrySend(r)).Some? && Step(tr[i], TrySend(r)).value.routines[r].Done?
  {
    InvAlways(tr, acts, i);
  }

  // ---------------------------------------------------------------------
  // Every schedule ends

  function Weight(r: Routine): nat {
    match r
    case NotStarted => 3
    case Querying => 2
    case Sending(_) => 1
    case Done(_) => 0
  }

  function Weights(rs: seq<Routine>): nat {
    if rs == [] then 0 else Weights(rs[..|rs| - 1]) + Weight(rs[|rs| - 1])
  }

  function CallerWeight(s: State): nat {
    match s.caller
    case Starting(k) => if k <= |s.routines| then 2 * (|s.routines| - k) + 1 else 0
    case Selecting(k) => if k < |s.routines| then 2 * (|s.routines| - k) else 0
    case Returned(_) => 0
  }

  lemma {:induction false} WeightsUpdate(rs: seq<Routine>, i: nat, r: Routine)
    requires i < |rs|
    ensures Weights(rs[i := r]) == Weights(rs) - Weight(rs[i]) + Weight(r)
  {
    var n := |rs| - 1;
    if i < n {
      assert rs[i := r][..n] == rs[..n][i := r];
      WeightsUpdate(rs[..n], i, r);
    } else {
      assert rs[i := r][..n] == rs[..n];
    }
  }

  lemma StepDecreases(s: State, a: Action, s': State)
    requires Step(s, a) == Some(s') && Inv(s)
    ensures Weights(s'.routines) + CallerWeight(s') < Weights(s.routines) + CallerWeight(s)
  {
    match a
    case Start => WeightsUpdate(s.routines, s.caller.k, Querying);
    case Answered(i, x) => WeightsUpdate(s.routines, i, s'.routines[i]);
    case TrySend(i) => WeightsUpdate(s.routines, i, s'.routines[i]);
    case _ =>
  }

  lemma {:induction false} RunIsBounded(tr: seq<State>, acts: seq<Action>, i: nat)
    requires IsRun(tr, acts) && i < |tr|
    ensures i + Weights(tr[i].routines) + CallerWeight(tr[i]) <= 5 * |tr[0].routines| + 1
  {
    if i == 0 {
      WeightsInitial(tr[0].routines);
    } else {
      RunIsBounded(tr, acts, i - 1);
      InvAlways(tr, acts, i - 1);
      assert Step(tr[i - 1], acts[i - 1]) == Some(tr[i]);
      StepDecreases(tr[i - 1], acts[i - 1], tr[i]);
    }
  }

  lemma {:induction false} WeightsInitial(rs: seq<Routine>)
    requires forall i :: 0 <= i < |rs| ==> rs[i] == NotStarted
    ensures Weights(rs) == 3 * |rs|
  {
    if rs != [] { WeightsInitial(rs[..|rs| - 1]); }
  }

  /** The caller is never stuck: until it returns some step is possible, whatever the replies. */
  lemma CallerNeverStuck(tr: seq<State>, acts: seq<Action>, i: nat)
    requires IsRun(tr, acts) && i < |tr| && !tr[i].caller.Returned?
    ensures exists a :: Step(tr[i], a).Some?
  {
    InvAlways(tr, acts, i);
    var s := tr[i];
    if s.caller.Selecting? {
      assert Step(s, Tick).Some?;
    } else if s.caller.k < |s.routines| {
      assert Step(s, Start).Some?;
    } else if AllDone(s) {
      assert Step(s, Collect).Some?;
    } else {
      var r :| 0 <= r < |s.routines| && !s.routines[r].Done?;
      assert !s.routines[r].NotStarted?;
      if s.routines[r].Querying? { assert Step(s, Answered(r, SocketError)).Some?; }
      else { assert Step(s, TrySend(r)).Some?; }
    }
  }

  /** Every schedule is finite, with at most five steps per nameserver and one more. */
  lemma EveryScheduleEnds(tr: seq<State>, acts: seq<Action>)
    requires IsRun(tr, acts)
    ensures |acts| <= 5 * |tr[0].routines| + 1
  {
    RunIsBounded(tr, acts, |acts|);
  }
}
