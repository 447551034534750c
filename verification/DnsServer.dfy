/**
 Starting and stopping the local DNS proxy while requests are coming in
 (pkg/dns/server.go, and `DoTCP`, `DoUDP` and the receive loop of
 pkg/dns/handler.go). A request holds the handler's read lock from its check of
 `active` until its operation has been received; stopping takes the write lock,
 clears `active` and closes the channel.
 */
module DnsServer {
  import opened Prelude

  // ---------------------------------------------------------------------
  // The server as an object, one call at a time

  class Handler {
    var active: bool
    var closed: bool

    constructor ()
      ensures active && !closed
    {
      active, closed := true, false;
    }

    /** Closing a closed channel panics. */
    method Close()
      requires !closed
      modifies this
      ensures !active && closed
    {
      active := false;
      closed := true;
    }
  }

  class Server {
    var running: bool
    var handler: Handler?

    /** A running server has a handler whose channel is open. */
    ghost predicate Valid()
      reads this, handler
    {
      running ==> handler != null && handler.active && !handler.closed
    }

    constructor ()
      ensures Valid() && !running
    {
      running, handler := false, null;
    }

    method Start()
      requires Valid()
      modifies this
      ensures Valid() && running
      ensures if old(running) then handler == old(handler) else fresh(handler)
    {
      if !running {
        handler := new Handler();
        running := true;
      }
    }

    method Stop()
      requires Valid()
      modifies this`running, handler
      ensures Valid() && !running
      ensures old(running) ==> handler.closed && !handler.active
      ensures !old(running) && handler != null ==> unchanged(handler)
    {
      if running {
        handler.Close();
        running := false;
      }
    }
  }

  // ---------------------------------------------------------------------
  // The protocol under every interleaving

  datatype Loop = Waiting | Busy(request: nat) | Exited

  datatype HandlerState = HandlerState(active: bool, closed: bool, loop: Loop)

  /** A request: before the read lock, holding it in four stages, and after releasing it. */
  datatype Stage = Arrived | Locked | Sending | Received | Rejected | Gone(received: bool)

  datatype Request = Request(handler: nat, stage: Stage)

  /** A stop in progress: waiting for the write lock, then one stage per statement under it. */
  datatype StopStage = AwaitingLock | HoldingLock | Deactivated | Closed | Unlocked

  /** Who holds the server lock. Starting is a single step. */
  datatype Lock = Free | Stopping(handler: nat, stage: StopStage)

  datatype State = State(
    handlers: seq<HandlerState>,
    requests: seq<Request>,
    running: bool,
    current: nat,
    lock: Lock,
    panicked: bool)

  datatype Action =
    | Start
    | StopBegin
    | StopLock
    | StopDeactivate
    | StopClose
    | StopUnlock
    | StopEnd
    | Arrive(h: nat)
    | ReadLock(r: nat)
    | CheckActive(r: nat)
    | Send(r: nat)
    | ReadUnlock(r: nat)
    | LoopAgain(h: nat)
    | LoopExit(h: nat)

  predicate Reading(r: Request) {
    r.stage.Locked? || r.stage.Sending? || r.stage.Received? || r.stage.Rejected?
  }

  /** A stop has asked for or holds the write lock of `h`; new readers have to wait. */
  predicate WriterOn(s: State, h: nat) {
    s.lock.Stopping? && s.lock.handler == h && !s.lock.stage.Unlocked?
  }

  predicate NoReaders(s: State, h: nat) {
    forall i :: 0 <= i < |s.requests| && s.requests[i].handler == h ==> !Reading(s.requests[i])
  }

  function At(s: State, r: nat, stage: Stage): State
    requires r < |s.requests|
  {
    s.(requests := s.requests[r := s.requests[r].(stage := stage)])
  }

  function StopStep(s: State, a: Action): Option<State>
    requires a.StopLock? || a.StopDeactivate? || a.StopClose? || a.StopUnlock? || a.StopEnd?
  {
    if !s.lock.Stopping? || s.lock.handler >= |s.handlers| then None
    else
      var h := s.lock.handler;
      match a
      case StopLock =>
        if s.lock.stage != AwaitingLock || !NoReaders(s, h) then None else Some(s.(lock := Stopping(h, HoldingLock)))
      case StopDeactivate =>
        if s.lock.stage != HoldingLock then None
        else Some(s.(handlers := s.handlers[h := s.handlers[h].(active := false)], lock := Stopping(h, Deactivated)))
      case StopClose =>
        if s.lock.stage != Deactivated then None
        else Some(s.(handlers := s.handlers[h := s.handlers[h].(closed := true)], lock := Stopping(h, Closed),
                     panicked := s.panicked || s.handlers[h].closed))
      case StopUnlock =>
        if s.lock.stage != Closed then None else Some(s.(lock := Stopping(h, Unlocked)))
      case StopEnd =>
        if s.lock.stage != Unlocked then None else Some(s.(lock := Free, running := false))
  }

  function RequestStep(s: State, a: Action): Option<State>
    requires a.ReadLock? || a.CheckActive? || a.Send? || a.ReadUnlock?
  {
    var r := a.r;
    if r >= |s.requests| || s.requests[r].handler >= |s.handlers| then None
    else
      var h := s.requests[r].handler;
      match a
      case ReadLock(_) =>
        if s.requests[r].stage != Arrived || WriterOn(s, h) then None else Some(At(s, r, Locked))
      case CheckActive(_) =>
        if s.requests[r].stage != Locked then None
        else Some(At(s, r, if s.handlers[h].active then Sending else Rejected))
      case Send(_) =>
        // a send on a closed channel panics; on an open one it waits for the loop to receive
        if s.requests[r].stage != Sending then None
        else if s.handlers[h].closed then Some(s.(panicked := true))
        else if s.handlers[h].loop != Waiting then None
        else Some(At(s, r, Received).(handlers := s.handlers[h := s.handlers[h].(loop := Busy(r))]))
      case ReadUnlock(_) =>
        if s.requests[r].stage == Received then Some(At(s, r, Gone(true)))
        else if s.requests[r].stage == Rejected then Some(At(s, r, Gone(false)))
        else None
  }

  function Step(s: State, a: Action): Option<State> {
    match a
    case Start =>
      if s.lock != Free then None
      else if s.running then Some(s)
      else Some(s.(handlers := s.handlers + [HandlerState(true, false, Waiting)], current := |s.handlers|,
        running := true))
    case StopBegin =>
      if s.lock != Free then None
      else if !s.running then Some(s)
      else Some(s.(lock := Stopping(s.current, AwaitingLock)))
    case Arrive(h) =>
      if h >= |s.handlers| then None else Some(s.(requests := s.requests + [Request(h, Arrived)]))
    case LoopAgain(h) =>
      if h >= |s.handlers| || !s.handlers[h].loop.Busy? then None
      else Some(s.(handlers := s.handlers[h := s.handlers[h].(loop := Waiting)]))
    case LoopExit(h) =>
      if h >= |s.handlers| || s.handlers[h].loop != Waiting || !s.handlers[h].closed then None
      else Some(s.(handlers := s.handlers[h := s.handlers[h].(loop := Exited)]))
    case ReadLock(_) => RequestStep(s, a)
    case CheckActive(_) => RequestStep(s, a)
    case Send(_) => RequestStep(s, a)
    case ReadUnlock(_) => RequestStep(s, a)
    case _ => StopStep(s, a)
  }

  ghost predicate Initial(s: State) {
    s.handlers == [] && s.requests == [] && !s.running && s.lock == Free && !s.panicked
  }

  ghost predicate IsRun(tr: seq<State>, acts: seq<Action>) {
    && |tr| == |acts| + 1
    && Initial(tr[0])
    && forall i :: 0 <= i < |acts| ==> Step(tr[i], acts[i]) == Some(tr[i + 1])
  }

  // ---------------------------------------------------------------------
  // Safety

  /** How far the stop of handler `h` has got decides its flags. */
  ghost predicate HandlerInv(s: State, h: nat)
    requires h < |s.handlers|
  {
    var x := s.handlers[h];
    if s.lock.Stopping? && s.lock.handler == h then
      x.active == (s.lock.stage == AwaitingLock || s.lock.stage == HoldingLock) &&
      x.closed == (s.lock.stage == Closed || s.lock.stage == Unlocked)
    else
      x.active == (s.running && h == s.current) && x.closed == !x.active
  }

  ghost predicate RequestInv(s: State, r: nat)
    requires r < |s.requests|
  {
    var q := s.requests[r];
    && q.handler < |s.handlers|
    && (q.stage.Sending? ==> s.handlers[q.handler].active && !s.handlers[q.handler].closed)
    && (Reading(q) && WriterOn(s, q.handler) ==> s.lock.stage == AwaitingLock)
  }

  ghost predicate Inv(s: State) {
    && !s.panicked
    && (s.running ==> s.current < |s.handlers|)
    && (s.lock.Stopping? ==> s.running && s.lock.handler == s.current)
    && (forall h :: 0 <= h < |s.handlers| ==> HandlerInv(s, h) && (s.handlers[h].loop.Exited? ==> s.handlers[h].closed))
    && (forall r :: 0 <= r < |s.requests| ==> RequestInv(s, r))
  }

  lemma RequestInvStep(s: State, a: Action, s': State, r: nat)
    requires Step(s, a) == Some(s') && Inv(s) && r < |s'.requests|
    ensures RequestInv(s', r)
  {
    if r < |s.requests| {
      assert RequestInv(s, r);
      assert HandlerInv(s, s.requests[r].handler);
    }
  }

  lemma HandlerInvStep(s: State, a: Action, s': State, h: nat)
    requires Step(s, a) == Some(s') && Inv(s) && h < |s'.handlers|
    ensures HandlerInv(s', h) && (s'.handlers[h].loop.Exited? ==> s'.handlers[h].closed)
  {
    if h < |s.handlers| { assert HandlerInv(s, h); }
  }

  lemma InvStep(s: State, a: Action, s': State)
    requires Step(s, a) == Some(s') && Inv(s)
    ensures Inv(s')
  {
    assert !s'.panicked by {
      if a.Send? { assert RequestInv(s, a.r); }
      if a == StopClose { assert HandlerInv(s, s.lock.handler); }
    }
    forall h: nat | h < |s'.handlers|
      ensures HandlerInv(s', h) && (s'.handlers[h].loop.Exited? ==> s'.handlers[h].closed)
    {
      HandlerInvStep(s, a, s', h);
    }
    forall r: nat | r < |s'.requests| ensures RequestInv(s', r) { RequestInvStep(s, a, s', r); }
  }

  /** Under every interleaving nothing is sent on a closed channel and none is closed twice. */
  lemma {:induction false} NeverPanics(tr: seq<State>, acts: seq<Action>, i: nat)
    requires IsRun(tr, acts) && i < |tr|
    ensures Inv(tr[i]) && !tr[i].panicked
  {
    if i > 0 {
      NeverPanics(tr, acts, i - 1);
      assert Step(tr[i - 1], acts[i - 1]) == Some(tr[i]);
      InvStep(tr[i - 1], acts[i - 1], tr[i]);
    }
  }

  /** The loop has received this request. */
  predicate Served(q: Request) {
    q.stage == Received || q.stage == Gone(true)
  }

  /** An admitted request stays in line until it is received. */
  lemma {:induction false} AdmittedIsServed(tr: seq<State>, acts: seq<Action>, i: nat, j: nat, r: nat)
    requires IsRun(tr, acts) && i <= j < |tr| && r < |tr[i].requests|
    requires tr[i].requests[r].stage == Sending
    ensures r < |tr[j].requests| && tr[j].requests[r].handler == tr[i].requests[r].handler
    ensures tr[j].requests[r].stage == Sending || Served(tr[j].requests[r])
    decreases j
  {
    if i < j {
      AdmittedIsServed(tr, acts, i, j - 1, r);
      assert Step(tr[j - 1], acts[j - 1]) == Some(tr[j]);
    }
  }

  /** Every request admitted while the handler was active has been received by its loop by the
      time the handler's channel is closed. */
  lemma AdmittedBeforeClose(tr: seq<State>, acts: seq<Action>, i: nat, j: nat, r: nat)
    requires IsRun(tr, acts) && i <= j < |tr| && r < |tr[i].requests|
    requires tr[i].requests[r].stage == Sending
    requires var h := tr[i].requests[r].handler; h < |tr[j].handlers| && tr[j].handlers[h].closed
    ensures r < |tr[j].requests| && Served(tr[j].requests[r])
  {
    AdmittedIsServed(tr, acts, i, j, r);
    NeverPanics(tr, acts, j);
    assert RequestInv(tr[j], r);
  }

  // ---------------------------------------------------------------------
  // Who is turned away

  /** The step at `d` clears `active` of handler `h`. */
  predicate StopsAt(tr: seq<State>, acts: seq<Action>, d: nat, h: nat)
    requires |tr| == |acts| + 1 && d < |acts|
  {
    acts[d] == StopDeactivate && tr[d].lock.Stopping? && tr[d].lock.handler == h
  }

  /** A stop has cleared `active` of handler `h` before `i`. */
  ghost predicate StoppedBefore(tr: seq<State>, acts: seq<Action>, i: nat, h: nat)
    requires |tr| == |acts| + 1 && i < |tr|
  {
    exists d :: 0 <= d < i && StopsAt(tr, acts, d, h)
  }

  lemma ActiveStep(s: State, a: Action, s': State, h: nat)
    requires Step(s, a) == Some(s') && h < |s'.handlers|
    ensures s'.handlers[h].active <==>
      (h < |s.handlers| ==> s.handlers[h].active) && !(a == StopDeactivate && s.lock.Stopping? && s.lock.handler == h)
  {
  }

  lemma HandlersStay(s: State, a: Action, s': State)
    requires Step(s, a) == Some(s')
    ensures |s.handlers| <= |s'.handlers|
    ensures a == StopDeactivate ==> s.lock.Stopping? && s.lock.handler < |s.handlers|
  {
  }

  lemma {:induction false} HandlersRemain(tr: seq<State>, acts: seq<Action>, d: nat, i: nat)
    requires IsRun(tr, acts) && d <= i < |tr|
    ensures |tr[d].handlers| <= |tr[i].handlers|
    decreases i
  {
    if d < i {
      HandlersRemain(tr, acts, d, i - 1);
      assert Step(tr[i - 1], acts[i - 1]) == Some(tr[i]);
      HandlersStay(tr[i - 1], acts[i - 1], tr[i]);
    }
  }

  lemma StopsNameHandlers(tr: seq<State>, acts: seq<Action>, i: nat, h: nat)
    requires IsRun(tr, acts) && i < |tr| && StoppedBefore(tr, acts, i, h)
    ensures h < |tr[i].handlers|
  {
    var d :| 0 <= d < i && StopsAt(tr, acts, d, h);
    HandlersStay(tr[d], acts[d], tr[d + 1]);
    HandlersRemain(tr, acts, d, i);
  }

  /** A handler is active until a stop gets to it, and never after. */
  lemma {:induction false} ActiveUntilStopped(tr: seq<State>, acts: seq<Action>, i: nat, h: nat)
    requires IsRun(tr, acts) && i < |tr| && h < |tr[i].handlers|
    ensures tr[i].handlers[h].active <==> !StoppedBefore(tr, acts, i, h)
  {
    assert i > 0;
    ActiveNext(tr, acts, i - 1, h);
    StoppedNext(tr, acts, i - 1, h);
    if h < |tr[i - 1].handlers| {
      ActiveUntilStopped(tr, acts, i - 1, h);
    } else if StoppedBefore(tr, acts, i - 1, h) {
      StopsNameHandlers(tr, acts, i - 1, h);
    }
  }

  lemma ActiveNext(tr: seq<State>, acts: seq<Action>, i: nat, h: nat)
    requires IsRun(tr, acts) && i < |acts| && h < |tr[i + 1].handlers|
    ensures tr[i + 1].handlers[h].active <==>
      (h < |tr[i].handlers| ==> tr[i].handlers[h].active) && !StopsAt(tr, acts, i, h)
  {
    ActiveStep(tr[i], acts[i], tr[i + 1], h);
  }

  lemma StoppedNext(tr: seq<State>, acts: seq<Action>, i: nat, h: nat)
    requires |tr| == |acts| + 1 && i < |acts|
    ensures StoppedBefore(tr, acts, i + 1, h) <==> StoppedBefore(tr, acts, i, h) || StopsAt(tr, acts, i, h)
  {
  }

  /** What becomes of a request once it has found its handler active, or not. */
  predicate Follows(stage: Stage, active: bool) {
    if active then stage == Sending || stage == Received || stage == Gone(true)
    else stage == Rejected || stage == Gone(false)
  }

  lemma FollowsStep(s: State, a: Action, s': State, r: nat, active: bool)
    requires Step(s, a) == Some(s') && r < |s.requests| && Follows(s.requests[r].stage, active)
    ensures r < |s'.requests| && s'.requests[r].handler == s.requests[r].handler
    ensures Follows(s'.requests[r].stage, active)
  {
  }

  lemma {:induction false} FollowsCheck(tr: seq<State>, acts: seq<Action>, c: nat, i: nat, r: nat)
    requires IsRun(tr, acts) && c < i < |tr| && acts[c] == CheckActive(r)
    ensures r < |tr[c].requests| && r < |tr[i].requests| && tr[i].requests[r].handler == tr[c].requests[r].handler
    ensures tr[i].requests[r].handler < |tr[c].handlers|
    ensures Follows(tr[i].requests[r].stage, tr[c].handlers[tr[i].requests[r].handler].active)
    decreases i
  {
    assert Step(tr[i - 1], acts[i - 1]) == Some(tr[i]);
    if c < i - 1 {
      FollowsCheck(tr, acts, c, i - 1, r);
      FollowsStep(tr[i - 1], acts[i - 1], tr[i], r, tr[c].handlers[tr[i - 1].requests[r].handler].active);
    }
  }

  lemma {:induction false} GoneWasChecked(tr: seq<State>, acts: seq<Action>, i: nat, r: nat)
    requires IsRun(tr, acts) && i < |tr| && r < |tr[i].requests|
    requires tr[i].requests[r].stage != Arrived && tr[i].requests[r].stage != Locked
    ensures exists c :: 0 <= c < i && acts[c] == CheckActive(r)
  {
    assert i > 0;
    assert Step(tr[i - 1], acts[i - 1]) == Some(tr[i]);
    if acts[i - 1] != CheckActive(r) { GoneWasChecked(tr, acts, i - 1, r); }
  }

  /** In every run: a request that is gone has checked its handler, and it was turned away exactly when
      a stop of that handler came before the check; all others were received. */
  lemma RefusedExactlyAfterStop(tr: seq<State>, acts: seq<Action>, i: nat, r: nat)
    requires IsRun(tr, acts) && i < |tr| && r < |tr[i].requests| && tr[i].requests[r].stage.Gone?
    ensures exists c :: 0 <= c < i && acts[c] == CheckActive(r)
    ensures forall c :: 0 <= c < i && acts[c] == CheckActive(r) ==>
      tr[i].requests[r].stage == Gone(!StoppedBefore(tr, acts, c, tr[i].requests[r].handler))
  {
    GoneWasChecked(tr, acts, i, r);
    forall c | 0 <= c < i && acts[c] == CheckActive(r)
      ensures tr[i].requests[r].stage == Gone(!StoppedBefore(tr, acts, c, tr[i].requests[r].handler))
    {
      FollowsCheck(tr, acts, c, i, r);
      ActiveUntilStopped(tr, acts, c, tr[i].requests[r].handler);
    }
  }

  /** A stop of a running server has hold of it until it has ended; then the handler is inactive with a
      closed channel, and the server no longer runs. */
  lemma {:induction false} StopIsCarriedOut(tr: seq<State>, acts: seq<Action>, b: nat, i: nat)
    requires IsRun(tr, acts) && b < i < |tr| && acts[b] == StopBegin && tr[b].running
    ensures (tr[i].lock.Stopping? && tr[i].lock.handler == tr[b].current) || exists l :: b < l < i && acts[l] == StopEnd
    decreases i
  {
    assert Step(tr[i - 1], acts[i - 1]) == Some(tr[i]);
    if b < i - 1 { StopIsCarriedOut(tr, acts, b, i - 1); }
  }

  lemma StopEndsStopped(tr: seq<State>, acts: seq<Action>, l: nat)
    requires IsRun(tr, acts) && l < |acts| && acts[l] == StopEnd
    ensures !tr[l + 1].running && tr[l + 1].lock == Free && tr[l].current < |tr[l + 1].handlers|
    ensures var h := tr[l + 1].handlers[tr[l].current]; !h.active && h.closed
  {
    NeverPanics(tr, acts, l);
    assert Step(tr[l], acts[l]) == Some(tr[l + 1]);
    assert HandlerInv(tr[l], tr[l].current);
  }

  /** The server runs exactly when it was started and no stop has ended since; its handler is then the
      latest one, and unless a stop is under way it is active with an open channel. */
  lemma {:induction false} RunsExactlySinceStart(tr: seq<State>, acts: seq<Action>, i: nat)
    requires IsRun(tr, acts) && i < |tr|
    ensures tr[i].running <==>
      exists b :: 0 <= b < i && acts[b] == Start && forall l :: b < l < i ==> acts[l] != StopEnd
    ensures tr[i].running ==> tr[i].current == |tr[i].handlers| - 1
    ensures tr[i].running && tr[i].lock == Free ==>
      tr[i].handlers[tr[i].current].active && !tr[i].handlers[tr[i].current].closed
  {
    NeverPanics(tr, acts, i);
    if i > 0 {
      var s, a, s' := tr[i - 1], acts[i - 1], tr[i];
      RunsExactlySinceStart(tr, acts, i - 1);
      assert Step(s, a) == Some(s');
      if s'.running && a != Start {
        var b :| 0 <= b < i - 1 && acts[b] == Start && forall l :: b < l < i - 1 ==> acts[l] != StopEnd;
        assert forall l :: b < l < i ==> acts[l] != StopEnd;
      }
    }
    if tr[i].running { assert HandlerInv(tr[i], tr[i].current); }
  }

  // ---------------------------------------------------------------------
  // Stopping never deadlocks with the requests it waits for

  predicate Internal(a: Action) {
    !a.Start? && !a.StopBegin? && !a.Arrive?
  }

  lemma ReaderCanMove(s: State, r: nat) returns (a: Action)
    requires Inv(s) && r < |s.requests| && Reading(s.requests[r])
    ensures Internal(a) && Step(s, a).Some?
  {
    var h := s.requests[r].handler;
    assert RequestInv(s, r) && HandlerInv(s, h);
    if s.requests[r].stage == Locked { a := CheckActive(r); }
    else if s.requests[r].stage != Sending { a := ReadUnlock(r); }
    else if s.handlers[h].loop.Waiting? { a := Send(r); }
    else { a := LoopAgain(h); }
  }

  /** As long as a stop or a request is unfinished, some participant can take a step. */
  lemma NoDeadlock(tr: seq<State>, acts: seq<Action>, i: nat) returns (a: Action)
    requires IsRun(tr, acts) && i < |tr|
    requires tr[i].lock.Stopping? || exists r :: 0 <= r < |tr[i].requests| && !tr[i].requests[r].stage.Gone?
    ensures Internal(a) && Step(tr[i], a).Some?
  {
    NeverPanics(tr, acts, i);
    var s := tr[i];
    if s.lock.Stopping? {
      match s.lock.stage
      case AwaitingLock =>
        if NoReaders(s, s.lock.handler) {
          a := StopLock;
        } else {
          var r :| 0 <= r < |s.requests| && s.requests[r].handler == s.lock.handler && Reading(s.requests[r]);
          a := ReaderCanMove(s, r);
        }
      case HoldingLock => a := StopDeactivate;
      case Deactivated => a := StopClose;
      case Closed => a := StopUnlock;
      case Unlocked => a := StopEnd;
    } else {
      var r :| 0 <= r < |s.requests| && !s.requests[r].stage.Gone?;
      assert RequestInv(s, r);
      if s.requests[r].stage == Arrived { a := ReadLock(r); } else { a := ReaderCanMove(s, r); }
    }
  }

  // ---------------------------------------------------------------------
  // Every stop and every request finishes

  /** How many steps are left, at most, for a request, for the loop of a handler, and for a stop. */
  function RequestWork(q: Request): nat {
    match q.stage
    case Arrived => 5
    case Locked => 4
    case Sending => 3
    case Received => 1
    case Rejected => 1
    case Gone(_) => 0
  }

  function LoopWork(h: HandlerState): nat {
    match h.loop
    case Busy(_) => 2
    case Waiting => 1
    case Exited => 0
  }

  function StopWork(l: Lock): nat {
    match l
    case Free => 0
    case Stopping(_, stage) =>
      match stage
      case AwaitingLock => 5
      case HoldingLock => 4
      case Deactivated => 3
      case Closed => 2
      case Unlocked => 1
  }

  function Sum(ns: seq<nat>): nat {
    if ns == [] then 0 else Sum(ns[..|ns| - 1]) + ns[|ns| - 1]
  }

  lemma {:induction false} SumUpdate(ns: seq<nat>, i: nat, n: nat)
    requires i < |ns|
    ensures Sum(ns[i := n]) == Sum(ns) - ns[i] + n
  {
    var m := |ns| - 1;
    if i < m {
      SumUpdate(ns[..m], i, n);
      assert ns[i := n][..m] == ns[..m][i := n];
    } else {
      assert ns[i := n][..m] == ns[..m];
    }
  }

  function RequestWorks(rs: seq<Request>): seq<nat> {
    seq(|rs|, i requires 0 <= i < |rs| => RequestWork(rs[i]))
  }

  function LoopWorks(hs: seq<HandlerState>): seq<nat> {
    seq(|hs|, i requires 0 <= i < |hs| => LoopWork(hs[i]))
  }

  function Work(s: State): nat {
    Sum(RequestWorks(s.requests)) + Sum(LoopWorks(s.handlers)) + StopWork(s.lock)
  }

  lemma RequestsUpdate(rs: seq<Request>, r: nat, q: Request)
    requires r < |rs|
    ensures Sum(RequestWorks(rs[r := q])) == Sum(RequestWorks(rs)) - RequestWork(rs[r]) + RequestWork(q)
  {
    SumUpdate(RequestWorks(rs), r, RequestWork(q));
    assert RequestWorks(rs[r := q]) == RequestWorks(rs)[r := RequestWork(q)];
  }

  lemma LoopsUpdate(hs: seq<HandlerState>, h: nat, x: HandlerState)
    requires h < |hs|
    ensures Sum(LoopWorks(hs[h := x])) == Sum(LoopWorks(hs)) - LoopWork(hs[h]) + LoopWork(x)
  {
    SumUpdate(LoopWorks(hs), h, LoopWork(x));
    assert LoopWorks(hs[h := x]) == LoopWorks(hs)[h := LoopWork(x)];
  }

  lemma RequestStepWorks(s: State, a: Action, s': State)
    requires (a.ReadLock? || a.CheckActive? || a.Send? || a.ReadUnlock?) && Step(s, a) == Some(s') && !s'.panicked
    ensures Work(s') < Work(s)
  {
    RequestsUpdate(s.requests, a.r, s'.requests[a.r]);
    if a.Send? {
      var h := s.requests[a.r].handler;
      LoopsUpdate(s.handlers, h, s.handlers[h].(loop := Busy(a.r)));
    }
  }

  lemma OtherStepWorks(s: State, a: Action, s': State)
    requires !(a.ReadLock? || a.CheckActive? || a.Send? || a.ReadUnlock?) && Internal(a) && Step(s, a) == Some(s')
    ensures Work(s') < Work(s)
  {
    if a.LoopAgain? || a.LoopExit? {
      LoopsUpdate(s.handlers, a.h, s'.handlers[a.h]);
    } else {
      LoopsUpdate(s.handlers, s.lock.handler, s'.handlers[s.lock.handler]);
      assert s'.handlers == s.handlers[s.lock.handler := s'.handlers[s.lock.handler]];
    }
  }

  lemma {:induction false} InternalRunIsBounded(tr: seq<State>, acts: seq<Action>, i: nat, j: nat)
    requires IsRun(tr, acts) && i <= j < |tr| && forall l :: i <= l < j ==> Internal(acts[l])
    ensures (j - i) + Work(tr[j]) <= Work(tr[i])
    decreases j
  {
    if i < j {
      InternalRunIsBounded(tr, acts, i, j - 1);
      NeverPanics(tr, acts, j);
      var s, a, s' := tr[j - 1], acts[j - 1], tr[j];
      assert Step(s, a) == Some(s');
      if a.ReadLock? || a.CheckActive? || a.Send? || a.ReadUnlock? {
        RequestStepWorks(s, a, s');
      } else {
        OtherStepWorks(s, a, s');
      }
    }
  }

  /** Left to themselves, a stop and all requests finish: there is a bound on the steps they can take,
      and where no further step is possible the lock is free and every request is gone. */
  lemma EverythingFinishes(tr: seq<State>, acts: seq<Action>, i: nat)
    requires IsRun(tr, acts) && i < |tr| && forall l :: i <= l < |acts| ==> Internal(acts[l])
    ensures |acts| - i <= Work(tr[i])
    ensures var last := tr[|acts|];
      (forall a :: Internal(a) ==> Step(last, a).None?) ==>
        last.lock == Free && forall r :: 0 <= r < |last.requests| ==> last.requests[r].stage.Gone?
  {
    InternalRunIsBounded(tr, acts, i, |acts|);
    var last := tr[|acts|];
    if last.lock.Stopping? || exists r :: 0 <= r < |last.requests| && !last.requests[r].stage.Gone? {
      var a := NoDeadlock(tr, acts, |acts|);
    }
  }
}
