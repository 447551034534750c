/**
 The worker of the cache controller as an object (`processSingle` and the
 informer handlers in pkg/connector/cache.go). Each call is shown to be a
 sequence of steps of the `Reconciler` transition system.
 */
module CacheController {
  import opened Prelude
  import opened WorkQueue
  import opened Reconciler

  /** The answer of the resource to an upsert or delete; a rejection may leave anything behind. */
  datatype Reply = Accepted | Rejected(left: Option<nat>)

  /** What a delete notification carries: the object, or a tombstone holding its last known state. */
  datatype DeletedObject = Object(obj: nat) | FinalStateUnknown(last: nat)

  /** The steps of one call of `processSingle`. */
  function Round(lookupFails: bool, reply: Reply): seq<Action> {
    [Take] +
    (if lookupFails then [LookupFails]
     else [Lookup, if reply.Accepted? then Apply else ApplyFails(reply.left)]) +
    [Action.Finish]
  }

  /** The state after a sequence of steps, if all of them are possible. */
  function After(s: State, acts: seq<Action>): Option<State>
    decreases acts
  {
    if acts == [] then Some(s)
    else match Step(s, acts[0])
         case None => None
         case Some(s') => After(s', acts[1..])
  }

  lemma {:induction false} AfterOne(s: State, a: Action, rest: seq<Action>)
    ensures After(s, [a] + rest) == match Step(s, a) case None => None case Some(s') => After(s', rest)
  {
    assert ([a] + rest)[1..] == rest;
  }

  /** What an attempt does to the state once the worker holds `e`. */
  function Attempted(s: State, e: Event, lookupFails: bool, reply: Reply): State {
    if lookupFails then RetryOrDrop(s, e)
    else if reply.Rejected? then RetryOrDrop(s.(view := Put(s.view, e.key, reply.left)), e)
    else s.(view := Put(s.view, e.key, Find(s.store, e.key)), q := Forgotten(s.q, e), worker := Finishing(e),
            dropped := s.dropped - {e.key})
  }

  /** What the worker does once it holds `e`, and the end of its turn. */
  lemma {:induction false} AttemptFinishes(got: State, e: Event, lookupFails: bool, reply: Reply)
    requires got.worker == Got(e)
    ensures var s' := Attempted(got, e, lookupFails, reply);
      After(got, Round(lookupFails, reply)[1..]) == Some(s'.(q := Finished(s'.q, e), worker := Idle))
  {
    TurnEnds(Attempted(got, e, lookupFails, reply), e);
    if lookupFails {
      assert Round(lookupFails, reply)[1..] == [LookupFails] + [Action.Finish];
      AfterOne(got, LookupFails, [Action.Finish]);
    } else {
      LookupSucceeds(got, e, reply);
    }
  }

  lemma {:induction false} TurnEnds(s: State, e: Event)
    requires s.worker == Finishing(e)
    ensures After(s, [Action.Finish]) == Some(s.(q := Finished(s.q, e), worker := Idle))
  {
    AfterOne(s, Action.Finish, []);
    assert [Action.Finish] + [] == [Action.Finish];
  }

  lemma {:induction false} LookupSucceeds(got: State, e: Event, reply: Reply)
    requires got.worker == Got(e)
    ensures After(got, Round(false, reply)[1..]) == After(Attempted(got, e, false, reply), [Action.Finish])
  {
    var act := if reply.Accepted? then Apply else ApplyFails(reply.left);
    var rest := [act] + [Action.Finish];
    assert Round(false, reply)[1..] == [Lookup] + rest;
    AfterOne(got, Lookup, rest);
    AfterOne(got.(worker := Looked(e, Find(got.store, e.key))), act, [Action.Finish]);
  }

  /** A round is: take, attempt, finish. */
  lemma {:induction false} RoundAttempts(s: State, lookupFails: bool, reply: Reply)
    requires s.worker.Idle? && s.q.items != []
    ensures var e := s.q.items[0];
      var s' := Attempted(s.(q := Taken(s.q), worker := Got(e)), e, lookupFails, reply);
      After(s, Round(lookupFails, reply)) == Some(s'.(q := Finished(s'.q, e), worker := Idle))
  {
    var e, round := s.q.items[0], Round(lookupFails, reply);
    AttemptFinishes(s.(q := Taken(s.q), worker := Got(e)), e, lookupFails, reply);
    assert round == [Take] + round[1..];
    AfterOne(s, Take, round[1..]);
  }

  class CacheController {
    const queue: RateLimitingQueue
    var store: map<string, nat>
    var view: map<string, nat>
    var dropped: set<string>

    constructor ()
      ensures fresh(queue) && Contents([]) == State(map[], [], EMPTY_QUEUE, Idle, map[], {})
    {
      queue := new RateLimitingQueue();
      store, view, dropped := map[], map[], {};
    }

    /** The state of the transition system between two calls of the worker. */
    function Contents(pending: seq<Event>): State
      reads this, queue
    {
      State(store, pending, queue.Contents(), Idle, view, dropped)
    }

    /** `AddFunc` and `UpdateFunc`. */
    method OnAddOrUpdate(key: string, obj: nat, ghost pending: seq<Event>)
      modifies queue
      ensures Step(old(Contents([Event(key, obj)] + pending)), Deliver) == Some(Contents(pending))
    {
      queue.Add(Event(key, obj));
      assert ([Event(key, obj)] + pending)[1..] == pending;
    }

    /** `informerDeleteHandler`: a tombstone is unwrapped. */
    method OnDelete(key: string, deleted: DeletedObject, ghost pending: seq<Event>)
      modifies queue
      ensures var obj := if deleted.Object? then deleted.obj else deleted.last;
        Step(old(Contents([Event(key, obj)] + pending)), Deliver) == Some(Contents(pending))
    {
      var obj := if deleted.Object? then deleted.obj else deleted.last;
      queue.Add(Event(key, obj));
      assert ([Event(key, obj)] + pending)[1..] == pending;
    }

    /** Looks the key up, applies what is there, and forgets, retries or drops the event. */
    method Attempt(e: Event, lookupFails: bool, reply: Reply, ghost pending: seq<Event>)
      modifies this`view, this`dropped, queue`failures, queue`waiting
      ensures Contents(pending).(worker := Finishing(e)) ==
        Attempted(old(Contents(pending)).(worker := Got(e)), e, lookupFails, reply)
    {
      var failed := lookupFails;
      if !lookupFails {
        var item := Find(store, e.key);
        failed := reply.Rejected?;
        if failed {
          view := Put(view, e.key, reply.left);
        } else {
          view := Put(view, e.key, item);
          queue.Forget(e);
          dropped := dropped - {e.key};
        }
      }
      if failed {
        var n := queue.Requeues(e);
        if n < MAX_RETRIES {
          queue.AddRateLimited(e);
        } else {
          queue.Forget(e);
          dropped := dropped + {e.key};
        }
      }
    }

    /** One turn of the worker; false when the queue has shut down. */
    method ProcessSingle(lookupFails: bool, reply: Reply, ghost pending: seq<Event>) returns (more: bool)
      requires Sound(queue.Contents()) && queue.processing == {}
      requires queue.items != [] || queue.shuttingDown
      modifies this`view, this`dropped, queue
      ensures more <==> old(queue.items) != []
      ensures if more then After(old(Contents(pending)), Round(lookupFails, reply)) == Some(Contents(pending))
              else Contents(pending) == old(Contents(pending))
      ensures Sound(queue.Contents()) && queue.processing == {}
    {
      ghost var s0 := Contents(pending);
      var taken := queue.Get();
      if taken.None? { return false; }
      var e := taken.value;
      QueueStaysSound(s0.q, e);
      RoundAttempts(s0, lookupFails, reply);
      assert Contents(pending) == s0.(q := Taken(s0.q));
      Attempt(e, lookupFails, reply, pending);
      QueueStaysSound(Taken(s0.q), e);
      queue.Done(e);
      return true;
    }
  }
}
