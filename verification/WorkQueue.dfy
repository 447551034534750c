/**
 The rate-limited work queue of client-go, as far as the connector's cache
 controller uses it: an item is queued at most once, an item added while it is
 being processed is queued again when its processing ends, and a retry waits
 out a delay first.
 */
module WorkQueue {
  import opened Prelude

  /** What happened to which object. Events are compared by key and object. */
  datatype Event = Event(key: string, obj: nat)

  datatype Queue = Queue(
    items: seq<Event>,
    dirty: set<Event>,
    processing: set<Event>,
    waiting: set<Event>,
    failures: map<Event, nat>)

  const EMPTY_QUEUE := Queue([], {}, {}, {}, map[])

  function Added(q: Queue, e: Event): Queue {
    if e in q.dirty then q
    else if e in q.processing then q.(dirty := q.dirty + {e})
    else q.(dirty := q.dirty + {e}, items := q.items + [e])
  }

  function Taken(q: Queue): Queue
    requires q.items != []
  {
    var e := q.items[0];
    q.(items := q.items[1..], processing := q.processing + {e}, dirty := q.dirty - {e})
  }

  function Finished(q: Queue, e: Event): Queue {
    var q' := q.(processing := q.processing - {e});
    if e in q.dirty then q'.(items := q.items + [e]) else q'
  }

  function Forgotten(q: Queue, e: Event): Queue {
    q.(failures := q.failures - {e})
  }

  function NumRequeues(q: Queue, e: Event): nat {
    if e in q.failures then q.failures[e] else 0
  }

  /** A retry: counted, and delayed. */
  function Retried(q: Queue, e: Event): Queue {
    q.(failures := q.failures[e := NumRequeues(q, e) + 1], waiting := q.waiting + {e})
  }

  /** The delay of a retry is over. */
  function Expired(q: Queue, e: Event): Queue {
    Added(q.(waiting := q.waiting - {e}), e)
  }

  /** An item is in line exactly when it is wanted and not being processed, and never twice. */
  ghost predicate Sound(q: Queue) {
    NoDuplicates(q.items) &&
    forall e :: e in q.items <==> e in q.dirty && e !in q.processing
  }

  lemma QueueStaysSound(q: Queue, e: Event)
    requires Sound(q)
    ensures Sound(Added(q, e)) && Sound(Forgotten(q, e)) && Sound(Retried(q, e)) && Sound(Expired(q, e))
    ensures q.items != [] ==> Sound(Taken(q))
    ensures e in q.processing ==> Sound(Finished(q, e))
  {
  }

  /** The queue as an object. */
  class RateLimitingQueue {
    var items: seq<Event>
    var dirty: set<Event>
    var processing: set<Event>
    var waiting: set<Event>
    var failures: map<Event, nat>
    var shuttingDown: bool

    function Contents(): Queue
      reads this
    {
      Queue(items, dirty, processing, waiting, failures)
    }

    constructor ()
      ensures Contents() == EMPTY_QUEUE && !shuttingDown
    {
      items, dirty, processing, waiting, failures, shuttingDown := [], {}, {}, {}, map[], false;
    }

    method Add(e: Event)
      modifies this`items, this`dirty
      ensures Contents() == Added(old(Contents()), e)
    {
      if e in dirty { return; }
      dirty := dirty + {e};
      if e in processing { return; }
      items := items + [e];
    }

    /** Blocks while there is nothing to take and the queue is not shutting down. */
    method Get() returns (e: Option<Event>)
      requires items != [] || shuttingDown
      modifies this`items, this`dirty, this`processing
      ensures e.None? <==> old(items) == []
      ensures Contents() == if e.Some? then Taken(old(Contents())) else old(Contents())
      ensures e.Some? ==> e.value == old(items)[0]
    {
      if items == [] { return None; }
      e := Some(items[0]);
      items := items[1..];
      processing := processing + {e.value};
      dirty := dirty - {e.value};
    }

    method Done(e: Event)
      requires Sound(Contents()) && e in processing
      modifies this`items, this`processing
      ensures Contents() == Finished(old(Contents()), e)
      ensures Sound(Contents())
    {
      QueueStaysSound(Contents(), e);
      processing := processing - {e};
      if e in dirty { items := items + [e]; }
    }

    method Forget(e: Event)
      modifies this`failures
      ensures Contents() == Forgotten(old(Contents()), e)
    {
      failures := failures - {e};
    }

    method Requeues(e: Event) returns (n: nat)
      ensures n == NumRequeues(Contents(), e)
    {
      n := if e in failures then failures[e] else 0;
    }

    method AddRateLimited(e: Event)
      modifies this`failures, this`waiting
      ensures Contents() == Retried(old(Contents()), e)
    {
      var n := Requeues(e);
      failures := failures[e := n + 1];
      waiting := waiting + {e};
    }
  }
}
