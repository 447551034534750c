/**
 The memoised decoder of service metadata (`Decode` in pkg/connector/metadata.go) over a cache
 that may forget entries at any time (pkg/lru/types.go). Callers run concurrently: a call looks
 the cache up in one step and writes back in a later one.
 */
module MetaDecode {
  import opened Prelude
  import opened Strings

  datatype Meta = Meta(fields: map<string, string>)

  /** What decoding a text without a cache gives; a failed decode may be partly filled in. */
  datatype Decoded = Decoded(meta: Meta, ok: bool)

  type Plain = string -> Decoded

  /** A call of `Decode`: the service's namespace, name and hash annotation, and the encoded text. */
  datatype Request = Request(namespace: string, name: string, hash: string, text: string)

  function Key(q: Request): string {
    q.namespace + "." + q.name + "." + q.hash
  }

  datatype Entry = Entry(key: string, meta: Meta)

  /** The cache, and the writes that calls under way still have to make. */
  datatype State = State(memo: map<string, Meta>, pending: multiset<Entry>)

  datatype Event =
    | Lookup(q: Request)
    | Store(e: Entry)
    | Evict(keys: set<string>)

  /** What a call returns, decided when it looks the cache up. */
  function Answer(s: State, plain: Plain, q: Request): Meta {
    if Key(q) in s.memo then s.memo[Key(q)] else plain(q.text).meta
  }

  function Step(s: State, plain: Plain, e: Event): Option<State> {
    match e
    case Lookup(q) =>
      if Key(q) in s.memo || plain(q.text).ok
      then Some(s.(pending := s.pending + multiset{Entry(Key(q), Answer(s, plain, q))}))
      else Some(s)
    case Store(en) =>
      if en in s.pending then Some(State(s.memo[en.key := en.meta], s.pending - multiset{en})) else None
    case Evict(keys) => Some(s.(memo := s.memo - keys))
  }

  const START := State(map[], multiset{})

  ghost predicate IsRun(tr: seq<State>, plain: Plain, events: seq<Event>) {
    |tr| == |events| + 1 && tr[0] == START &&
    forall i :: 0 <= i < |events| ==> Step(tr[i], plain, events[i]) == Some(tr[i + 1])
  }

  /** Everything asked for in the run is one of the requests `asked`. */
  ghost predicate Asks(events: seq<Event>, asked: set<Request>) {
    forall i :: 0 <= i < |events| && events[i].Lookup? ==> events[i].q in asked
  }

  /** Every call of the run returns what decoding its own text gives. */
  ghost predicate Faithful(tr: seq<State>, plain: Plain, events: seq<Event>)
    requires |tr| == |events| + 1
  {
    forall i :: 0 <= i < |events| && events[i].Lookup? ==>
      Answer(tr[i], plain, events[i].q) == plain(events[i].q.text).meta
  }

  // ---------------------------------------------------------------------
  // What is in the cache

  /** The entry is the successful decode of a request that was asked. */
  ghost predicate Earned(plain: Plain, asked: set<Request>, key: string, meta: Meta) {
    exists q :: q in asked && Key(q) == key && plain(q.text) == Decoded(meta, true)
  }

  ghost predicate AllEarned(s: State, plain: Plain, asked: set<Request>) {
    && (forall key :: key in s.memo ==> Earned(plain, asked, key, s.memo[key]))
    && (forall e :: e in s.pending ==> Earned(plain, asked, e.key, e.meta))
  }

  lemma StepKeepsEarned(s: State, plain: Plain, e: Event, t: State, asked: set<Request>)
    requires AllEarned(s, plain, asked) && Step(s, plain, e) == Some(t) && (e.Lookup? ==> e.q in asked)
    ensures AllEarned(t, plain, asked)
  {
    if e.Lookup? && !(Key(e.q) in s.memo) && plain(e.q.text).ok {
      assert Earned(plain, asked, Key(e.q), plain(e.q.text).meta);
    }
  }

  /** No failed decode is ever cached, and nothing under the key of a request nobody made. */
  lemma {:induction false} CacheHoldsDecodes(tr: seq<State>, plain: Plain, events: seq<Event>, asked: set<Request>,
                                             i: nat)
    requires IsRun(tr, plain, events) && Asks(events, asked) && i < |tr|
    ensures AllEarned(tr[i], plain, asked)
  {
    if i > 0 {
      CacheHoldsDecodes(tr, plain, events, asked, i - 1);
      StepKeepsEarned(tr[i - 1], plain, events[i - 1], tr[i], asked);
    }
  }

  // ---------------------------------------------------------------------
  // When the cache is invisible

  /** Requests that share a key decode alike, once one of them decodes at all. */
  ghost predicate Consistent(plain: Plain, asked: set<Request>) {
    forall q, r :: q in asked && r in asked && Key(q) == Key(r) && plain(q.text).ok ==>
      plain(r.text).meta == plain(q.text).meta
  }

  lemma ConsistentRunsAreFaithful(tr: seq<State>, plain: Plain, events: seq<Event>, asked: set<Request>)
    requires IsRun(tr, plain, events) && Asks(events, asked) && Consistent(plain, asked)
    ensures Faithful(tr, plain, events)
  {
    forall i | 0 <= i < |events| && events[i].Lookup?
      ensures Answer(tr[i], plain, events[i].q) == plain(events[i].q.text).meta
    {
      CacheHoldsDecodes(tr, plain, events, asked, i);
      var r := events[i].q;
      if Key(r) in tr[i].memo {
        var q :| q in asked && Key(q) == Key(r) && plain(q.text) == Decoded(tr[i].memo[Key(r)], true);
        assert plain(r.text).meta == plain(q.text).meta;
      }
    }
  }

  /** Two requests that share a key: the second call gets the metadata of the first. */
  lemma SharedKeyRun(plain: Plain, q: Request, r: Request) returns (tr: seq<State>, events: seq<Event>)
    requires Key(q) == Key(r) && plain(q.text).ok
    ensures IsRun(tr, plain, events) && Asks(events, {q, r})
    ensures plain(r.text).meta != plain(q.text).meta ==> !Faithful(tr, plain, events)
  {
    var e := Entry(Key(q), plain(q.text).meta);
    var s1 := State(map[], multiset{e});
    var s2 := State(map[e.key := e.meta], multiset{});
    var s3 := State(map[e.key := e.meta], multiset{e});
    tr, events := [START, s1, s2, s3], [Lookup(q), Store(e), Lookup(r)];
    assert START.pending + multiset{e} == s1.pending;
    assert Step(START, plain, events[0]) == Some(s1);
    assert s1.pending - multiset{e} == multiset{};
    assert Step(s1, plain, events[1]) == Some(s2);
    assert s2.pending + multiset{e} == s3.pending;
    assert Step(s2, plain, events[2]) == Some(s3);
    assert Answer(tr[2], plain, events[2].q) == plain(q.text).meta;
  }

  /** Caching is invisible in every run, whatever is evicted and however calls overlap, exactly
      when the requests are consistent. */
  lemma InvisibleExactlyWhenConsistent(plain: Plain, asked: set<Request>)
    ensures Consistent(plain, asked) <==>
      forall tr, events :: IsRun(tr, plain, events) && Asks(events, asked) ==> Faithful(tr, plain, events)
  {
    if Consistent(plain, asked) {
      forall tr, events | IsRun(tr, plain, events) && Asks(events, asked) ensures Faithful(tr, plain, events) {
        ConsistentRunsAreFaithful(tr, plain, events, asked);
      }
    } else {
      var q, r :| q in asked && r in asked && Key(q) == Key(r) && plain(q.text).ok &&
        plain(r.text).meta != plain(q.text).meta;
      var tr, events := SharedKeyRun(plain, q, r);
      assert Asks(events, asked);
    }
  }

  /** With dot-free namespaces and names the key tells the service and its hash apart. */
  lemma KeyIsInjective(q: Request, r: Request)
    requires DotFree(q.namespace) && DotFree(q.name) && DotFree(r.namespace) && DotFree(r.name) && Key(q) == Key(r)
    ensures q.namespace == r.namespace && q.name == r.name && q.hash == r.hash
  {
    var x, y := q.name + "." + q.hash, r.name + "." + r.hash;
    assert Key(q) == q.namespace + ['.'] + x && Key(r) == r.namespace + ['.'] + y;
    CutIsUnique(q.namespace, x, r.namespace, y, '.');
    CutIsUnique(q.name, q.hash, r.name, r.hash, '.');
  }

  /** A service's hash annotation determines its text. */
  ghost predicate HashDeterminesText(asked: set<Request>) {
    forall q, r :: q in asked && r in asked && q.namespace == r.namespace && q.name == r.name && q.hash == r.hash ==>
      q.text == r.text
  }

  /** Dot-free services whose hash determines their text are served as if there were no cache. */
  lemma HashedServicesAreFaithful(tr: seq<State>, plain: Plain, events: seq<Event>, asked: set<Request>)
    requires IsRun(tr, plain, events) && Asks(events, asked)
    requires HashDeterminesText(asked) && forall q :: q in asked ==> DotFree(q.namespace) && DotFree(q.name)
    ensures Faithful(tr, plain, events)
  {
    forall q, r | q in asked && r in asked && Key(q) == Key(r) && plain(q.text).ok
      ensures plain(r.text).meta == plain(q.text).meta
    {
      KeyIsInjective(q, r);
    }
    ConsistentRunsAreFaithful(tr, plain, events, asked);
  }

  /** A dot in a name is enough to lose this: two different services under one key, each with a
      hash that determines its text, and a run that gives one the metadata of the other. */
  lemma DottedNamesShareAKey(plain: Plain, hash: string, text1: string, text2: string)
    requires plain(text1).ok && plain(text1).meta != plain(text2).meta
    ensures var q, r := Request("a", "b.c", hash, text1), Request("a.b", "c", hash, text2);
      HashDeterminesText({q, r}) &&
      exists tr, events :: IsRun(tr, plain, events) && Asks(events, {q, r}) && !Faithful(tr, plain, events)
  {
    var q, r := Request("a", "b.c", hash, text1), Request("a.b", "c", hash, text2);
    assert "a" != "a.b" by { assert |"a"| != |"a.b"|; }
    assert "a" + "." + "b.c" == "a.b" + "." + "c";
    assert Key(q) == ("a" + "." + "b.c") + "." + hash;
    assert Key(r) == ("a.b" + "." + "c") + "." + hash;
    var tr, events := SharedKeyRun(plain, q, r);
  }

  // ---------------------------------------------------------------------
  // The decoder as an object

  function Idle(memo: map<string, Meta>): State {
    State(memo, multiset{})
  }

  /** A whole call: the lookup and, if it has something to write, the write. */
  function AfterCall(plain: Plain, s: State, q: Request, meta: Meta): Option<State> {
    var mid := Step(s, plain, Lookup(q)).value;
    if mid == s then Some(s) else Step(mid, plain, Store(Entry(Key(q), meta)))
  }

  /** One caller at a time: a call is a lookup followed at once by its write. */
  class Decoder {
    const plain: Plain
    var memo: map<string, Meta>

    constructor (plain: Plain)
      ensures this.plain == plain && memo == map[]
    {
      this.plain := plain;
      memo := map[];
    }

    method Decode(q: Request) returns (meta: Meta)
      modifies this
      ensures meta == Answer(Idle(old(memo)), plain, q)
      ensures AfterCall(plain, Idle(old(memo)), q, meta) == Some(Idle(memo))
    {
      var key := q.namespace + "." + q.name + "." + q.hash;
      ghost var mid := Step(Idle(memo), plain, Lookup(q)).value;
      if key in memo {
        meta := memo[key];
        memo := memo[key := meta];
        assert mid.pending - multiset{Entry(key, meta)} == multiset{};
        return;
      }
      var decoded := plain(q.text);
      meta := decoded.meta;
      if decoded.ok {
        memo := memo[key := meta];
        assert mid.pending - multiset{Entry(key, meta)} == multiset{};
      }
    }

    method Forget(keys: set<string>)
      modifies this
      ensures Step(Idle(old(memo)), plain, Evict(keys)) == Some(Idle(memo))
    {
      memo := memo - keys;
    }
  }
}
