/**
 The weight of a TrafficSplit with matches once its clusters are in the routes
 for these matches, each of which keeps them in a set
 (pkg/trafficpolicy/trafficpolicy.go): what the author of a split has to observe
 for the routes to carry all of it.
 */
module SplitRoutes {
  import opened Prelude
  import opened WeightSplit

  /** `TotalClustersWeight`: the weight of a set of clusters. */
  ghost function SetWeight(clusters: set<WeightedCluster>): int {
    if clusters == {} then 0
    else
      var c :| c in clusters;
      c.weight + SetWeight(clusters - {c})
  }

  lemma {:induction false} SetWeightRemove(clusters: set<WeightedCluster>, c: WeightedCluster)
    requires c in clusters
    ensures SetWeight(clusters) == c.weight + SetWeight(clusters - {c})
    decreases clusters
  {
    var first :| first in clusters && SetWeight(clusters) == first.weight + SetWeight(clusters - {first});
    if first != c {
      SetWeightRemove(clusters - {first}, c);
      SetWeightRemove(clusters - {c}, first);
      assert clusters - {first} - {c} == clusters - {c} - {first};
    }
  }

  /** Two entries of the list are the same cluster with the same, nonzero weight. */
  ghost predicate RepeatsWeight(clusters: seq<WeightedCluster>) {
    exists i, j :: 0 <= i < j < |clusters| && clusters[i] == clusters[j] && clusters[i].weight != 0
  }

  /** Putting the clusters into a route's set keeps the total exactly when no weighted entry is
      repeated; otherwise the route carries less than the split asked for. */
  lemma {:induction false} RouteKeepsWeightUnlessRepeated(clusters: seq<WeightedCluster>)
    requires forall c :: c in clusters ==> c.weight >= 0
    ensures SetWeight(Elements(clusters)) <= TotalWeight(clusters)
    ensures SetWeight(Elements(clusters)) == TotalWeight(clusters) <==> !RepeatsWeight(clusters)
  {
    if clusters != [] {
      var n := |clusters| - 1;
      var front, c := clusters[..n], clusters[n];
      RouteKeepsWeightUnlessRepeated(front);
      assert clusters == front + [c];
      RepeatsLast(front, c);
      if c in front {
        assert Elements(clusters) == Elements(front);
      } else {
        assert Elements(clusters) == Elements(front) + {c};
        SetWeightRemove(Elements(clusters), c);
        assert Elements(clusters) - {c} == Elements(front);
      }
    }
  }

  lemma RepeatsLast(front: seq<WeightedCluster>, c: WeightedCluster)
    ensures RepeatsWeight(front + [c]) <==> RepeatsWeight(front) || (c in front && c.weight != 0)
  {
    var all := front + [c];
    if RepeatsWeight(front) {
      var i, j :| 0 <= i < j < |front| && front[i] == front[j] && front[i].weight != 0;
      assert all[i] == all[j];
    }
    if c in front && c.weight != 0 {
      var i :| 0 <= i < |front| && front[i] == c;
      assert all[i] == all[|front|];
    }
  }

  // ---------------------------------------------------------------------
  // In terms of the pieces of a split

  lemma RepeatsCat(a: seq<WeightedCluster>, b: seq<WeightedCluster>)
    ensures RepeatsWeight(a + b) <==>
      RepeatsWeight(a) || RepeatsWeight(b) || exists c :: c in a && c in b && c.weight != 0
  {
    var all := a + b;
    if RepeatsWeight(a) {
      var i, j :| 0 <= i < j < |a| && a[i] == a[j] && a[i].weight != 0;
      assert all[i] == all[j];
    }
    if RepeatsWeight(b) {
      var i, j :| 0 <= i < j < |b| && b[i] == b[j] && b[i].weight != 0;
      assert all[|a| + i] == all[|a| + j];
    }
    if c :| c in a && c in b && c.weight != 0 {
      var i, j :| 0 <= i < |a| && 0 <= j < |b| && a[i] == c && b[j] == c;
      assert all[i] == all[|a| + j];
    }
    if RepeatsWeight(all) {
      var i, j :| 0 <= i < j < |all| && all[i] == all[j] && all[i].weight != 0;
      if j < |a| {
        assert a[i] == a[j];
      } else if i < |a| {
        assert a[i] in a && b[j - |a|] in b;
      } else {
        assert b[i - |a|] == b[j - |a|];
      }
    }
  }

  /** The two pieces hold the same cluster with the same, nonzero weight. */
  ghost predicate Clash(a: seq<WeightedCluster>, b: seq<WeightedCluster>) {
    exists c :: c in a && c in b && c.weight != 0
  }

  lemma {:induction false} InFlatten(pieces: seq<seq<WeightedCluster>>, c: WeightedCluster)
    ensures c in Flatten(pieces) <==> exists i :: 0 <= i < |pieces| && c in pieces[i]
  {
    if pieces != [] {
      var n := |pieces| - 1;
      InFlatten(pieces[..n], c);
      if i :| 0 <= i < |pieces| && c in pieces[i] {
        if i < n { assert c in pieces[..n][i]; }
      }
    }
  }

  /** Two of the pieces clash. */
  ghost predicate SomeClash(pieces: seq<seq<WeightedCluster>>) {
    exists i, j :: 0 <= i < j < |pieces| && Clash(pieces[i], pieces[j])
  }

  lemma {:induction false} RepeatsExactly(pieces: seq<seq<WeightedCluster>>)
    requires forall i :: 0 <= i < |pieces| ==> !RepeatsWeight(pieces[i])
    ensures RepeatsWeight(Flatten(pieces)) <==> SomeClash(pieces)
  {
    if pieces != [] {
      var n := |pieces| - 1;
      RepeatsExactly(pieces[..n]);
      RepeatsCat(Flatten(pieces[..n]), pieces[n]);
      LastClashes(pieces[..n], pieces[n]);
      ClashSplits(pieces, n);
    }
  }

  lemma ClashSplits(pieces: seq<seq<WeightedCluster>>, n: nat)
    requires |pieces| == n + 1
    ensures SomeClash(pieces) <==> SomeClash(pieces[..n]) || exists i :: 0 <= i < n && Clash(pieces[..n][i], pieces[n])
  {
    var front, last := pieces[..n], pieces[n];
    if SomeClash(pieces) {
      var i, j :| 0 <= i < j < |pieces| && Clash(pieces[i], pieces[j]);
      if j < n { assert Clash(front[i], front[j]); } else { assert Clash(front[i], last); }
    }
    if SomeClash(front) {
      var i, j :| 0 <= i < j < |front| && Clash(front[i], front[j]);
      assert Clash(pieces[i], pieces[j]);
    }
    if i :| 0 <= i < n && Clash(front[i], last) { assert Clash(pieces[i], pieces[n]); }
  }

  lemma {:induction false} LastClashes(front: seq<seq<WeightedCluster>>, last: seq<WeightedCluster>)
    ensures (exists c :: c in Flatten(front) && c in last && c.weight != 0) <==>
      exists i :: 0 <= i < |front| && Clash(front[i], last)
  {
    forall c ensures c in Flatten(front) <==> exists i :: 0 <= i < |front| && c in front[i] { InFlatten(front, c); }
  }

  // ---------------------------------------------------------------------
  // In terms of the backends

  /** The service a backend stands for. */
  function Target(ns: string, backend: Backend): (string, string) {
    (backend.namespace.GetOr(ns), backend.service)
  }

  /** A piece repeats nothing by itself, weighs nothing negative, and its weighted clusters are the
      active ones of its own service. */
  lemma PieceEntries(ns: string, backend: Backend, d: Discovery, r: seq<WeightedCluster>)
    requires SpreadsBackend(ns, backend, d, r) && backend.weight >= 0
    ensures !RepeatsWeight(r) && forall c :: c in r ==> c.weight >= 0
    ensures forall c :: c in r && c.weight != 0 ==> (c.name.namespace, c.name.name) == Target(ns, backend)
  {
    var (namespace, service) := Target(ns, backend);
    var aas, fos := PieceParts(ns, backend, d, r);
    var shares := Shares(backend.weight, aas);
    forall i | 0 <= i < |aas| ensures shares[i].weight >= 0 && shares[i].name in ActiveNames(namespace, service, d) {
      SharesAreFair(backend.weight, |aas|, i, i);
      assert aas[i] in Elements(aas);
    }
    assert forall i :: 0 <= i < |r| ==> r[i] == if i < |aas| then shares[i] else FailOvers(fos)[i - |aas|];
  }

  lemma PieceParts(ns: string, backend: Backend, d: Discovery, r: seq<WeightedCluster>)
    returns (aas: seq<ClusterName>, fos: seq<ClusterName>)
    requires SpreadsBackend(ns, backend, d, r)
    ensures r == Shares(backend.weight, aas) + FailOvers(fos) && NoDuplicates(aas) && NoDuplicates(fos)
    ensures LocalFirst(Target(ns, backend).0, backend.service, d, aas)
    ensures Elements(aas) == ActiveNames(Target(ns, backend).0, backend.service, d)
    ensures Elements(fos) == RemoteNames(Target(ns, backend).0, backend.service, d, d.remote.Keys, false)
  {
    var namespace := Target(ns, backend).0;
    aas, fos :|
      && r == Shares(backend.weight, aas) + FailOvers(fos) && LocalFirst(namespace, backend.service, d, aas)
      && NoDuplicates(aas) && Elements(aas) == ActiveNames(namespace, backend.service, d)
      && NoDuplicates(fos) && Elements(fos) == RemoteNames(namespace, backend.service, d, d.remote.Keys, false);
  }

  /** Two backends of one service whose pieces share a weighted entry. */
  ghost predicate SharesEntry(ns: string, backends: seq<Backend>, pieces: seq<seq<WeightedCluster>>) {
    |pieces| == |backends| &&
    exists i, j :: 0 <= i < j < |pieces| && Target(ns, backends[i]) == Target(ns, backends[j]) &&
      Clash(pieces[i], pieces[j])
  }

  /** A route carries the weight of a split exactly when no two backends of one service end up with
      the same share for the same cluster; otherwise it carries less. */
  lemma {:induction false} RouteTotalExactly(ns: string, backends: seq<Backend>, ds: seq<Discovery>,
                                             pieces: seq<seq<WeightedCluster>>)
    requires |backends| == |ds| && Pieces(ns, backends, ds, pieces)
    requires forall i :: 0 <= i < |backends| ==> backends[i].weight >= 0
    ensures SetWeight(Elements(Flatten(pieces))) <= ActiveWeight(backends, ds)
    ensures SetWeight(Elements(Flatten(pieces))) == ActiveWeight(backends, ds) <==> !SharesEntry(ns, backends, pieces)
  {
    forall i | 0 <= i < |pieces|
      ensures !RepeatsWeight(pieces[i])
      ensures forall c :: c in pieces[i] ==> c.weight >= 0
      ensures forall c :: c in pieces[i] && c.weight != 0 ==> (c.name.namespace, c.name.name) == Target(ns, backends[i])
    {
      PieceEntries(ns, backends[i], ds[i], pieces[i]);
    }
    forall c | c in Flatten(pieces) ensures c.weight >= 0 { InFlatten(pieces, c); }
    RouteKeepsWeightUnlessRepeated(Flatten(pieces));
    SplitConservesWeight(ns, backends, ds, pieces);
    RepeatsExactly(pieces);
  }

  /** So a split that names each service once loses nothing. */
  lemma {:induction false} DistinctServicesKeepWeight(ns: string, backends: seq<Backend>, ds: seq<Discovery>,
                                                      pieces: seq<seq<WeightedCluster>>)
    requires |backends| == |ds| && Pieces(ns, backends, ds, pieces)
    requires forall i :: 0 <= i < |backends| ==> backends[i].weight >= 0
    requires forall i, j :: 0 <= i < j < |backends| ==> Target(ns, backends[i]) != Target(ns, backends[j])
    ensures SetWeight(Elements(Flatten(pieces))) == ActiveWeight(backends, ds)
  {
    RouteTotalExactly(ns, backends, ds, pieces);
  }

  // ---------------------------------------------------------------------
  // Weights that divide evenly

  function ActiveCount(ns: string, backend: Backend, d: Discovery): nat {
    |ActiveNames(Target(ns, backend).0, backend.service, d)|
  }

  predicate Even(ns: string, backend: Backend, d: Discovery) {
    ActiveCount(ns, backend, d) != 0 ==> backend.weight % ActiveCount(ns, backend, d) == 0
  }

  lemma {:induction false} DistinctCount<T>(s: seq<T>)
    requires NoDuplicates(s)
    ensures |Elements(s)| == |s|
  {
    if s != [] {
      var n := |s| - 1;
      DistinctCount(s[..n]);
      assert s == s[..n] + [s[n]];
      ElementsAppend(s[..n], s[n]);
      assert s[n] !in Elements(s[..n]);
    }
  }

  lemma EvenShares(w: nat, aas: seq<ClusterName>)
    requires aas != [] && w > 0 && w % |aas| == 0
    ensures forall c :: c in Shares(w, aas) <==> c.name in aas && c.weight == w / |aas|
    ensures w / |aas| > 0
  {
    EvenShare(w, |aas|);
    var shares := Shares(w, aas);
    assert forall i :: 0 <= i < |aas| ==> shares[i] == WeightedCluster(aas[i], w / |aas|);
    forall c: WeightedCluster | c.name in aas && c.weight == w / |aas| ensures c in shares {
      var i :| 0 <= i < |aas| && aas[i] == c.name;
      assert shares[i] == c;
    }
  }

  /** An even weight goes to every active cluster in equal parts, whatever their order. */
  lemma EvenPiece(ns: string, backend: Backend, d: Discovery, r: seq<WeightedCluster>)
    requires SpreadsBackend(ns, backend, d, r) && backend.weight > 0 && Even(ns, backend, d)
    ensures forall c :: c in r && c.weight != 0 <==>
      c.name in ActiveNames(Target(ns, backend).0, backend.service, d) &&
      c.weight == backend.weight / ActiveCount(ns, backend, d)
  {
    var aas, fos := PieceParts(ns, backend, d, r);
    DistinctCount(aas);
    if aas != [] { EvenShares(backend.weight, aas); }
    var shares, failOvers := Shares(backend.weight, aas), FailOvers(fos);
    assert forall c :: c in failOvers ==> c.weight == 0;
    assert forall c :: c in r <==> c in shares || c in failOvers;
    assert forall name :: name in aas <==> name in Elements(aas);
  }

  lemma EvenShare(w: nat, n: nat)
    requires 0 < n && 0 < w && w % n == 0
    ensures w / n > 0 && forall i: nat :: i < n ==> Share(w, n, i) == w / n
  {
    assert w == n * (w / n) + w % n;
  }

  /** The same service listed twice with the same weight. */
  predicate SameTwice(ns: string, backends: seq<Backend>, ds: seq<Discovery>, i: nat, j: nat)
    requires |backends| == |ds| && i < |backends| && j < |backends|
  {
    && Target(ns, backends[i]) == Target(ns, backends[j]) && HasActive(ds[i])
    && backends[i].weight == backends[j].weight != 0
  }

  lemma {:induction false} EvenClash(ns: string, backends: seq<Backend>, ds: seq<Discovery>,
                                     pieces: seq<seq<WeightedCluster>>, i: nat, j: nat)
    requires |backends| == |ds| && Pieces(ns, backends, ds, pieces) && i < j < |pieces|
    requires backends[i].weight >= 0 && backends[j].weight >= 0
    requires Even(ns, backends[i], ds[i]) && Even(ns, backends[j], ds[j])
    requires Target(ns, backends[i]) == Target(ns, backends[j]) && ds[i] == ds[j]
    ensures Clash(pieces[i], pieces[j]) <==> SameTwice(ns, backends, ds, i, j)
  {
    var names := ActiveNames(Target(ns, backends[i]).0, backends[i].service, ds[i]);
    var n := ActiveCount(ns, backends[i], ds[i]);
    ActiveExists(Target(ns, backends[i]).0, backends[i].service, ds[i]);
    if backends[i].weight == 0 || backends[j].weight == 0 {
      NoClashWithZero(ns, backends[i], ds[i], pieces[i]);
      NoClashWithZero(ns, backends[j], ds[j], pieces[j]);
    } else {
      EvenPiece(ns, backends[i], ds[i], pieces[i]);
      EvenPiece(ns, backends[j], ds[j], pieces[j]);
      if names != {} {
        var name :| name in names;
        SameQuotient(backends[i].weight, backends[j].weight, n);
        assert SameTwice(ns, backends, ds, i, j) ==> WeightedCluster(name, backends[i].weight / n) in pieces[i];
      }
    }
  }

  lemma SameQuotient(v: nat, w: nat, n: nat)
    requires n > 0 && v % n == 0 && w % n == 0
    ensures v / n == w / n <==> v == w
  {
    assert v == n * (v / n) + v % n && w == n * (w / n) + w % n;
  }

  lemma NoClashWithZero(ns: string, backend: Backend, d: Discovery, r: seq<WeightedCluster>)
    requires SpreadsBackend(ns, backend, d, r) && backend.weight >= 0
    ensures backend.weight == 0 ==> forall c :: c in r ==> c.weight == 0
  {
    var aas, fos := PieceParts(ns, backend, d, r);
    if backend.weight == 0 {
      forall i | 0 <= i < |aas| ensures Share(0, |aas|, i) == 0 { SharesAreFair(0, |aas|, i, i); }
      assert forall i :: 0 <= i < |r| ==> r[i] == if i < |aas| then Shares(0, aas)[i] else FailOvers(fos)[i - |aas|];
    }
  }

  /** Some service with an active cluster is listed twice with the same, nonzero weight. */
  ghost predicate ListedTwice(ns: string, backends: seq<Backend>, ds: seq<Discovery>)
    requires |backends| == |ds|
  {
    exists i: nat, j: nat :: i < j < |backends| && SameTwice(ns, backends, ds, i, j)
  }

  /** What is known of a service does not depend on which backend asks. */
  ghost predicate SameDiscovery(ns: string, backends: seq<Backend>, ds: seq<Discovery>)
    requires |backends| == |ds|
  {
    forall i, j :: 0 <= i < j < |backends| && Target(ns, backends[i]) == Target(ns, backends[j]) ==> ds[i] == ds[j]
  }

  ghost predicate EvenWeights(ns: string, backends: seq<Backend>, ds: seq<Discovery>)
    requires |backends| == |ds|
  {
    forall i :: 0 <= i < |backends| ==> backends[i].weight >= 0 && Even(ns, backends[i], ds[i])
  }

  lemma {:induction false} EvenEntriesExactly(ns: string, backends: seq<Backend>, ds: seq<Discovery>,
                                              pieces: seq<seq<WeightedCluster>>)
    requires |backends| == |ds| && Pieces(ns, backends, ds, pieces)
    requires EvenWeights(ns, backends, ds) && SameDiscovery(ns, backends, ds)
    ensures SharesEntry(ns, backends, pieces) <==> ListedTwice(ns, backends, ds)
  {
    forall i: nat, j: nat | i < j < |pieces| && Target(ns, backends[i]) == Target(ns, backends[j])
      ensures Clash(pieces[i], pieces[j]) <==> SameTwice(ns, backends, ds, i, j)
    {
      EvenClash(ns, backends, ds, pieces, i, j);
    }
    TwiceExactly(ns, backends, ds, pieces);
  }

  lemma {:induction false} TwiceExactly(ns: string, backends: seq<Backend>, ds: seq<Discovery>,
                                        pieces: seq<seq<WeightedCluster>>)
    requires |backends| == |ds| == |pieces|
    requires forall i: nat, j: nat :: i < j < |pieces| && Target(ns, backends[i]) == Target(ns, backends[j]) ==>
      (Clash(pieces[i], pieces[j]) <==> SameTwice(ns, backends, ds, i, j))
    ensures SharesEntry(ns, backends, pieces) <==> ListedTwice(ns, backends, ds)
  {
    if ListedTwice(ns, backends, ds) {
      var i: nat, j: nat :| i < j < |backends| && SameTwice(ns, backends, ds, i, j);
      assert Clash(pieces[i], pieces[j]);
    }
  }

  /** When every weight divides evenly over the active clusters of its service, and whatever order
      these come in, the route carries the weight of the split exactly when no service with an
      active cluster is listed twice with the same, nonzero weight. */
  lemma {:induction false} EvenRouteTotalExactly(ns: string, backends: seq<Backend>, ds: seq<Discovery>,
                                                 pieces: seq<seq<WeightedCluster>>)
    requires |backends| == |ds| && Pieces(ns, backends, ds, pieces)
    requires EvenWeights(ns, backends, ds) && SameDiscovery(ns, backends, ds)
    ensures SetWeight(Elements(Flatten(pieces))) <= ActiveWeight(backends, ds)
    ensures SetWeight(Elements(Flatten(pieces))) == ActiveWeight(backends, ds) <==> !ListedTwice(ns, backends, ds)
  {
    RouteTotalExactly(ns, backends, ds, pieces);
    EvenEntriesExactly(ns, backends, ds, pieces);
  }

  // ---------------------------------------------------------------------
  // Weights of any kind, in every order

  /** The shares that some order gives to a cluster other than the local one, of weight `w` spread over
      `n` clusters. */
  predicate Possible(w: nat, n: nat, local: bool, v: int)
    requires n > 0
  {
    (v == w / n && w % n + (if local then 1 else 0) < n) || (v == w / n + 1 && w % n > 0)
  }

  /** Two weights of one service can give a cluster the same, nonzero share: the local cluster gets the
      quotient in every order, the others what is possible. */
  predicate CanClash(w1: nat, w2: nat, n: nat, local: bool)
    requires n > 0
  {
    || (local && w1 / n == w2 / n != 0)
    || (w1 / n != 0 && Possible(w1, n, local, w1 / n) && Possible(w2, n, local, w1 / n))
    || (Possible(w1, n, local, w1 / n + 1) && Possible(w2, n, local, w1 / n + 1))
  }

  predicate IsLocal(d: Discovery, name: ClusterName) {
    d.local == Some(name.targetPort)
  }

  lemma LocalGetsQuotient(w: nat, n: nat)
    requires n > 0
    ensures Share(w, n, 0) == w / n
  {
  }

  lemma ShareIsPossible(w: nat, n: nat, local: bool, p: nat)
    requires (if local then 1 else 0) <= p < n
    ensures Possible(w, n, local, Share(w, n, p))
  {
  }

  /** What a cluster gets in any order is what the order can give it. */
  lemma SharesArePossible(ns: string, backend: Backend, d: Discovery, r: seq<WeightedCluster>, c: WeightedCluster)
    requires SpreadsBackend(ns, backend, d, r) && backend.weight >= 0 && c in r && c.weight != 0
    ensures ActiveCount(ns, backend, d) > 0 && HasActive(d)
    ensures if IsLocal(d, c.name) then c.weight == backend.weight / ActiveCount(ns, backend, d)
      else Possible(backend.weight, ActiveCount(ns, backend, d), d.local.Some?, c.weight)
  {
    var aas, fos := PieceParts(ns, backend, d, r);
    DistinctCount(aas);
    var shares, failOvers := Shares(backend.weight, aas), FailOvers(fos);
    assert forall x :: x in failOvers ==> x.weight == 0;
    assert c in shares;
    var p :| 0 <= p < |aas| && shares[p] == c;
    ActiveExists(Target(ns, backend).0, backend.service, d);
    assert aas[p] in Elements(aas);
    if IsLocal(d, c.name) {
      assert p == 0;
      LocalGetsQuotient(backend.weight, |aas|);
    } else {
      assert d.local.Some? ==> p != 0;
      ShareIsPossible(backend.weight, |aas|, d.local.Some?, p);
    }
  }

  lemma ClashIsPossible(ns: string, b1: Backend, b2: Backend, d: Discovery, r1: seq<WeightedCluster>,
                        r2: seq<WeightedCluster>)
    requires SpreadsBackend(ns, b1, d, r1) && SpreadsBackend(ns, b2, d, r2) && b1.weight >= 0 && b2.weight >= 0
    requires Target(ns, b1) == Target(ns, b2) && Clash(r1, r2)
    ensures HasActive(d) && ActiveCount(ns, b1, d) > 0
    ensures CanClash(b1.weight, b2.weight, ActiveCount(ns, b1, d), d.local.Some?)
  {
    var c :| c in r1 && c in r2 && c.weight != 0;
    SharesArePossible(ns, b1, d, r1, c);
    SharesArePossible(ns, b2, d, r2, c);
  }

  // Orders that the map of ports can come in

  lemma {:induction false} Enumerate<T>(s: set<T>) returns (r: seq<T>)
    ensures NoDuplicates(r) && Elements(r) == s && |r| == |s|
    decreases s
  {
    if s == {} {
      r := [];
    } else {
      var x :| x in s;
      var rest := Enumerate(s - {x});
      ElementsAppend(rest, x);
      r := rest + [x];
    }
  }

  /** The other elements around `x`, with `x` at position `p`. */
  lemma Insert<T>(s: set<T>, x: T, p: nat) returns (r: seq<T>)
    requires x in s && p < |s|
    ensures NoDuplicates(r) && Elements(r) == s && |r| == |s| && r[p] == x
  {
    var rest := Enumerate(s - {x});
    r := rest[..p] + [x] + rest[p..];
    assert forall y :: y in rest <==> y in Elements(rest);
    assert forall y :: y in rest <==> y in rest[..p] || y in rest[p..];
    forall i, j | 0 <= i < j < |r| ensures r[i] != r[j] {
      assert r[i] == if i < p then rest[i] else if i == p then x else rest[i - 1];
      assert r[j] == if j < p then rest[j] else if j == p then x else rest[j - 1];
    }
  }

  /** An order of the active clusters with the local one first and `name` at position `p`. */
  lemma Arrange(ns: string, service: string, d: Discovery, name: ClusterName, p: nat) returns (aas: seq<ClusterName>)
    requires name in ActiveNames(ns, service, d) && !IsLocal(d, name)
    requires (if d.local.Some? then 1 else 0) <= p < |ActiveNames(ns, service, d)|
    ensures NoDuplicates(aas) && Elements(aas) == ActiveNames(ns, service, d) && LocalFirst(ns, service, d, aas)
    ensures |aas| == |ActiveNames(ns, service, d)| && aas[p] == name
  {
    var names := ActiveNames(ns, service, d);
    if d.local.Some? {
      var first := NameFor(ns, service, d.local.value);
      var rest := Insert(names - {first}, name, p - 1);
      aas := [first] + rest;
      assert forall y :: y in rest <==> y in Elements(rest);
      assert forall y :: y in aas <==> y == first || y in rest;
    } else {
      aas := Insert(names, name, p);
    }
  }

  /** Some order, whatever the backend. */
  lemma AnyPiece(ns: string, backend: Backend, d: Discovery) returns (r: seq<WeightedCluster>)
    ensures SpreadsBackend(ns, backend, d, r)
  {
    var (namespace, service) := Target(ns, backend);
    var names := ActiveNames(namespace, service, d);
    var aas;
    if d.local.Some? {
      aas := Insert(names, NameFor(namespace, service, d.local.value), 0);
    } else {
      aas := Enumerate(names);
    }
    var fos := Enumerate(RemoteNames(namespace, service, d, d.remote.Keys, false));
    r := Shares(backend.weight, aas) + FailOvers(fos);
  }

  /** An order in which a cluster gets a share that is possible for it. */
  lemma PieceWith(ns: string, backend: Backend, d: Discovery, name: ClusterName, v: int)
    returns (r: seq<WeightedCluster>)
    requires backend.weight >= 0 && name in ActiveNames(Target(ns, backend).0, backend.service, d) && !IsLocal(d, name)
    requires ActiveCount(ns, backend, d) > 0 && Possible(backend.weight, ActiveCount(ns, backend, d), d.local.Some?, v)
    ensures SpreadsBackend(ns, backend, d, r) && WeightedCluster(name, v) in r
  {
    var (namespace, service) := Target(ns, backend);
    var n, w := ActiveCount(ns, backend, d), backend.weight;
    var first: nat := if d.local.Some? then 1 else 0;
    var p := if v == w / n && w % n + first < n then first else n - 1;
    var aas := Arrange(namespace, service, d, name, p);
    assert Share(w, n, p) == v;
    var fos := Enumerate(RemoteNames(namespace, service, d, d.remote.Keys, false));
    r := Shares(w, aas) + FailOvers(fos);
    assert r[p] == WeightedCluster(name, v);
  }

  /** In every order the local cluster gets the quotient. */
  lemma LocalShare(ns: string, backend: Backend, d: Discovery, r: seq<WeightedCluster>)
    requires SpreadsBackend(ns, backend, d, r) && backend.weight >= 0 && d.local.Some?
    ensures ActiveCount(ns, backend, d) > 0
    ensures WeightedCluster(NameFor(Target(ns, backend).0, backend.service, d.local.value),
                            backend.weight / ActiveCount(ns, backend, d)) in r
  {
    var aas, fos := PieceParts(ns, backend, d, r);
    DistinctCount(aas);
    LocalGetsQuotient(backend.weight, |aas|);
    assert r[0] == Shares(backend.weight, aas)[0];
  }

  /** There is a cluster besides the local one wherever a share is possible for one. */
  lemma OtherCluster(ns: string, backend: Backend, d: Discovery, v: int) returns (name: ClusterName)
    requires backend.weight >= 0 && ActiveCount(ns, backend, d) > 0
    requires Possible(backend.weight, ActiveCount(ns, backend, d), d.local.Some?, v)
    ensures name in ActiveNames(Target(ns, backend).0, backend.service, d) && !IsLocal(d, name)
  {
    var (namespace, service) := Target(ns, backend);
    var names := ActiveNames(namespace, service, d);
    if d.local.Some? {
      var first := NameFor(namespace, service, d.local.value);
      assert |names - {first}| == |names| - 1 > 0;
      name :| name in names - {first};
    } else {
      name :| name in names;
    }
  }

  lemma LocalClash(ns: string, b1: Backend, b2: Backend, d: Discovery)
    returns (r1: seq<WeightedCluster>, r2: seq<WeightedCluster>)
    requires b1.weight >= 0 && b2.weight >= 0 && Target(ns, b1) == Target(ns, b2) && d.local.Some?
    requires var n := ActiveCount(ns, b1, d); n > 0 && b1.weight / n == b2.weight / n != 0
    ensures SpreadsBackend(ns, b1, d, r1) && SpreadsBackend(ns, b2, d, r2) && Clash(r1, r2)
  {
    r1 := AnyPiece(ns, b1, d);
    r2 := AnyPiece(ns, b2, d);
    LocalShare(ns, b1, d, r1);
    LocalShare(ns, b2, d, r2);
  }

  lemma OtherClash(ns: string, b1: Backend, b2: Backend, d: Discovery, v: int)
    returns (r1: seq<WeightedCluster>, r2: seq<WeightedCluster>)
    requires b1.weight >= 0 && b2.weight >= 0 && Target(ns, b1) == Target(ns, b2) && ActiveCount(ns, b1, d) > 0
    requires v != 0 && Possible(b1.weight, ActiveCount(ns, b1, d), d.local.Some?, v)
    requires Possible(b2.weight, ActiveCount(ns, b1, d), d.local.Some?, v)
    ensures SpreadsBackend(ns, b1, d, r1) && SpreadsBackend(ns, b2, d, r2) && Clash(r1, r2)
  {
    var name := OtherCluster(ns, b1, d, v);
    r1 := PieceWith(ns, b1, d, name, v);
    r2 := PieceWith(ns, b2, d, name, v);
  }

  /** Two orders that clash, where the weights can. */
  lemma ClashingPieces(ns: string, b1: Backend, b2: Backend, d: Discovery)
    returns (r1: seq<WeightedCluster>, r2: seq<WeightedCluster>)
    requires b1.weight >= 0 && b2.weight >= 0 && Target(ns, b1) == Target(ns, b2) && ActiveCount(ns, b1, d) > 0
    requires CanClash(b1.weight, b2.weight, ActiveCount(ns, b1, d), d.local.Some?)
    ensures SpreadsBackend(ns, b1, d, r1) && SpreadsBackend(ns, b2, d, r2) && Clash(r1, r2)
  {
    var n := ActiveCount(ns, b1, d);
    var q := b1.weight / n;
    if d.local.Some? && q == b2.weight / n != 0 {
      r1, r2 := LocalClash(ns, b1, b2, d);
    } else {
      var v := if q != 0 && Possible(b1.weight, n, d.local.Some?, q) && Possible(b2.weight, n, d.local.Some?, q)
        then q else q + 1;
      assert Possible(b1.weight, n, d.local.Some?, v) && Possible(b2.weight, n, d.local.Some?, v);
      r1, r2 := OtherClash(ns, b1, b2, d, v);
    }
  }

  lemma {:induction false} AnyPieces(ns: string, backends: seq<Backend>, ds: seq<Discovery>)
    returns (pieces: seq<seq<WeightedCluster>>)
    requires |backends| == |ds|
    ensures Pieces(ns, backends, ds, pieces)
  {
    if backends == [] {
      pieces := [];
    } else {
      var n := |backends| - 1;
      var front := AnyPieces(ns, backends[..n], ds[..n]);
      var last := AnyPiece(ns, backends[n], ds[n]);
      pieces := front + [last];
    }
  }

  /** Some two backends of one service can clash. */
  ghost predicate SomeCanClash(ns: string, backends: seq<Backend>, ds: seq<Discovery>)
    requires |backends| == |ds| && forall i :: 0 <= i < |backends| ==> backends[i].weight >= 0
  {
    exists i, j :: 0 <= i < j < |backends| && PairCanClash(ns, backends[i], backends[j], ds[i])
  }

  predicate PairCanClash(ns: string, b1: Backend, b2: Backend, d: Discovery)
    requires b1.weight >= 0 && b2.weight >= 0
  {
    Target(ns, b1) == Target(ns, b2) && ActiveCount(ns, b1, d) > 0 &&
    CanClash(b1.weight, b2.weight, ActiveCount(ns, b1, d), d.local.Some?)
  }

  /** For weights of any kind: the routes carry the weight of the split in every order that the ports
      can come in, exactly when no two backends of one service can give a cluster the same, nonzero
      share. */
  lemma {:induction false} EveryOrderKeepsExactly(ns: string, backends: seq<Backend>, ds: seq<Discovery>)
    requires |backends| == |ds| && SameDiscovery(ns, backends, ds)
    requires forall i :: 0 <= i < |backends| ==> backends[i].weight >= 0
    ensures (forall pieces :: Pieces(ns, backends, ds, pieces) ==>
               SetWeight(Elements(Flatten(pieces))) == ActiveWeight(backends, ds)) <==>
      !SomeCanClash(ns, backends, ds)
  {
    if SomeCanClash(ns, backends, ds) {
      var i, j :| 0 <= i < j < |backends| && PairCanClash(ns, backends[i], backends[j], ds[i]);
      var pieces := OrderThatClashes(ns, backends, ds, i, j);
      RouteTotalExactly(ns, backends, ds, pieces);
    } else {
      forall pieces | Pieces(ns, backends, ds, pieces)
        ensures SetWeight(Elements(Flatten(pieces))) == ActiveWeight(backends, ds)
      {
        OnlyPossibleClashes(ns, backends, ds, pieces);
        RouteTotalExactly(ns, backends, ds, pieces);
      }
    }
  }

  lemma {:induction false} OrderThatClashes(ns: string, backends: seq<Backend>, ds: seq<Discovery>, i: nat, j: nat)
    returns (pieces: seq<seq<WeightedCluster>>)
    requires |backends| == |ds| && i < j < |backends| && SameDiscovery(ns, backends, ds)
    requires backends[i].weight >= 0 && backends[j].weight >= 0 && PairCanClash(ns, backends[i], backends[j], ds[i])
    ensures Pieces(ns, backends, ds, pieces) && SharesEntry(ns, backends, pieces)
  {
    var any := AnyPieces(ns, backends, ds);
    var r1, r2 := ClashingPieces(ns, backends[i], backends[j], ds[i]);
    ReplacePiece(ns, backends, ds, any, i, r1);
    ReplacePiece(ns, backends, ds, any[i := r1], j, r2);
    pieces := any[i := r1][j := r2];
    assert pieces[i] == r1 && pieces[j] == r2;
  }

  lemma {:induction false} ReplacePiece(ns: string, backends: seq<Backend>, ds: seq<Discovery>,
                                        pieces: seq<seq<WeightedCluster>>, i: nat, r: seq<WeightedCluster>)
    requires |backends| == |ds| && i < |backends| && Pieces(ns, backends, ds, pieces)
    requires SpreadsBackend(ns, backends[i], ds[i], r)
    ensures Pieces(ns, backends, ds, pieces[i := r])
  {
  }

  lemma {:induction false} OnlyPossibleClashes(ns: string, backends: seq<Backend>, ds: seq<Discovery>,
                                               pieces: seq<seq<WeightedCluster>>)
    requires |backends| == |ds| && SameDiscovery(ns, backends, ds) && Pieces(ns, backends, ds, pieces)
    requires forall i :: 0 <= i < |backends| ==> backends[i].weight >= 0
    ensures SharesEntry(ns, backends, pieces) ==> SomeCanClash(ns, backends, ds)
  {
    if SharesEntry(ns, backends, pieces) {
      var i, j :| 0 <= i < j < |pieces| && Target(ns, backends[i]) == Target(ns, backends[j]) &&
        Clash(pieces[i], pieces[j]);
      ClashIsPossible(ns, backends[i], backends[j], ds[i], pieces[i], pieces[j]);
      assert PairCanClash(ns, backends[i], backends[j], ds[i]);
    }
  }

  /** A service known here that is listed twice with the same quotient loses weight in every order: for
      instance twice 51 over the local and one other cluster. */
  lemma {:induction false} SameQuotientLoses(ns: string, backends: seq<Backend>, ds: seq<Discovery>,
                                             pieces: seq<seq<WeightedCluster>>, i: nat, j: nat)
    requires |backends| == |ds| && Pieces(ns, backends, ds, pieces) && i < j < |backends|
    requires forall k :: 0 <= k < |backends| ==> backends[k].weight >= 0
    requires Target(ns, backends[i]) == Target(ns, backends[j]) && ds[i] == ds[j] && ds[i].local.Some?
    requires ActiveCount(ns, backends[i], ds[i]) > 0
    requires var n := ActiveCount(ns, backends[i], ds[i]); backends[i].weight / n == backends[j].weight / n != 0
    ensures SetWeight(Elements(Flatten(pieces))) < ActiveWeight(backends, ds)
  {
    LocalShare(ns, backends[i], ds[i], pieces[i]);
    LocalShare(ns, backends[j], ds[j], pieces[j]);
    assert Clash(pieces[i], pieces[j]);
    RouteTotalExactly(ns, backends, ds, pieces);
  }

  /** A failing input: one service, known here only, listed twice with weight 50. The split asks for
      100, and the route carries less. */
  lemma {:induction false} SameBackendTwice(ns: string, backends: seq<Backend>, ds: seq<Discovery>,
                                            pieces: seq<seq<WeightedCluster>>)
    requires |backends| == |ds| == 2 && backends[0] == backends[1] && ds[0] == ds[1] && Pieces(ns, backends, ds, pieces)
    requires backends[0].weight == 50 && ds[0].local.Some? && ds[0].remote == map[]
    ensures ActiveWeight(backends, ds) == 100 && SetWeight(Elements(Flatten(pieces))) < 100
  {
    TwiceActive(backends, ds);
    TwiceListed(ns, backends, ds);
    EvenRouteTotalExactly(ns, backends, ds, pieces);
  }

  lemma {:induction false} TwiceActive(backends: seq<Backend>, ds: seq<Discovery>)
    requires |backends| == |ds| == 2 && backends[0] == backends[1] && HasActive(ds[0]) && ds[0] == ds[1]
    ensures ActiveWeight(backends, ds) == 2 * backends[0].weight
  {
    var b1, d1 := backends[..1], ds[..1];
    assert b1[..0] == [] && d1[..0] == [];
    assert ActiveWeight(b1, d1) == backends[0].weight;
  }

  lemma {:induction false} TwiceListed(ns: string, backends: seq<Backend>, ds: seq<Discovery>)
    requires |backends| == |ds| == 2 && backends[0] == backends[1] && ds[0] == ds[1] && backends[0].weight > 0
    requires ds[0].local.Some? && ds[0].remote == map[]
    ensures EvenWeights(ns, backends, ds) && SameDiscovery(ns, backends, ds) && ListedTwice(ns, backends, ds)
  {
    OneCluster(ns, backends[0], ds[0]);
    assert SameTwice(ns, backends, ds, 0, 1);
  }

  lemma OneCluster(ns: string, backend: Backend, d: Discovery)
    requires d.local.Some? && d.remote == map[]
    ensures Even(ns, backend, d)
  {
    var (namespace, service) := Target(ns, backend);
    assert ActiveNames(namespace, service, d) == {NameFor(namespace, service, d.local.value)};
  }
}
