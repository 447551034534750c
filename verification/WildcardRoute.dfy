/**
 The wildcard route of a service (`getWildCardRouteUpstreamClusters` in
 pkg/catalog/outbound_traffic_policies.go), the only HTTP route of a TrafficSplit
 without matches. It keeps the first entry per cluster name.
 */
module WildcardRoute {
  import opened Prelude
  import opened WeightSplit
  import opened SplitRoutes

  const ACCEPT_ALL_WEIGHT: int := 100

  /** The clusters of one split, and whether it has matches of its own. */
  datatype RouteMatch = RouteMatch(hasSplitMatches: bool, clusters: seq<WeightedCluster>)

  ghost predicate HasName(cs: seq<WeightedCluster>, name: ClusterName) {
    exists i :: 0 <= i < |cs| && cs[i].name == name
  }

  ghost predicate DistinctNames(cs: seq<WeightedCluster>) {
    forall i, j :: 0 <= i < j < |cs| ==> cs[i].name != cs[j].name
  }

  /** The first entry for each cluster name, in order. */
  ghost function FirstPerName(cs: seq<WeightedCluster>): seq<WeightedCluster> {
    if cs == [] then []
    else
      var n := |cs| - 1;
      var front := FirstPerName(cs[..n]);
      if HasName(cs[..n], cs[n].name) then front else front + [cs[n]]
  }

  /** The clusters of the splits without matches, or of all splits. */
  function Gathered(rms: seq<RouteMatch>, all: bool): seq<WeightedCluster> {
    if rms == [] then []
    else
      var n := |rms| - 1;
      Gathered(rms[..n], all) + if all || !rms[n].hasSplitMatches then rms[n].clusters else []
  }

  function Accepting(cs: seq<WeightedCluster>): seq<WeightedCluster> {
    seq(|cs|, i requires 0 <= i < |cs| => cs[i].(weight := ACCEPT_ALL_WEIGHT))
  }

  /** What the route holds after the entries `done`. */
  ghost function Kept(done: seq<WeightedCluster>, hasTrafficSplitWildCard: bool): seq<WeightedCluster> {
    if hasTrafficSplitWildCard then FirstPerName(done) else Accepting(FirstPerName(done))
  }

  lemma {:induction false} GatheredNames(rms: seq<RouteMatch>, all: bool, name: ClusterName)
    ensures HasName(Gathered(rms, all), name) <==>
      exists i :: 0 <= i < |rms| && (all || !rms[i].hasSplitMatches) && HasName(rms[i].clusters, name)
  {
    if rms != [] {
      var n := |rms| - 1;
      GatheredNames(rms[..n], all, name);
      NamesStay(Gathered(rms[..n], all), if all || !rms[n].hasSplitMatches then rms[n].clusters else [], name);
      if i :| 0 <= i < |rms| && (all || !rms[i].hasSplitMatches) && HasName(rms[i].clusters, name) {
        if i < n { assert HasName(rms[..n][i].clusters, name); }
      }
    }
  }

  /** The clusters of the route: once there is a split without matches, those of such splits, each with
      the weight of its first entry; else all of them, each with weight 100. */
  lemma {:induction false} RouteClustersExactly(rms: seq<RouteMatch>, wildcard: bool, r: seq<WeightedCluster>,
                                                name: ClusterName)
    requires wildcard ==> r == FirstPerName(Gathered(rms, false))
    requires !wildcard ==> r == Accepting(FirstPerName(Gathered(rms, true)))
    ensures HasName(r, name) <==>
      exists i :: 0 <= i < |rms| && (wildcard ==> !rms[i].hasSplitMatches) && HasName(rms[i].clusters, name)
    ensures !wildcard ==> forall i :: 0 <= i < |r| ==> r[i].weight == 100
    ensures wildcard ==> forall c :: c in r ==> IsFirst(Gathered(rms, false), c)
  {
    var first := FirstPerName(Gathered(rms, !wildcard));
    GatheredNames(rms, !wildcard, name);
    FirstPerNameExact(Gathered(rms, !wildcard));
    assert HasName(first, name) <==> HasName(Gathered(rms, !wildcard), name);
    if !wildcard { AcceptingNames(first, name); }
  }

  lemma AcceptingNames(cs: seq<WeightedCluster>, name: ClusterName)
    ensures HasName(Accepting(cs), name) <==> HasName(cs, name)
  {
    if i :| 0 <= i < |cs| && cs[i].name == name { assert Accepting(cs)[i].name == name; }
    if i :| 0 <= i < |Accepting(cs)| && Accepting(cs)[i].name == name { assert cs[i].name == name; }
  }

  method GetWildCardRouteUpstreamClusters(hasTrafficSplitWildCard: bool, routeMatches: seq<RouteMatch>)
    returns (upstream: seq<WeightedCluster>)
    ensures hasTrafficSplitWildCard ==> upstream == FirstPerName(Gathered(routeMatches, false))
    ensures !hasTrafficSplitWildCard ==> upstream == Accepting(FirstPerName(Gathered(routeMatches, true)))
  {
    upstream := [];
    var seen: set<ClusterName> := {};
    ghost var done: seq<WeightedCluster> := [];
    for i := 0 to |routeMatches|
      invariant done == Gathered(routeMatches[..i], !hasTrafficSplitWildCard)
      invariant forall name :: name in seen <==> HasName(done, name)
      invariant upstream == Kept(done, hasTrafficSplitWildCard)
    {
      assert routeMatches[..i + 1][..i] == routeMatches[..i];
      if hasTrafficSplitWildCard && routeMatches[i].hasSplitMatches { continue; }
      upstream, seen := AddClusters(hasTrafficSplitWildCard, routeMatches[i].clusters, upstream, seen, done);
      done := done + routeMatches[i].clusters;
    }
    assert routeMatches[..|routeMatches|] == routeMatches;
  }

  /** The inner loop: adds the clusters of one split whose names are new. */
  method AddClusters(hasTrafficSplitWildCard: bool, clusters: seq<WeightedCluster>, upstream: seq<WeightedCluster>,
                     seen: set<ClusterName>, ghost done: seq<WeightedCluster>)
    returns (upstream': seq<WeightedCluster>, seen': set<ClusterName>)
    requires upstream == Kept(done, hasTrafficSplitWildCard) && forall name :: name in seen <==> HasName(done, name)
    ensures upstream' == Kept(done + clusters, hasTrafficSplitWildCard)
    ensures forall name :: name in seen' <==> HasName(done + clusters, name)
  {
    upstream', seen' := upstream, seen;
    assert done + clusters[..0] == done;
    for j := 0 to |clusters|
      invariant forall name :: name in seen' <==> HasName(done + clusters[..j], name)
      invariant upstream' == Kept(done + clusters[..j], hasTrafficSplitWildCard)
    {
      assert done + clusters[..j + 1] == (done + clusters[..j]) + [clusters[j]];
      FirstOneMore(done + clusters[..j], clusters[j]);
      if clusters[j].name !in seen' {
        var weight := if hasTrafficSplitWildCard then clusters[j].weight else ACCEPT_ALL_WEIGHT;
        upstream' := upstream' + [WeightedCluster(clusters[j].name, weight)];
        seen' := seen' + {clusters[j].name};
      }
    }
    assert clusters[..|clusters|] == clusters;
  }

  lemma {:induction false} FirstOneMore(cs: seq<WeightedCluster>, c: WeightedCluster)
    ensures FirstPerName(cs + [c]) == if HasName(cs, c.name) then FirstPerName(cs) else FirstPerName(cs) + [c]
    ensures Accepting(FirstPerName(cs) + [c]) == Accepting(FirstPerName(cs)) + [c.(weight := ACCEPT_ALL_WEIGHT)]
    ensures forall name :: HasName(cs + [c], name) <==> HasName(cs, name) || name == c.name
  {
    var all := cs + [c];
    assert all[..|cs|] == cs && all[|cs|] == c;
    forall name ensures HasName(all, name) <==> HasName(cs, name) || name == c.name { HasNameLast(cs, c, name); }
  }

  lemma HasNameLast(cs: seq<WeightedCluster>, c: WeightedCluster, name: ClusterName)
    ensures HasName(cs + [c], name) <==> HasName(cs, name) || name == c.name
  {
    var all := cs + [c];
    if HasName(cs, name) {
      var i :| 0 <= i < |cs| && cs[i].name == name;
      assert all[i].name == name;
    }
    assert all[|cs|] == c;
  }

  // ---------------------------------------------------------------------
  // What the first entries are

  lemma {:induction false} FirstPerNameNames(cs: seq<WeightedCluster>, name: ClusterName)
    ensures HasName(FirstPerName(cs), name) <==> HasName(cs, name)
  {
    if cs != [] {
      var n := |cs| - 1;
      FirstPerNameNames(cs[..n], name);
      assert cs == cs[..n] + [cs[n]];
      HasNameLast(cs[..n], cs[n], name);
      HasNameLast(FirstPerName(cs[..n]), cs[n], name);
    }
  }

  lemma {:induction false} FirstPerNameDistinct(cs: seq<WeightedCluster>)
    ensures DistinctNames(FirstPerName(cs))
  {
    if cs != [] {
      var n := |cs| - 1;
      FirstPerNameDistinct(cs[..n]);
      FirstPerNameNames(cs[..n], cs[n].name);
    }
  }

  /** The entry is in the list, and none before it has its name. */
  ghost predicate IsFirst(cs: seq<WeightedCluster>, c: WeightedCluster) {
    exists k :: 0 <= k < |cs| && cs[k] == c && !HasName(cs[..k], c.name)
  }

  lemma {:induction false} FirstPerNameFirst(cs: seq<WeightedCluster>, c: WeightedCluster)
    requires c in FirstPerName(cs)
    ensures IsFirst(cs, c)
  {
    var n := |cs| - 1;
    var front := FirstPerName(cs[..n]);
    if c in front {
      FirstPerNameFirst(cs[..n], c);
      var k :| 0 <= k < n && cs[..n][k] == c && !HasName(cs[..n][..k], c.name);
      assert cs[..n][..k] == cs[..k];
    } else {
      assert cs[n] == c;
    }
  }

  /** The names are distinct and exactly those of the list, and each entry is the first of its name. */
  lemma {:induction false} FirstPerNameExact(cs: seq<WeightedCluster>)
    ensures DistinctNames(FirstPerName(cs))
    ensures forall name :: HasName(FirstPerName(cs), name) <==> HasName(cs, name)
    ensures forall c :: c in FirstPerName(cs) ==> IsFirst(cs, c)
  {
    FirstPerNameDistinct(cs);
    forall name ensures HasName(FirstPerName(cs), name) <==> HasName(cs, name) { FirstPerNameNames(cs, name); }
    forall c | c in FirstPerName(cs) ensures IsFirst(cs, c) { FirstPerNameFirst(cs, c); }
  }

  /** Entries whose names all came before add nothing; entries with new, distinct names are all kept. */
  lemma {:induction false} FirstOfKnown(a: seq<WeightedCluster>, b: seq<WeightedCluster>)
    requires forall c :: c in b ==> HasName(a, c.name)
    ensures FirstPerName(a + b) == FirstPerName(a)
  {
    if b == [] {
      assert a + b == a;
    } else {
      var n := |b| - 1;
      FirstOfKnown(a, b[..n]);
      assert a + b == (a + b[..n]) + [b[n]];
      FirstOneMore(a + b[..n], b[n]);
      NamesStay(a, b[..n], b[n].name);
    }
  }

  lemma NamesStay(a: seq<WeightedCluster>, b: seq<WeightedCluster>, name: ClusterName)
    ensures HasName(a + b, name) <==> HasName(a, name) || HasName(b, name)
  {
    var all := a + b;
    if HasName(a, name) {
      var i :| 0 <= i < |a| && a[i].name == name;
      assert all[i].name == name;
    }
    if HasName(b, name) {
      var i :| 0 <= i < |b| && b[i].name == name;
      assert all[|a| + i].name == name;
    }
    if HasName(all, name) {
      var i :| 0 <= i < |all| && all[i].name == name;
      if i < |a| { assert a[i].name == name; } else { assert b[i - |a|].name == name; }
    }
  }

  lemma {:induction false} FirstOfNew(a: seq<WeightedCluster>, b: seq<WeightedCluster>)
    requires DistinctNames(b) && forall c :: c in b ==> !HasName(a, c.name)
    ensures FirstPerName(a + b) == FirstPerName(a) + b
  {
    if b == [] {
      assert a + b == a;
    } else {
      var n := |b| - 1;
      NewLast(a, b, n);
      FirstOfNew(a, b[..n]);
      FirstOneMore(a + b[..n], b[n]);
      LastApart(a, b, n);
      LastApart(FirstPerName(a), b, n);
    }
  }

  lemma LastApart<T>(a: seq<T>, b: seq<T>, n: nat)
    requires |b| == n + 1
    ensures a + b == a + b[..n] + [b[n]]
  {
  }

  lemma NewLast(a: seq<WeightedCluster>, b: seq<WeightedCluster>, n: nat)
    requires |b| == n + 1 && DistinctNames(b) && forall c :: c in b ==> !HasName(a, c.name)
    ensures DistinctNames(b[..n]) && forall c :: c in b[..n] ==> !HasName(a, c.name)
    ensures !HasName(a + b[..n], b[n].name)
  {
    NamesStay(a, b[..n], b[n].name);
    assert b[n] in b;
  }

  // ---------------------------------------------------------------------
  // The weight of a split without matches

  /** The cluster names of a service, active or not. */
  function AllNames(ns: string, backend: Backend, d: Discovery): set<ClusterName> {
    ActiveNames(Target(ns, backend).0, backend.service, d) +
    RemoteNames(Target(ns, backend).0, backend.service, d, d.remote.Keys, false)
  }

  lemma NamesOfParts(w: int, aas: seq<ClusterName>, fos: seq<ClusterName>, name: ClusterName)
    ensures HasName(Shares(w, aas) + FailOvers(fos), name) <==> name in aas || name in fos
  {
    var r := Shares(w, aas) + FailOvers(fos);
    assert forall i :: 0 <= i < |r| ==> r[i].name == if i < |aas| then aas[i] else fos[i - |aas|];
    if name in aas {
      var i :| 0 <= i < |aas| && aas[i] == name;
      assert r[i].name == name;
    }
    if name in fos {
      var i :| 0 <= i < |fos| && fos[i] == name;
      assert r[|aas| + i].name == name;
    }
  }

  lemma PartsAreDistinct(w: int, aas: seq<ClusterName>, fos: seq<ClusterName>)
    requires NoDuplicates(aas) && NoDuplicates(fos) && forall name :: !(name in aas && name in fos)
    ensures DistinctNames(Shares(w, aas) + FailOvers(fos))
  {
    var r := Shares(w, aas) + FailOvers(fos);
    assert forall i :: 0 <= i < |r| ==> r[i].name == if i < |aas| then aas[i] else fos[i - |aas|];
    forall i, j | 0 <= i < j < |r| ensures r[i].name != r[j].name {
      if i < |aas| <= j { assert aas[i] in aas && fos[j - |aas|] in fos; }
    }
  }

  /** A piece names the clusters of its service, each once. */
  lemma PieceNames(ns: string, backend: Backend, d: Discovery, r: seq<WeightedCluster>)
    requires SpreadsBackend(ns, backend, d, r)
    ensures DistinctNames(r) && forall name :: HasName(r, name) <==> name in AllNames(ns, backend, d)
  {
    var aas, fos := PieceParts(ns, backend, d, r);
    assert forall name :: name in aas <==> name in Elements(aas);
    assert forall name :: name in fos <==> name in Elements(fos);
    PartsAreDistinct(backend.weight, aas, fos);
    forall name ensures HasName(r, name) <==> name in AllNames(ns, backend, d) {
      NamesOfParts(backend.weight, aas, fos, name);
    }
  }

  /** An earlier backend is for the same service. */
  ghost predicate ListedBefore(ns: string, backends: seq<Backend>, n: nat)
    requires n < |backends|
  {
    exists i :: 0 <= i < n && Target(ns, backends[i]) == Target(ns, backends[n])
  }

  /** The weight of the first backend of each service that has somewhere to go. */
  ghost function FirstWeight(ns: string, backends: seq<Backend>, ds: seq<Discovery>): int
    requires |backends| == |ds|
  {
    if backends == [] then 0
    else
      var n := |backends| - 1;
      FirstWeight(ns, backends[..n], ds[..n]) +
      if HasActive(ds[n]) && !ListedBefore(ns, backends, n) then backends[n].weight else 0
  }

  /** Some of the backends has a cluster of that name. */
  ghost predicate SomeNames(ns: string, backends: seq<Backend>, ds: seq<Discovery>, name: ClusterName)
    requires |backends| == |ds|
  {
    exists i :: 0 <= i < |backends| && name in AllNames(ns, backends[i], ds[i])
  }

  lemma {:induction false} SomeNamesLast(ns: string, backends: seq<Backend>, ds: seq<Discovery>, n: nat,
                                         name: ClusterName)
    requires |backends| == |ds| == n + 1
    ensures SomeNames(ns, backends, ds, name) <==>
      SomeNames(ns, backends[..n], ds[..n], name) || name in AllNames(ns, backends[n], ds[n])
  {
    var bs, es := backends[..n], ds[..n];
    if SomeNames(ns, backends, ds, name) {
      var i :| 0 <= i < |backends| && name in AllNames(ns, backends[i], ds[i]);
      if i < n { assert name in AllNames(ns, bs[i], es[i]); }
    }
    if SomeNames(ns, bs, es, name) {
      var i :| 0 <= i < n && name in AllNames(ns, bs[i], es[i]);
      assert name in AllNames(ns, backends[i], ds[i]);
    }
  }

  lemma {:induction false} FlattenNames(ns: string, backends: seq<Backend>, ds: seq<Discovery>,
                                        pieces: seq<seq<WeightedCluster>>, name: ClusterName)
    requires |backends| == |ds| && Pieces(ns, backends, ds, pieces)
    ensures HasName(Flatten(pieces), name) <==> SomeNames(ns, backends, ds, name)
  {
    if pieces != [] {
      var n := |pieces| - 1;
      FlattenNames(ns, backends[..n], ds[..n], pieces[..n], name);
      NamesStay(Flatten(pieces[..n]), pieces[n], name);
      PieceNames(ns, backends[n], ds[n], pieces[n]);
      SomeNamesLast(ns, backends, ds, n, name);
    }
  }

  /** The last piece adds all its entries when its service is new, and none otherwise. */
  lemma {:induction false} LastPiece(ns: string, backends: seq<Backend>, ds: seq<Discovery>,
                                     pieces: seq<seq<WeightedCluster>>, n: nat)
    requires |backends| == |ds| == n + 1 && Pieces(ns, backends, ds, pieces) && SameDiscovery(ns, backends, ds)
    ensures FirstPerName(Flatten(pieces)) ==
      FirstPerName(Flatten(pieces[..n])) + if ListedBefore(ns, backends, n) then [] else pieces[n]
  {
    PieceNames(ns, backends[n], ds[n], pieces[n]);
    var front := Flatten(pieces[..n]);
    forall c | c in pieces[n] ensures HasName(front, c.name) <==> ListedBefore(ns, backends, n) {
      FlattenNames(ns, backends[..n], ds[..n], pieces[..n], c.name);
      var k :| 0 <= k < |pieces[n]| && pieces[n][k] == c;
      assert HasName(pieces[n], c.name);
      NameTellsTarget(ns, backends, ds, n, c.name);
    }
    if ListedBefore(ns, backends, n) { FirstOfKnown(front, pieces[n]); } else { FirstOfNew(front, pieces[n]); }
  }

  lemma {:induction false} NameTellsTarget(ns: string, backends: seq<Backend>, ds: seq<Discovery>, n: nat,
                                           name: ClusterName)
    requires |backends| == |ds| == n + 1 && SameDiscovery(ns, backends, ds) && name in AllNames(ns, backends[n], ds[n])
    ensures ListedBefore(ns, backends, n) <==> SomeNames(ns, backends[..n], ds[..n], name)
  {
    var bs, es := backends[..n], ds[..n];
    if ListedBefore(ns, backends, n) {
      var i :| 0 <= i < n && Target(ns, backends[i]) == Target(ns, backends[n]);
      assert name in AllNames(ns, bs[i], es[i]);
    }
    if SomeNames(ns, bs, es, name) {
      var i :| 0 <= i < n && name in AllNames(ns, bs[i], es[i]);
      assert (name.namespace, name.name) == Target(ns, backends[i]) == Target(ns, backends[n]);
    }
  }

  lemma {:induction false} FrontPieces(ns: string, backends: seq<Backend>, ds: seq<Discovery>,
                                       pieces: seq<seq<WeightedCluster>>, n: nat)
    requires |backends| == |ds| == n + 1 && Pieces(ns, backends, ds, pieces) && SameDiscovery(ns, backends, ds)
    ensures Pieces(ns, backends[..n], ds[..n], pieces[..n]) && SameDiscovery(ns, backends[..n], ds[..n])
  {
  }

  lemma {:induction false} FirstEntriesWeigh(ns: string, backends: seq<Backend>, ds: seq<Discovery>,
                                             pieces: seq<seq<WeightedCluster>>)
    requires |backends| == |ds| && Pieces(ns, backends, ds, pieces) && SameDiscovery(ns, backends, ds)
    ensures TotalWeight(FirstPerName(Flatten(pieces))) == FirstWeight(ns, backends, ds)
  {
    if backends != [] {
      var n := |backends| - 1;
      FrontPieces(ns, backends, ds, pieces, n);
      FirstEntriesWeigh(ns, backends[..n], ds[..n], pieces[..n]);
      LastPiece(ns, backends, ds, pieces, n);
      PieceWeighs(ns, backends[n], ds[n], pieces[n]);
      TotalWeightCat(FirstPerName(Flatten(pieces[..n])), if ListedBefore(ns, backends, n) then [] else pieces[n]);
    }
  }

  /** Some service with an active cluster is listed again with positive weight. */
  ghost predicate ListedAgain(ns: string, backends: seq<Backend>, ds: seq<Discovery>)
    requires |backends| == |ds|
  {
    exists j :: 0 <= j < |backends| && AgainAt(ns, backends, ds, j)
  }

  ghost predicate AgainAt(ns: string, backends: seq<Backend>, ds: seq<Discovery>, j: nat)
    requires |backends| == |ds| && j < |backends|
  {
    ListedBefore(ns, backends, j) && HasActive(ds[j]) && backends[j].weight > 0
  }

  lemma {:induction false} FirstWeightExactly(ns: string, backends: seq<Backend>, ds: seq<Discovery>)
    requires |backends| == |ds| && forall i :: 0 <= i < |backends| ==> backends[i].weight >= 0
    ensures FirstWeight(ns, backends, ds) <= ActiveWeight(backends, ds)
    ensures FirstWeight(ns, backends, ds) == ActiveWeight(backends, ds) <==> !ListedAgain(ns, backends, ds)
  {
    if backends != [] {
      var n := |backends| - 1;
      FirstWeightExactly(ns, backends[..n], ds[..n]);
      AgainInFront(ns, backends, ds, n);
    }
  }

  lemma {:induction false} AgainInFront(ns: string, backends: seq<Backend>, ds: seq<Discovery>, n: nat)
    requires |backends| == |ds| == n + 1
    ensures ListedAgain(ns, backends, ds) <==> ListedAgain(ns, backends[..n], ds[..n]) || AgainAt(ns, backends, ds, n)
  {
    forall j: nat | j < n ensures AgainAt(ns, backends, ds, j) <==> AgainAt(ns, backends[..n], ds[..n], j) {
      assert forall i :: 0 <= i < j ==> backends[..n][i] == backends[i];
    }
  }

  /** The wildcard route of splits without matches carries their weight, for any weights and in any order
      of the ports, exactly when no service with an active cluster is listed again with positive
      weight; otherwise it carries less. */
  lemma {:induction false} WildcardTotalExactly(ns: string, backends: seq<Backend>, ds: seq<Discovery>,
                                                pieces: seq<seq<WeightedCluster>>)
    requires |backends| == |ds| && Pieces(ns, backends, ds, pieces) && SameDiscovery(ns, backends, ds)
    requires forall i :: 0 <= i < |backends| ==> backends[i].weight >= 0
    ensures Gathered([RouteMatch(false, Flatten(pieces))], false) == Flatten(pieces)
    ensures SetWeight(Elements(FirstPerName(Flatten(pieces)))) <= ActiveWeight(backends, ds)
    ensures SetWeight(Elements(FirstPerName(Flatten(pieces)))) == ActiveWeight(backends, ds) <==>
      !ListedAgain(ns, backends, ds)
  {
    OneSplit(Flatten(pieces));
    FirstEntriesWeigh(ns, backends, ds, pieces);
    FirstWeightExactly(ns, backends, ds);
    FirstPerNameKeepsWeight(ns, backends, ds, pieces);
  }

  /** Distinct names survive the set a route keeps them in. */
  lemma {:induction false} FirstPerNameKeepsWeight(ns: string, backends: seq<Backend>, ds: seq<Discovery>,
                                                   pieces: seq<seq<WeightedCluster>>)
    requires |backends| == |ds| && Pieces(ns, backends, ds, pieces)
    requires forall i :: 0 <= i < |backends| ==> backends[i].weight >= 0
    ensures var r := FirstPerName(Flatten(pieces)); SetWeight(Elements(r)) == TotalWeight(r)
  {
    var r := FirstPerName(Flatten(pieces));
    FirstPerNameExact(Flatten(pieces));
    forall c | c in r ensures c.weight >= 0 {
      assert c in Flatten(pieces);
      InFlatten(pieces, c);
      var i :| 0 <= i < |pieces| && c in pieces[i];
      PieceEntries(ns, backends[i], ds[i], pieces[i]);
    }
    RouteKeepsWeightUnlessRepeated(r);
  }

  /** The clusters of a single split without matches, as the wildcard route gathers them. */
  lemma OneSplit(clusters: seq<WeightedCluster>)
    ensures Gathered([RouteMatch(false, clusters)], false) == clusters
  {
    assert [RouteMatch(false, clusters)][..0] == [];
    assert [] + clusters == clusters;
  }

  /** A failing input: one service, known here only, listed with weights 30 and 70. The set of a route
      with matches would carry all of it; the wildcard route carries 30. */
  lemma {:induction false} ThirtyOfHundred(ns: string, backends: seq<Backend>, ds: seq<Discovery>,
                                           pieces: seq<seq<WeightedCluster>>)
    requires |backends| == |ds| == 2 && Target(ns, backends[0]) == Target(ns, backends[1]) && ds[0] == ds[1]
    requires backends[0].weight == 30 && backends[1].weight == 70 && ds[0].local.Some? && ds[0].remote == map[]
    requires Pieces(ns, backends, ds, pieces)
    ensures ActiveWeight(backends, ds) == 100
    ensures SetWeight(Elements(FirstPerName(Flatten(pieces)))) == 30
    ensures SetWeight(Elements(Flatten(pieces))) == 100
  {
    FirstEntriesWeigh(ns, backends, ds, pieces);
    FirstPerNameKeepsWeight(ns, backends, ds, pieces);
    TwoWeights(ns, backends, ds);
    SetCarriesBoth(ns, backends, ds, pieces);
  }

  lemma {:induction false} SetCarriesBoth(ns: string, backends: seq<Backend>, ds: seq<Discovery>,
                                          pieces: seq<seq<WeightedCluster>>)
    requires |backends| == |ds| == 2 && ds[0] == ds[1] && ds[0].local.Some? && ds[0].remote == map[]
    requires 0 <= backends[0].weight < backends[1].weight && Pieces(ns, backends, ds, pieces)
    ensures SetWeight(Elements(Flatten(pieces))) == ActiveWeight(backends, ds)
  {
    TwoDifferent(ns, backends, ds);
    EvenRouteTotalExactly(ns, backends, ds, pieces);
  }

  lemma {:induction false} TwoDifferent(ns: string, backends: seq<Backend>, ds: seq<Discovery>)
    requires |backends| == |ds| == 2 && ds[0] == ds[1] && ds[0].local.Some? && ds[0].remote == map[]
    requires 0 <= backends[0].weight < backends[1].weight
    ensures EvenWeights(ns, backends, ds) && SameDiscovery(ns, backends, ds) && !ListedTwice(ns, backends, ds)
  {
    OneCluster(ns, backends[0], ds[0]);
    OneCluster(ns, backends[1], ds[1]);
  }

  lemma {:induction false} TwoWeights(ns: string, backends: seq<Backend>, ds: seq<Discovery>)
    requires |backends| == |ds| == 2 && Target(ns, backends[0]) == Target(ns, backends[1]) && ds[0] == ds[1]
    requires HasActive(ds[0])
    ensures ActiveWeight(backends, ds) == backends[0].weight + backends[1].weight
    ensures FirstWeight(ns, backends, ds) == backends[0].weight
  {
    var b1, d1 := backends[..1], ds[..1];
    assert b1[..0] == [] && d1[..0] == [];
    assert ActiveWeight(b1, d1) == backends[0].weight && FirstWeight(ns, b1, d1) == backends[0].weight;
    assert ListedBefore(ns, backends, 1);
  }
}
