/**
 How the weight of a TrafficSplit backend is spread over its clusters
 (pkg/catalog/outbound_traffic_policies.go), and what becomes of the total when
 the clusters end up in a route (pkg/trafficpolicy/trafficpolicy.go).
 */
module WeightSplit {
  import opened Prelude

  const FAIL_OVER_WEIGHT: int := 0

  /** The parts of a cluster name `namespace/name|port`. */
  datatype ClusterName = ClusterName(namespace: string, name: string, targetPort: nat)

  datatype WeightedCluster = WeightedCluster(name: ClusterName, weight: int)

  /** A TrafficSplit backend; `namespace` is given when the service is written `namespace/service`. */
  datatype Backend = Backend(namespace: Option<string>, service: string, weight: int)

  /** Go's integer division, which truncates towards zero. */
  function GoDiv(a: int, b: int): int
    requires b > 0
  {
    if a >= 0 then a / b else -((-a) / b)
  }

  function TotalWeight(clusters: seq<WeightedCluster>): int {
    if clusters == [] then 0 else TotalWeight(clusters[..|clusters| - 1]) + clusters[|clusters| - 1].weight
  }

  lemma {:induction false} TotalWeightCat(a: seq<WeightedCluster>, b: seq<WeightedCluster>)
    ensures TotalWeight(a + b) == TotalWeight(a) + TotalWeight(b)
  {
    if b == [] {
      assert a + b == a;
    } else {
      assert (a + b)[..|a + b| - 1] == a + b[..|b| - 1];
      TotalWeightCat(a, b[..|b| - 1]);
    }
  }

  // ---------------------------------------------------------------------
  // One backend

  /** Of weight `q * n + s`, cluster `i` gets `q`, plus one if it is among the last `s`. */
  function Portion(q: int, s: int, n: nat, i: nat): int {
    q + if i < n - s then 0 else 1
  }

  /** What is left to hand out before cluster `i`. */
  function Rest(q: int, s: int, n: nat, i: nat): int {
    q * (n - i) + if s < n - i then s else n - i
  }

  function ShareOf(w: nat, n: nat, i: nat): int
    requires i < n
  {
    Portion(w / n, w % n, n, i)
  }

  /** A negative weight is spread like its absolute value. */
  function Share(w: int, n: nat, i: nat): int
    requires i < n
  {
    if w >= 0 then ShareOf(w, n, i) else -ShareOf(-w, n, i)
  }

  function Shares(w: int, aas: seq<ClusterName>): seq<WeightedCluster> {
    seq(|aas|, i requires 0 <= i < |aas| => WeightedCluster(aas[i], Share(w, |aas|, i)))
  }

  function LeftOf(w: nat, n: nat, i: nat): int
    requires 0 < n && i <= n
  {
    Rest(w / n, w % n, n, i)
  }

  function Left(w: int, n: nat, i: nat): int
    requires 0 < n && i <= n
  {
    if w >= 0 then LeftOf(w, n, i) else -LeftOf(-w, n, i)
  }

  lemma QuotientUnique(x: int, q: int, d: int, y: int, r: int)
    requires d > 0 && 0 <= r < d && 0 <= y < d && x * d + y == q * d + r
    ensures x == q
  {
    var k := x - q;
    assert x * d == (q + k) * d;
    Distribute(q, k, d);
    if k >= 1 {
      MulAtLeast(k, d);
      assert false;
    }
    if k <= -1 {
      MulAtLeast(-k, d);
      Distribute(k, -k, d);
      assert false;
    }
  }

  lemma Distribute(a: int, b: int, d: int)
    ensures (a + b) * d == a * d + b * d
  {
  }

  lemma MulAtLeast(k: int, d: int)
    requires k >= 1 && d > 0
    ensures k * d >= d
  {
    Distribute(k - 1, 1, d);
    assert (k - 1) * d >= 0;
  }

  lemma QuotientOf(q: int, d: int, r: int)
    requires d > 0 && 0 <= r < d
    ensures (q * d + r) / d == q
  {
    var z := q * d + r;
    QuotientUnique(z / d, q, d, z % d, r);
  }

  lemma NextPortion(q: nat, s: nat, n: nat, i: nat)
    requires s < n && i < n
    ensures Rest(q, s, n, i) >= 0
    ensures Rest(q, s, n, i) / (n - i) == Portion(q, s, n, i)
    ensures Rest(q, s, n, i) - Portion(q, s, n, i) == Rest(q, s, n, i + 1)
  {
    var d := n - i;
    Distribute(d - 1, 1, q);
    assert q * d >= 0;
    if s < d {
      QuotientOf(q, d, s);
    } else {
      Distribute(q, 1, d);
      QuotientOf(q + 1, d, 0);
    }
  }

  lemma NextShareOf(w: nat, n: nat, i: nat)
    requires i < n
    ensures LeftOf(w, n, i) >= 0
    ensures LeftOf(w, n, i) / (n - i) == ShareOf(w, n, i)
    ensures LeftOf(w, n, i) - ShareOf(w, n, i) == LeftOf(w, n, i + 1)
  {
    NextPortion(w / n, w % n, n, i);
  }

  /** Dividing what is left by the clusters that are left gives the next share. */
  lemma NextShare(w: int, n: nat, i: nat)
    requires i < n
    ensures GoDiv(Left(w, n, i), n - i) == Share(w, n, i)
    ensures Left(w, n, i) - Share(w, n, i) == Left(w, n, i + 1)
  {
    NextShareOf(if w >= 0 then w else -w, n, i);
  }

  lemma LeftAtEnds(w: int, n: nat)
    requires 0 < n
    ensures Left(w, n, 0) == w && Left(w, n, n) == 0
  {
    var v := if w >= 0 then w else -w;
    assert (v / n) * (n - 0) + v % n == v;
    assert (v / n) * (n - n) == 0;
  }

  /** `activeUpstreamClusters`: hands out the weight, dividing what is left by who is left. */
  method ActiveUpstreamClusters(aas: seq<ClusterName>, weight: int, upstream: seq<WeightedCluster>)
    returns (clusters: seq<WeightedCluster>)
    ensures clusters == upstream + Shares(weight, aas)
    ensures weight >= 0 ==> forall i :: 0 <= i < |aas| ==>
      clusters[|upstream| + i].name == aas[i] &&
      clusters[|upstream| + i].weight == weight / |aas| + if i < |aas| - weight % |aas| then 0 else 1
  {
    clusters := upstream;
    if |aas| > 0 {
      var totalWeight := weight;
      LeftAtEnds(weight, |aas|);
      for index := 0 to |aas|
        invariant totalWeight == Left(weight, |aas|, index)
        invariant clusters == upstream + Shares(weight, aas)[..index]
      {
        NextShare(weight, |aas|, index);
        var share := GoDiv(totalWeight, |aas| - index);
        totalWeight := totalWeight - share;
        clusters := clusters + [WeightedCluster(aas[index], share)];
      }
    }
  }

  lemma {:induction false} SharesUpTo(w: int, aas: seq<ClusterName>, i: nat)
    requires aas != [] && i <= |aas|
    ensures TotalWeight(Shares(w, aas)[..i]) == w - Left(w, |aas|, i)
  {
    LeftAtEnds(w, |aas|);
    if i > 0 {
      SharesUpTo(w, aas, i - 1);
      NextShare(w, |aas|, i - 1);
      assert Shares(w, aas)[..i][..i - 1] == Shares(w, aas)[..i - 1];
    }
  }

  /** The shares add up to the weight exactly, for any weight. */
  lemma SharesSumToWeight(w: int, aas: seq<ClusterName>)
    requires aas != []
    ensures TotalWeight(Shares(w, aas)) == w
  {
    SharesUpTo(w, aas, |aas|);
    LeftAtEnds(w, |aas|);
    assert Shares(w, aas)[..|aas|] == Shares(w, aas);
  }

  /** No two shares differ by more than one, and none goes against the sign of the weight. */
  lemma SharesAreFair(w: int, n: nat, i: nat, j: nat)
    requires i < n && j < n
    ensures -1 <= Share(w, n, i) - Share(w, n, j) <= 1
    ensures w >= 0 ==> Share(w, n, i) >= 0
    ensures w <= 0 ==> Share(w, n, i) <= 0
  {
    var v: nat := if w >= 0 then w else -w;
    PortionsAreFair(v / n, v % n, n, i, j);
  }

  lemma PortionsAreFair(q: nat, s: nat, n: nat, i: nat, j: nat)
    ensures -1 <= Portion(q, s, n, i) - Portion(q, s, n, j) <= 1 && Portion(q, s, n, i) >= 0
  {
  }

  /** `failOverUpstreamClusters`. */
  method FailOverUpstreamClusters(fos: seq<ClusterName>, upstream: seq<WeightedCluster>)
    returns (clusters: seq<WeightedCluster>)
    ensures clusters == upstream + FailOvers(fos)
  {
    clusters := upstream;
    for index := 0 to |fos|
      invariant clusters == upstream + FailOvers(fos)[..index]
    {
      clusters := clusters + [WeightedCluster(fos[index], FAIL_OVER_WEIGHT)];
    }
  }

  function FailOvers(fos: seq<ClusterName>): seq<WeightedCluster> {
    seq(|fos|, i requires 0 <= i < |fos| => WeightedCluster(fos[i], FAIL_OVER_WEIGHT))
  }

  lemma {:induction false} FailOversWeighNothing(fos: seq<ClusterName>)
    ensures TotalWeight(FailOvers(fos)) == 0
  {
    if fos != [] {
      var n := |fos| - 1;
      FailOversWeighNothing(fos[..n]);
      assert FailOvers(fos)[..n] == FailOvers(fos[..n]);
    }
  }

  // ---------------------------------------------------------------------
  // A whole TrafficSplit

  /** What service discovery knows about a backend: the local target port, if the service is known
      here, and the target ports in other clusters, each active or fail-over. */
  datatype Discovery = Discovery(local: Option<nat>, remote: map<nat, bool>)

  function NameFor(ns: string, service: string, port: nat): ClusterName {
    ClusterName(ns, service, port)
  }

  /** The clusters of one kind among the remote ports, leaving out the one known locally. */
  function RemoteNames(ns: string, service: string, d: Discovery, ports: set<nat>, active: bool): set<ClusterName> {
    set p | p in ports && p in d.remote && d.remote[p] == active && d.local != Some(p) :: NameFor(ns, service, p)
  }

  lemma RemoteNamesGrow(ns: string, service: string, d: Discovery, ports: set<nat>, p: nat, active: bool)
    requires p in d.remote && p !in ports
    ensures RemoteNames(ns, service, d, ports + {p}, active) == RemoteNames(ns, service, d, ports, active) +
      (if d.remote[p] == active && d.local != Some(p) then {NameFor(ns, service, p)} else {})
    ensures NameFor(ns, service, p) !in RemoteNames(ns, service, d, ports, active)
  {
  }

  function ActiveNames(ns: string, service: string, d: Discovery): set<ClusterName> {
    (if d.local.Some? then {NameFor(ns, service, d.local.value)} else {}) +
    RemoteNames(ns, service, d, d.remote.Keys, true)
  }

  /** There is a cluster that takes the backend's weight. */
  predicate HasActive(d: Discovery) {
    d.local.Some? || exists p :: p in d.remote && d.remote[p]
  }

  /** The cluster known here, if there is one, comes first. */
  predicate LocalFirst(ns: string, service: string, d: Discovery, aas: seq<ClusterName>) {
    d.local.Some? ==> aas != [] && aas[0] == NameFor(ns, service, d.local.value)
  }

  /** The list `r` spends the weight over exactly the active clusters, the local one first and the
      others in some order, and adds the fail-over clusters without weight. */
  ghost predicate Spread(ns: string, service: string, d: Discovery, weight: int, r: seq<WeightedCluster>) {
    exists aas: seq<ClusterName>, fos: seq<ClusterName> ::
      && r == Shares(weight, aas) + FailOvers(fos) && LocalFirst(ns, service, d, aas)
      && NoDuplicates(aas) && Elements(aas) == ActiveNames(ns, service, d)
      && NoDuplicates(fos) && Elements(fos) == RemoteNames(ns, service, d, d.remote.Keys, false)
  }

  /** The first half of `mergeSplitUpstreamClusters`; the remote ports come out of a map, in any order. */
  method ClassifyClusters(ns: string, service: string, d: Discovery)
    returns (aas: seq<ClusterName>, fos: seq<ClusterName>)
    ensures NoDuplicates(aas) && Elements(aas) == ActiveNames(ns, service, d) && LocalFirst(ns, service, d, aas)
    ensures NoDuplicates(fos) && Elements(fos) == RemoteNames(ns, service, d, d.remote.Keys, false)
    ensures forall c :: c in aas <==>
      (c.namespace == ns && c.name == service &&
       (d.local == Some(c.targetPort) || (c.targetPort in d.remote && d.remote[c.targetPort])))
    ensures forall c :: c in fos <==>
      (c.namespace == ns && c.name == service &&
       d.local != Some(c.targetPort) && c.targetPort in d.remote && !d.remote[c.targetPort])
  {
    aas, fos := [], [];
    var cnsLocal: set<ClusterName> := {};
    if d.local.Some? {
      aas := [NameFor(ns, service, d.local.value)];
      cnsLocal := {NameFor(ns, service, d.local.value)};
    }
    var remaining := d.remote.Keys;
    while remaining != {}
      invariant remaining <= d.remote.Keys
      invariant NoDuplicates(aas) && NoDuplicates(fos) && LocalFirst(ns, service, d, aas)
      invariant Elements(aas) == cnsLocal + RemoteNames(ns, service, d, d.remote.Keys - remaining, true)
      invariant Elements(fos) == RemoteNames(ns, service, d, d.remote.Keys - remaining, false)
    {
      var targetPort :| targetPort in remaining;
      var name := NameFor(ns, service, targetPort);
      RemoteNamesGrow(ns, service, d, d.remote.Keys - remaining, targetPort, true);
      RemoteNamesGrow(ns, service, d, d.remote.Keys - remaining, targetPort, false);
      assert d.remote.Keys - (remaining - {targetPort}) == d.remote.Keys - remaining + {targetPort};
      if name !in cnsLocal {
        if d.remote[targetPort] {
          ElementsAppend(aas, name);
          aas := aas + [name];
        } else {
          ElementsAppend(fos, name);
          fos := fos + [name];
        }
      }
      remaining := remaining - {targetPort};
    }
    forall c ensures c in aas <==> c in ActiveNames(ns, service, d) {
      assert c in aas <==> c in Elements(aas);
    }
    forall c ensures c in fos <==> c in RemoteNames(ns, service, d, d.remote.Keys, false) {
      assert c in fos <==> c in Elements(fos);
    }
    NamesExactly(ns, service, d);
  }

  lemma NamesExactly(ns: string, service: string, d: Discovery)
    ensures forall c :: c in ActiveNames(ns, service, d) <==>
      (c.namespace == ns && c.name == service &&
       (d.local == Some(c.targetPort) || (c.targetPort in d.remote && d.remote[c.targetPort])))
    ensures forall c :: c in RemoteNames(ns, service, d, d.remote.Keys, false) <==>
      (c.namespace == ns && c.name == service &&
       d.local != Some(c.targetPort) && c.targetPort in d.remote && !d.remote[c.targetPort])
  {
    forall c: ClusterName | c.namespace == ns && c.name == service ensures NameFor(ns, service, c.targetPort) == c {}
  }

  /** `mergeSplitUpstreamClusters`. */
  method MergeSplitUpstreamClusters(ns: string, backend: Backend, d: Discovery, upstream: seq<WeightedCluster>)
    returns (clusters: seq<WeightedCluster>)
    ensures |clusters| >= |upstream| && clusters[..|upstream|] == upstream
    ensures Spread(if backend.namespace.Some? then backend.namespace.value else ns, backend.service, d, backend.weight,
                   clusters[|upstream|..])
  {
    var aas, fos := ClassifyClusters(backend.namespace.GetOr(ns), backend.service, d);
    clusters := ActiveUpstreamClusters(aas, backend.weight, upstream);
    clusters := FailOverUpstreamClusters(fos, clusters);
    assert clusters[|upstream|..] == Shares(backend.weight, aas) + FailOvers(fos);
  }

  /** Whatever order the map came in, a backend contributes its whole weight or nothing. */
  lemma {:induction false} SpreadConservesWeight(ns: string, service: string, d: Discovery, weight: int,
                                                 r: seq<WeightedCluster>)
    requires Spread(ns, service, d, weight, r)
    ensures TotalWeight(r) == if HasActive(d) then weight else 0
  {
    var aas: seq<ClusterName>, fos: seq<ClusterName> :|
      && r == Shares(weight, aas) + FailOvers(fos) && LocalFirst(ns, service, d, aas)
      && NoDuplicates(aas) && Elements(aas) == ActiveNames(ns, service, d)
      && NoDuplicates(fos) && Elements(fos) == RemoteNames(ns, service, d, d.remote.Keys, false);
    TotalWeightCat(Shares(weight, aas), FailOvers(fos));
    FailOversWeighNothing(fos);
    ActiveExists(ns, service, d);
    if aas == [] {
      assert Elements(aas) == {};
    } else {
      assert aas[0] in Elements(aas);
      SharesSumToWeight(weight, aas);
    }
  }

  lemma ActiveExists(ns: string, service: string, d: Discovery)
    ensures HasActive(d) <==> ActiveNames(ns, service, d) != {}
  {
    if d.local.Some? {
      assert NameFor(ns, service, d.local.value) in ActiveNames(ns, service, d);
    } else if p :| p in d.remote && d.remote[p] {
      assert NameFor(ns, service, p) in RemoteNames(ns, service, d, d.remote.Keys, true);
    }
  }

  /** The weight of the backends that have somewhere to go. */
  function ActiveWeight(backends: seq<Backend>, ds: seq<Discovery>): int
    requires |backends| == |ds|
  {
    if backends == [] then 0
    else
      var n := |backends| - 1;
      ActiveWeight(backends[..n], ds[..n]) + if HasActive(ds[n]) then backends[n].weight else 0
  }

  /** The piece `r` of a split's clusters spreads the weight of one backend. */
  ghost predicate SpreadsBackend(ns: string, backend: Backend, d: Discovery, r: seq<WeightedCluster>) {
    Spread(backend.namespace.GetOr(ns), backend.service, d, backend.weight, r)
  }

  function Flatten(pieces: seq<seq<WeightedCluster>>): seq<WeightedCluster> {
    if pieces == [] then [] else Flatten(pieces[..|pieces| - 1]) + pieces[|pieces| - 1]
  }

  /** One piece per backend, in order. */
  ghost predicate Pieces(ns: string, backends: seq<Backend>, ds: seq<Discovery>, pieces: seq<seq<WeightedCluster>>)
    requires |backends| == |ds|
  {
    |pieces| == |backends| && forall i :: 0 <= i < |pieces| ==> SpreadsBackend(ns, backends[i], ds[i], pieces[i])
  }

  /** The backend loop of one TrafficSplit. */
  method SplitUpstreamClusters(ns: string, backends: seq<Backend>, ds: seq<Discovery>)
    returns (clusters: seq<WeightedCluster>, ghost pieces: seq<seq<WeightedCluster>>)
    requires |backends| == |ds|
    ensures Pieces(ns, backends, ds, pieces) && clusters == Flatten(pieces)
  {
    clusters, pieces := [], [];
    for i := 0 to |backends|
      invariant clusters == Flatten(pieces)
      invariant Pieces(ns, backends[..i], ds[..i], pieces)
    {
      ghost var k := |clusters|;
      clusters := MergeSplitUpstreamClusters(ns, backends[i], ds[i], clusters);
      FlattenOneMore(pieces, clusters, k);
      PiecesOneMore(ns, backends, ds, pieces, clusters[k..]);
      pieces := pieces + [clusters[k..]];
    }
    assert backends[..|backends|] == backends && ds[..|ds|] == ds;
  }

  lemma PiecesOneMore(ns: string, backends: seq<Backend>, ds: seq<Discovery>, pieces: seq<seq<WeightedCluster>>,
                      r: seq<WeightedCluster>)
    requires |backends| == |ds| && |pieces| < |backends| && SpreadsBackend(ns, backends[|pieces|], ds[|pieces|], r)
    requires Pieces(ns, backends[..|pieces|], ds[..|pieces|], pieces)
    ensures Pieces(ns, backends[..|pieces| + 1], ds[..|pieces| + 1], pieces + [r])
  {
  }

  lemma {:induction false} FlattenOneMore(pieces: seq<seq<WeightedCluster>>, clusters: seq<WeightedCluster>, k: nat)
    requires k <= |clusters| && clusters[..k] == Flatten(pieces)
    ensures clusters == Flatten(pieces + [clusters[k..]])
  {
    assert (pieces + [clusters[k..]])[..|pieces|] == pieces;
  }

  /** No weight is lost or made up on the way through the backends of a split. */
  lemma {:induction false} SplitConservesWeight(ns: string, backends: seq<Backend>, ds: seq<Discovery>,
                                                pieces: seq<seq<WeightedCluster>>)
    requires |backends| == |ds| && Pieces(ns, backends, ds, pieces)
    ensures TotalWeight(Flatten(pieces)) == ActiveWeight(backends, ds)
  {
    if backends != [] {
      var n := |backends| - 1;
      SplitConservesWeight(ns, backends[..n], ds[..n], pieces[..n]);
      PieceWeighs(ns, backends[n], ds[n], pieces[n]);
      TotalWeightCat(Flatten(pieces[..n]), pieces[n]);
    }
  }

  lemma {:induction false} PieceWeighs(ns: string, backend: Backend, d: Discovery, r: seq<WeightedCluster>)
    requires SpreadsBackend(ns, backend, d, r)
    ensures TotalWeight(r) == if HasActive(d) then backend.weight else 0
  {
    SpreadConservesWeight(backend.namespace.GetOr(ns), backend.service, d, backend.weight, r);
  }
}
