/**
 The shape of the inbound policy of a proxy (`GetInboundMeshTrafficPolicy` and
 `getUpstreamServicesIncludeApex` in pkg/catalog/inbound_traffic_policies.go).
 */
module InboundPolicy {
  import opened Prelude
  import opened Strings
  import opened TrafficTargets
  import opened InboundRules

  const PROTOCOL_TCP := "tcp"
  const PROTOCOL_TCP_SERVER_FIRST := "tcp-server-first"

  datatype MeshService = MeshService(
    namespace: string,
    name: string,
    port: nat,
    targetPort: nat,
    protocol: string,
    importUID: string,
    inheritedFrom: string,
    attachedNamespace: string)

  /** A TrafficSplit: the apex service its host name stands for, with an optional subdomain. */
  datatype TrafficSplit = TrafficSplit(namespace: string, apex: string, subdomain: string, backends: seq<string>)

  /** `svc` is the service a split stands for, as far as its backend `s` is concerned: under the
      split's name, on the backend's namespace, ports and protocol, with nothing else set. */
  predicate IsApex(svc: MeshService, s: MeshService, split: TrafficSplit) {
    && svc.namespace == s.namespace
    && (split.subdomain == "" ==> svc.name == split.apex)
    && (split.subdomain != "" ==> svc.name == split.subdomain + "." + split.apex)
    && svc.port == s.port && svc.targetPort == s.targetPort && svc.protocol == s.protocol
    && svc.importUID == "" && svc.inheritedFrom == "" && svc.attachedNamespace == ""
  }

  /** The object caches a policy is built from. */
  datatype Mesh = Mesh(splits: seq<TrafficSplit>, targets: seq<TrafficTarget>, monitored: set<string>,
                       trustDomain: string)

  /** `ListTrafficSplits` with a backend filter, which is off for a service without a name. */
  predicate HasBackend(mesh: Mesh, split: TrafficSplit, svc: MeshService) {
    split.namespace in mesh.monitored &&
    (svc.name == "" || (split.namespace == svc.namespace && svc.name in split.backends))
  }

  /** A service of the expanded list: an upstream service, or the apex of a split over one. */
  ghost predicate Expanded(upstream: seq<MeshService>, mesh: Mesh, svc: MeshService) {
    svc in upstream ||
    exists s, split :: s in upstream && split in mesh.splits && HasBackend(mesh, split, s) && IsApex(svc, s, split)
  }

  /** Appends what is not there yet. */
  method AddNew(all: seq<MeshService>, svc: MeshService) returns (r: seq<MeshService>)
    requires NoDuplicates(all)
    ensures NoDuplicates(r) && forall x :: x in r <==> x in all || x == svc
  {
    if svc in all { r := all; } else { r := all + [svc]; }
  }

  method GetUpstreamServicesIncludeApex(upstream: seq<MeshService>, mesh: Mesh)
    returns (all: seq<MeshService>)
    ensures NoDuplicates(all)
    ensures forall svc :: svc in all <==> Expanded(upstream, mesh, svc)
    ensures forall s, split ::
      (&& s in upstream && split in mesh.splits && split.namespace in mesh.monitored
       && (s.name == "" || (split.namespace == s.namespace && s.name in split.backends))) ==>
      MeshService(s.namespace, if split.subdomain == "" then split.apex else split.subdomain + "." + split.apex,
                  s.port, s.targetPort, s.protocol, "", "", "") in all
  {
    all := [];
    var splits := mesh.splits;
    for i := 0 to |upstream|
      invariant NoDuplicates(all)
      invariant forall svc :: svc in all <==> Expanded(upstream[..i], mesh, svc)
    {
      var svc := upstream[i];
      ghost var before := all;
      all := AddNew(all, svc);
      for j := 0 to |splits|
        invariant NoDuplicates(all)
        invariant forall x :: x in all <==>
          x in before || x == svc ||
          exists split :: split in splits[..j] && HasBackend(mesh, split, svc) && IsApex(x, svc, split)
      {
        assert forall split :: split in splits[..j + 1] <==> split in splits[..j] || split == splits[j];
        if HasBackend(mesh, splits[j], svc) {
          var name := if splits[j].subdomain != "" then splits[j].subdomain + "." + splits[j].apex else splits[j].apex;
          all := AddNew(all, MeshService(svc.namespace, name, svc.port, svc.targetPort, svc.protocol, "", "", ""));
        }
      }
      assert splits[..|splits|] == splits;
      assert forall s :: s in upstream[..i + 1] <==> s in upstream[..i] || s == svc;
    }
    assert upstream[..|upstream|] == upstream;
  }

  /** Whatever is in the expanded list beside the upstream services is the apex of a split over one. */
  lemma ExpandedIsApex(upstream: seq<MeshService>, mesh: Mesh, svc: MeshService)
    returns (s: MeshService, split: TrafficSplit)
    requires Expanded(upstream, mesh, svc) && svc !in upstream
    ensures s in upstream && split in mesh.splits && split.namespace in mesh.monitored
    ensures s.name == "" || (split.namespace == s.namespace && s.name in split.backends)
    ensures svc == MeshService(s.namespace,
      if split.subdomain == "" then split.apex else split.subdomain + "." + split.apex,
      s.port, s.targetPort, s.protocol, "", "", "")
  {
    s, split :| s in upstream && split in mesh.splits && HasBackend(mesh, split, s) && IsApex(svc, s, split);
  }

  datatype ClusterConfig = ClusterConfig(service: MeshService, port: nat)

  datatype TrafficMatch = TrafficMatch(name: string, port: nat, protocol: string, serverName: string, cluster: string)

  /** The part of an inbound policy that belongs to one service; its name is `name.namespace`. */
  datatype RouteConfig = RouteConfig(name: string, rules: seq<PolicyRule>)

  datatype Policy = Policy(matches: seq<TrafficMatch>, clusters: seq<ClusterConfig>, routes: map<nat, seq<RouteConfig>>)

  predicate IsHTTP(svc: MeshService) {
    svc.protocol != PROTOCOL_TCP && svc.protocol != PROTOCOL_TCP_SERVER_FIRST
  }

  /** The services for which route configurations are filed under `port`, in order. */
  function HTTPServicesOn(all: seq<MeshService>, port: nat): seq<MeshService> {
    if all == [] then []
    else
      var front, svc := HTTPServicesOn(all[..|all| - 1], port), all[|all| - 1];
      if IsHTTP(svc) && svc.targetPort == port then front + [svc] else front
  }

  /** The services of `given` among `all`, in order. */
  function GivenServices(all: seq<MeshService>, given: set<MeshService>): seq<MeshService> {
    if all == [] then []
    else
      var front, svc := GivenServices(all[..|all| - 1], given), all[|all| - 1];
      if svc in given then front + [svc] else front
  }

  /** `MeshService.String`. */
  function ServiceString(svc: MeshService): string {
    svc.namespace + "/" + svc.name
  }

  function InboundTrafficMatchName(svc: MeshService): string {
    "inbound_" + ServiceString(svc) + "_" + Decimal(svc.targetPort) + "_" + svc.protocol + "_" + svc.attachedNamespace
  }

  function SidecarLocalClusterName(svc: MeshService): string {
    ServiceString(svc) + "|" + Decimal(svc.targetPort) + "|local"
  }

  function PolicyName(svc: MeshService): string {
    svc.name + "." + svc.namespace
  }

  function MatchFor(svc: MeshService, trustDomain: string): TrafficMatch {
    TrafficMatch(InboundTrafficMatchName(svc), svc.targetPort, svc.protocol, PolicyName(svc) + ".svc." + trustDomain,
                 SidecarLocalClusterName(svc))
  }

  function RoutesOn(routes: map<nat, seq<RouteConfig>>, port: nat): seq<RouteConfig> {
    if port in routes then routes[port] else []
  }

  /** A target the policy is built from: a listed one whose destination is `account`. An account
      without a name switches the filter off. */
  predicate TargetFor(mesh: Mesh, account: Account, t: TrafficTarget) {
    Listed(t, mesh.monitored) && (account.name == "" || AccountOf(t.destination) == account)
  }

  method ListTargetsFor(mesh: Mesh, account: Account) returns (targets: seq<TrafficTarget>)
    ensures forall t :: t in targets <==> t in mesh.targets && TargetFor(mesh, account, t)
  {
    var listed := ListTrafficTargets(mesh.targets, mesh.monitored);
    targets := [];
    for i := 0 to |listed|
      invariant forall t :: t in targets <==> t in listed[..i] && TargetFor(mesh, account, t)
    {
      var destination := AccountOf(listed[i].destination);
      if account.name != "" && (account.namespace != destination.namespace || account.name != destination.name) {
        continue;
      }
      targets := targets + [listed[i]];
    }
    assert listed[..|listed|] == listed;
  }

  /** The rules of a service: one wildcard rule in permissive mode, else what the targets grant. */
  ghost predicate RightRules(rules: seq<PolicyRule>, mesh: Mesh, account: Account, c: Context, permissive: bool) {
    if permissive then rules == [WildcardRule(c)]
    else DistinctRoutes(rules) && forall p, r :: Allows(rules, p, r) <==> Granted(mesh, account, c, p, r)
  }

  /** A listed target for `account` grants principal `p` the route `r`. */
  ghost predicate Granted(mesh: Mesh, account: Account, c: Context, p: string, r: Route) {
    exists t :: t in mesh.targets && TargetFor(mesh, account, t) && TargetGrants(t, c, p, r)
  }

  method GetInboundRules(mesh: Mesh, account: Account, targets: seq<TrafficTarget>, c: Context, permissive: bool)
    returns (rules: seq<PolicyRule>)
    requires SlashFreeGroups(c.groups) && forall t :: t in mesh.targets ==> SlashFree(t.namespace)
    requires !permissive ==> forall t :: t in targets <==> t in mesh.targets && TargetFor(mesh, account, t)
    ensures RightRules(rules, mesh, account, c, permissive)
  {
    if permissive { return [WildcardRule(c)]; }
    rules := BuildInboundHTTPPolicy(targets, c);
    assert forall p, r :: Authorizes(targets, c, p, r) <==> Granted(mesh, account, c, p, r);
  }

  function WildcardRule(c: Context): PolicyRule {
    PolicyRule(RouteFor(HTTPRouteMatch(REGEX_MATCH_ALL, [WILDCARD_METHOD], map[]), c.cluster, c.limits), {"*"})
  }

  function ClustersOf(all: seq<MeshService>): seq<ClusterConfig> {
    seq(|all|, i requires 0 <= i < |all| => ClusterConfig(all[i], all[i].targetPort))
  }

  function MatchesOf(services: seq<MeshService>, trustDomain: string): seq<TrafficMatch> {
    seq(|services|, i requires 0 <= i < |services| => MatchFor(services[i], trustDomain))
  }

  /** The route configurations filed under one port: one for each of the services, in order, each
      with the right rules for its own service. */
  ghost predicate RoutesFor(routes: seq<RouteConfig>, services: seq<MeshService>, r: Rulebook) {
    |routes| == |services| &&
    forall i :: 0 <= i < |routes| ==> routes[i].name == PolicyName(services[i]) && r.Right(routes[i].rules, services[i])
  }

  /** What the rules of a policy are made from. */
  datatype Rulebook = Rulebook(mesh: Mesh, account: Account, context: MeshService -> Context, permissive: bool) {
    ghost predicate Right(rules: seq<PolicyRule>, svc: MeshService) {
      RightRules(rules, mesh, account, context(svc), permissive)
    }
  }

  /** What a finished policy looks like for the expanded list `all`. */
  ghost predicate Shaped(all: seq<MeshService>, given: set<MeshService>, policy: Policy, r: Rulebook) {
    && policy.clusters == ClustersOf(all)
    && policy.matches == MatchesOf(GivenServices(all, given), r.mesh.trustDomain)
    && forall port :: RoutesFor(RoutesOn(policy.routes, port), HTTPServicesOn(all, port), r)
  }

  /** `GetInboundMeshTrafficPolicy`; what else the rules of a service depend on is given by `context`. */
  method GetInboundMeshTrafficPolicy(upstream: seq<MeshService>, account: Account, mesh: Mesh,
                                     context: MeshService -> Context, permissive: bool)
    returns (policy: Policy, all: seq<MeshService>)
    requires forall t :: t in mesh.targets ==> SlashFree(t.namespace)
    requires forall svc :: SlashFreeGroups(context(svc).groups)
    ensures NoDuplicates(all) && forall svc :: svc in all <==> Expanded(upstream, mesh, svc)
    ensures Shaped(all, Elements(upstream), policy, Rulebook(mesh, account, context, permissive))
  {
    var targets := [];
    if !permissive { targets := ListTargetsFor(mesh, account); }
    all := GetUpstreamServicesIncludeApex(upstream, mesh);
    policy := Policy([], [], map[]);
    ghost var r := Rulebook(mesh, account, context, permissive);
    for i := 0 to |all|
      invariant Shaped(all[..i], Elements(upstream), policy, r)
    {
      var svc := all[i];
      ghost var before := policy;
      policy := policy.(clusters := policy.clusters + [ClusterConfig(svc, svc.targetPort)]);
      if svc in upstream {
        policy := policy.(matches := policy.matches + [MatchFor(svc, mesh.trustDomain)]);
      }
      ghost var rules: seq<PolicyRule> := [];
      if IsHTTP(svc) {
        var found := GetInboundRules(mesh, account, targets, context(svc), permissive);
        rules := found;
        policy := policy.(routes := AddRoute(policy.routes, svc.targetPort, RouteConfig(PolicyName(svc), found)));
      }
      ShapedStep(all, i, Elements(upstream), before, policy, rules, r);
    }
    assert all[..|all|] == all;
  }

  function AddRoute(routes: map<nat, seq<RouteConfig>>, port: nat, rc: RouteConfig): map<nat, seq<RouteConfig>> {
    routes[port := RoutesOn(routes, port) + [rc]]
  }

  lemma ShapedStep(all: seq<MeshService>, i: nat, given: set<MeshService>, before: Policy, after: Policy,
                   rules: seq<PolicyRule>, r: Rulebook)
    requires i < |all| && Shaped(all[..i], given, before, r)
    requires after.clusters == before.clusters + [ClusterConfig(all[i], all[i].targetPort)]
    requires after.matches == (if all[i] in given
      then before.matches + [MatchFor(all[i], r.mesh.trustDomain)] else before.matches)
    requires after.routes == (if IsHTTP(all[i])
      then AddRoute(before.routes, all[i].targetPort, RouteConfig(PolicyName(all[i]), rules)) else before.routes)
    requires IsHTTP(all[i]) ==> r.Right(rules, all[i])
    ensures Shaped(all[..i + 1], given, after, r)
  {
    assert all[..i + 1][..i] == all[..i];
    forall port ensures RoutesFor(RoutesOn(after.routes, port), HTTPServicesOn(all[..i + 1], port), r) {
      RoutesStep(all, i, before.routes, after.routes, rules, port, r);
    }
  }

  lemma {:induction false} RoutesStep(all: seq<MeshService>, i: nat, before: map<nat, seq<RouteConfig>>,
                                      after: map<nat, seq<RouteConfig>>,
                   rules: seq<PolicyRule>, port: nat, r: Rulebook)
    requires i < |all| && RoutesFor(RoutesOn(before, port), HTTPServicesOn(all[..i], port), r)
    requires after == (if IsHTTP(all[i])
      then AddRoute(before, all[i].targetPort, RouteConfig(PolicyName(all[i]), rules)) else before)
    requires IsHTTP(all[i]) ==> r.Right(rules, all[i])
    ensures RoutesFor(RoutesOn(after, port), HTTPServicesOn(all[..i + 1], port), r)
  {
    assert all[..i + 1][..i] == all[..i];
  }

  lemma {:induction false} GivenServicesAreExact(all: seq<MeshService>, given: set<MeshService>)
    requires NoDuplicates(all)
    ensures NoDuplicates(GivenServices(all, given))
    ensures forall svc :: svc in GivenServices(all, given) <==> svc in all && svc in given
  {
    if all != [] {
      var n := |all| - 1;
      GivenServicesAreExact(all[..n], given);
      assert all == all[..n] + [all[n]];
    }
  }

  lemma {:induction false} HTTPServicesAreExact(all: seq<MeshService>, port: nat)
    requires NoDuplicates(all)
    ensures NoDuplicates(HTTPServicesOn(all, port))
    ensures forall svc :: svc in HTTPServicesOn(all, port) <==>
      svc in all && svc.protocol != "tcp" && svc.protocol != "tcp-server-first" && svc.targetPort == port
  {
    if all != [] {
      var n := |all| - 1;
      HTTPServicesAreExact(all[..n], port);
      assert all == all[..n] + [all[n]];
    }
  }

  /** The given services are exactly the distinct upstream services, and the services with routes on
      a port are exactly the non-TCP ones of the expanded list: so a purely virtual apex has no
      traffic match, but has its routes. */
  lemma {:induction false} PolicyIsOneToOne(upstream: seq<MeshService>, mesh: Mesh, all: seq<MeshService>, port: nat)
    requires NoDuplicates(all) && forall svc :: svc in all <==> Expanded(upstream, mesh, svc)
    ensures var given := GivenServices(all, Elements(upstream));
      NoDuplicates(given) && forall svc :: svc in given <==> svc in upstream
    ensures var http := HTTPServicesOn(all, port);
      NoDuplicates(http) && forall svc :: svc in http <==>
        Expanded(upstream, mesh, svc) && svc.targetPort == port && svc.protocol != "tcp" &&
        svc.protocol != "tcp-server-first"
  {
    GivenServicesAreExact(all, Elements(upstream));
    HTTPServicesAreExact(all, port);
    assert forall svc :: svc in upstream ==> Expanded(upstream, mesh, svc);
  }

  // ---------------------------------------------------------------------
  // When two services share a traffic match

  /** The services agree on all that goes into a traffic match; the service port does not. */
  predicate SameMatch(a: MeshService, b: MeshService) {
    && a.namespace == b.namespace && a.name == b.name && a.targetPort == b.targetPort
    && a.protocol == b.protocol && a.attachedNamespace == b.attachedNamespace
  }

  lemma ClusterTellsService(a: MeshService, b: MeshService)
    requires SlashFree(a.namespace) && SlashFree(b.namespace) && a.targetPort == b.targetPort
    requires SidecarLocalClusterName(a) == SidecarLocalClusterName(b)
    ensures a.namespace == b.namespace && a.name == b.name
  {
    var tail := "|" + Decimal(a.targetPort) + "|local";
    var x, y := ServiceString(a), ServiceString(b);
    assert SidecarLocalClusterName(a) == x + tail && SidecarLocalClusterName(b) == y + tail;
    assert x == (x + tail)[..|x + tail| - |tail|] == (y + tail)[..|y + tail| - |tail|] == y;
    CutIsUnique(a.namespace, a.name, b.namespace, b.name, '/');
  }

  lemma NameTellsAttached(a: MeshService, b: MeshService)
    requires ServiceString(a) == ServiceString(b) && a.targetPort == b.targetPort && a.protocol == b.protocol
    requires InboundTrafficMatchName(a) == InboundTrafficMatchName(b)
    ensures a.attachedNamespace == b.attachedNamespace
  {
    var front := "inbound_" + ServiceString(a) + "_" + Decimal(a.targetPort) + "_" + a.protocol + "_";
    assert a.attachedNamespace == InboundTrafficMatchName(a)[|front|..];
    assert b.attachedNamespace == InboundTrafficMatchName(b)[|front|..];
  }

  /** Two services get the same traffic match exactly when they agree on all that goes into it. */
  lemma SameMatchExactly(a: MeshService, b: MeshService, trustDomain: string)
    requires SlashFree(a.namespace) && SlashFree(b.namespace)
    ensures MatchFor(a, trustDomain) == MatchFor(b, trustDomain) <==> SameMatch(a, b)
  {
    if MatchFor(a, trustDomain) == MatchFor(b, trustDomain) {
      ClusterTellsService(a, b);
      NameTellsAttached(a, b);
    }
  }

  /** The traffic matches of a policy are distinct exactly when no two upstream services agree on
      namespace, name, target port, protocol and attached namespace. */
  lemma MatchesDistinctExactly(upstream: seq<MeshService>, all: seq<MeshService>, policy: Policy, r: Rulebook)
    requires NoDuplicates(all) && forall svc :: svc in all <==> Expanded(upstream, r.mesh, svc)
    requires Shaped(all, Elements(upstream), policy, r) && forall svc :: svc in upstream ==> SlashFree(svc.namespace)
    ensures NoDuplicates(policy.matches) <==>
      forall a, b :: a in upstream && b in upstream && a != b ==> !SameMatch(a, b)
  {
    var given := GivenServices(all, Elements(upstream));
    PolicyIsOneToOne(upstream, r.mesh, all, 0);
    forall a, b | a in upstream && b in upstream
      ensures MatchFor(a, r.mesh.trustDomain) == MatchFor(b, r.mesh.trustDomain) <==> SameMatch(a, b)
    {
      SameMatchExactly(a, b, r.mesh.trustDomain);
    }
    DistinctImages(given, policy.matches, r.mesh.trustDomain);
  }

  lemma DistinctImages(given: seq<MeshService>, matches: seq<TrafficMatch>, trustDomain: string)
    requires NoDuplicates(given) && matches == MatchesOf(given, trustDomain)
    ensures NoDuplicates(matches) <==>
      forall a, b :: a in given && b in given && a != b ==> MatchFor(a, trustDomain) != MatchFor(b, trustDomain)
  {
    if NoDuplicates(matches) {
      forall a, b | a in given && b in given && a != b ensures MatchFor(a, trustDomain) != MatchFor(b, trustDomain) {
        var i, j :| 0 <= i < |given| && 0 <= j < |given| && given[i] == a && given[j] == b;
        assert matches[i] != matches[j];
      }
    }
  }

  lemma {:induction false} HTTPServiceFiled(all: seq<MeshService>, svc: MeshService) returns (k: nat)
    requires svc in all && svc.protocol != "tcp" && svc.protocol != "tcp-server-first"
    ensures k < |HTTPServicesOn(all, svc.targetPort)| && HTTPServicesOn(all, svc.targetPort)[k] == svc
  {
    var n := |all| - 1;
    if all[n] == svc {
      k := |HTTPServicesOn(all[..n], svc.targetPort)|;
    } else {
      assert all == all[..n] + [all[n]];
      k := HTTPServiceFiled(all[..n], svc);
    }
  }

  /** What the policy holds for a service of the expanded list: a cluster; a traffic match, if the service
      is one of the given ones, under its own names; and on its target port, unless it speaks TCP, a
      route configuration under its own name with the right rules. */
  lemma PolicyServes(upstream: seq<MeshService>, all: seq<MeshService>, policy: Policy, r: Rulebook, svc: MeshService)
    requires Shaped(all, Elements(upstream), policy, r) && svc in all
    ensures ClusterConfig(svc, svc.targetPort) in policy.clusters
    ensures svc in upstream ==>
      TrafficMatch("inbound_" + svc.namespace + "/" + svc.name + "_" + Decimal(svc.targetPort) + "_" + svc.protocol +
                     "_" + svc.attachedNamespace,
                   svc.targetPort, svc.protocol, svc.name + "." + svc.namespace + ".svc." + r.mesh.trustDomain,
                   svc.namespace + "/" + svc.name + "|" + Decimal(svc.targetPort) + "|local") in policy.matches
    ensures svc.protocol != "tcp" && svc.protocol != "tcp-server-first" ==>
      exists rc :: rc in RoutesOn(policy.routes, svc.targetPort) && rc.name == svc.name + "." + svc.namespace &&
        r.Right(rc.rules, svc)
  {
    var i :| 0 <= i < |all| && all[i] == svc;
    assert policy.clusters[i] == ClusterConfig(svc, svc.targetPort);
    if svc in upstream {
      assert svc in GivenServices(all, Elements(upstream)) by { GivenServiceStays(all, Elements(upstream), svc); }
      var given := GivenServices(all, Elements(upstream));
      var j :| 0 <= j < |given| && given[j] == svc;
      assert policy.matches[j] == MatchFor(svc, r.mesh.trustDomain);
      MatchText(svc, r.mesh.trustDomain);
    }
    if svc.protocol != "tcp" && svc.protocol != "tcp-server-first" {
      var k := HTTPServiceFiled(all, svc);
      assert RoutesFor(RoutesOn(policy.routes, svc.targetPort), HTTPServicesOn(all, svc.targetPort), r);
      assert RoutesOn(policy.routes, svc.targetPort)[k] in RoutesOn(policy.routes, svc.targetPort);
    }
  }

  lemma {:induction false} GivenServiceStays(all: seq<MeshService>, given: set<MeshService>, svc: MeshService)
    requires svc in all && svc in given
    ensures svc in GivenServices(all, given)
  {
    var n := |all| - 1;
    if all[n] != svc {
      assert all == all[..n] + [all[n]];
      GivenServiceStays(all[..n], given, svc);
    }
  }

  lemma MatchText(svc: MeshService, trustDomain: string)
    ensures MatchFor(svc, trustDomain) ==
      TrafficMatch("inbound_" + svc.namespace + "/" + svc.name + "_" + Decimal(svc.targetPort) + "_" + svc.protocol +
                     "_" + svc.attachedNamespace,
                   svc.targetPort, svc.protocol, svc.name + "." + svc.namespace + ".svc." + trustDomain,
                   svc.namespace + "/" + svc.name + "|" + Decimal(svc.targetPort) + "|local")
  {
    assert "inbound_" + (svc.namespace + "/" + svc.name) == "inbound_" + svc.namespace + "/" + svc.name;
  }

  /** A failing input: two ports of one service that lead to the same target port. */
  lemma PortsShareAMatch(svc: MeshService, port: nat, trustDomain: string)
    ensures MatchFor(svc, trustDomain) == MatchFor(svc.(port := port), trustDomain)
  {
  }
}
