/**
 Compilation of TrafficTargets and HTTPRouteGroups into inbound routing rules
 (pkg/catalog/inbound_traffic_policies.go and `MergeRules` and
 `NewRouteWeightedCluster` of pkg/trafficpolicy/trafficpolicy.go).
 */
module InboundRules {
  import opened Prelude
  import opened Strings
  import opened TrafficTargets

  const REGEX_MATCH_ALL := ".*"
  const WILDCARD_METHOD := "*"
  const ACCEPT_ALL_WEIGHT: int := 100

  /** A match of an HTTPRouteGroup, as written. */
  datatype HTTPMatch = HTTPMatch(name: string, pathRegex: string, methods: seq<string>, headers: map<string, string>)

  /** An HTTPRouteGroup; its list of matches may be missing altogether. */
  datatype HTTPRouteGroup = HTTPRouteGroup(namespace: string, name: string, matches: Option<seq<HTTPMatch>>)

  datatype HTTPRouteMatch = HTTPRouteMatch(path: string, methods: seq<string>, headers: map<string, string>)

  datatype WeightedCluster = WeightedCluster(name: string, weight: int)

  /** The per-path rate limits of an UpstreamTrafficSetting, if there is one. */
  type RateLimits = Option<seq<(string, nat)>>

  datatype Route = Route(match_: HTTPRouteMatch, clusters: set<WeightedCluster>, rateLimit: Option<nat>)

  /** A rule of the compiled policy: who may use a route. */
  datatype PolicyRule = PolicyRule(route: Route, principals: set<string>)

  // ---------------------------------------------------------------------
  // From match names to routes

  /** An empty path or method list is a wildcard. */
  function RouteMatchOf(m: HTTPMatch): HTTPRouteMatch {
    HTTPRouteMatch(
      if m.pathRegex == "" then REGEX_MATCH_ALL else m.pathRegex,
      if m.methods == [] then [WILDCARD_METHOD] else m.methods,
      m.headers)
  }

  function SpecName(namespace: string, name: string): string {
    HTTP_ROUTE_GROUP_KIND + "/" + namespace + "/" + name
  }

  predicate SlashFree(s: string) {
    '/' !in s
  }

  /** Spec names do not collide as long as namespaces hold no slash. */
  lemma SpecNameInjective(ns1: string, n1: string, ns2: string, n2: string)
    requires SlashFree(ns1) && SlashFree(ns2) && SpecName(ns1, n1) == SpecName(ns2, n2)
    ensures ns1 == ns2 && n1 == n2
  {
    var kind := HTTP_ROUTE_GROUP_KIND + "/";
    var a, b := ns1 + "/" + n1, ns2 + "/" + n2;
    assert SpecName(ns1, n1) == kind + a && SpecName(ns2, n2) == kind + b;
    assert a == (kind + a)[|kind|..] == (kind + b)[|kind|..] == b;
    CutIsUnique(ns1, n1, ns2, n2, '/');
  }

  /** The routes of one group by match name; a repeated name keeps its last match. */
  function MatchPaths(ms: seq<HTTPMatch>): map<string, HTTPRouteMatch> {
    if ms == [] then map[]
    else MatchPaths(ms[..|ms| - 1])[ms[|ms| - 1].name := RouteMatchOf(ms[|ms| - 1])]
  }

  /** All routes by spec name and match name. */
  function RoutePaths(groups: seq<HTTPRouteGroup>): map<string, map<string, HTTPRouteMatch>> {
    if groups == [] then map[]
    else
      var front, g := RoutePaths(groups[..|groups| - 1]), groups[|groups| - 1];
      if g.matches.None? then front else front[SpecName(g.namespace, g.name) := MatchPaths(g.matches.value)]
  }

  method GetHTTPPathsPerRoute(groups: seq<HTTPRouteGroup>) returns (routes: map<string, map<string, HTTPRouteMatch>>)
    ensures routes == RoutePaths(groups)
  {
    routes := map[];
    for i := 0 to |groups|
      invariant routes == RoutePaths(groups[..i])
    {
      var g := groups[i];
      assert groups[..i + 1][..i] == groups[..i];
      if g.matches.None? { continue; }
      var ms := g.matches.value;
      var paths: map<string, HTTPRouteMatch> := map[];
      for j := 0 to |ms|
        invariant paths == MatchPaths(ms[..j])
      {
        assert ms[..j + 1][..j] == ms[..j];
        var path := if ms[j].pathRegex == "" then REGEX_MATCH_ALL else ms[j].pathRegex;
        var methods := if ms[j].methods == [] then [WILDCARD_METHOD] else ms[j].methods;
        paths := paths[ms[j].name := HTTPRouteMatch(path, methods, ms[j].headers)];
      }
      assert ms[..|ms|] == ms;
      routes := routes[SpecName(g.namespace, g.name) := paths];
    }
    assert groups[..|groups|] == groups;
  }

  /** The match a name stands for in a group: the last one of that name. */
  function ResolveMatch(ms: seq<HTTPMatch>, name: string): Option<HTTPRouteMatch> {
    if ms == [] then None
    else if ms[|ms| - 1].name == name then Some(RouteMatchOf(ms[|ms| - 1]))
    else ResolveMatch(ms[..|ms| - 1], name)
  }

  /** What a rule and a match name stand for in a namespace, by searching the groups themselves. */
  function Resolve(groups: seq<HTTPRouteGroup>, namespace: string, rule: string, name: string): Option<HTTPRouteMatch> {
    if groups == [] then None
    else
      var g := groups[|groups| - 1];
      if g.matches.Some? && g.namespace == namespace && g.name == rule then ResolveMatch(g.matches.value, name)
      else Resolve(groups[..|groups| - 1], namespace, rule, name)
  }

  function Lookup(routes: map<string, map<string, HTTPRouteMatch>>, spec: string,
                  name: string): Option<HTTPRouteMatch> {
    if spec in routes && name in routes[spec] then Some(routes[spec][name]) else None
  }

  lemma {:induction false} MatchPathsResolve(ms: seq<HTTPMatch>, name: string)
    ensures (if name in MatchPaths(ms) then Some(MatchPaths(ms)[name]) else None) == ResolveMatch(ms, name)
  {
    if ms != [] { MatchPathsResolve(ms[..|ms| - 1], name); }
  }

  ghost predicate SlashFreeGroups(groups: seq<HTTPRouteGroup>) {
    forall i :: 0 <= i < |groups| ==> SlashFree(groups[i].namespace)
  }

  /** Looking a name up in the compiled table finds what searching the groups finds. */
  lemma {:induction false} TableResolves(groups: seq<HTTPRouteGroup>, namespace: string, rule: string, name: string)
    requires SlashFree(namespace) && SlashFreeGroups(groups)
    ensures Lookup(RoutePaths(groups), SpecName(namespace, rule), name) == Resolve(groups, namespace, rule, name)
  {
    if groups != [] {
      var g := groups[|groups| - 1];
      TableResolves(groups[..|groups| - 1], namespace, rule, name);
      if g.matches.Some? {
        MatchPathsResolve(g.matches.value, name);
        if SpecName(g.namespace, g.name) == SpecName(namespace, rule) {
          SpecNameInjective(g.namespace, g.name, namespace, rule);
        }
      }
    }
  }

  /** A match the target refers to, in its own namespace. */
  ghost predicate Refers(groups: seq<HTTPRouteGroup>, t: TrafficTarget, m: HTTPRouteMatch) {
    exists rule, name :: rule in t.rules && name in rule.matches &&
      Resolve(groups, t.namespace, rule.name, name) == Some(m)
  }

  /** `routesFromRules`; the kind of a rule is not looked at. */
  method RoutesFromRules(t: TrafficTarget, groups: seq<HTTPRouteGroup>) returns (routes: seq<HTTPRouteMatch>)
    requires SlashFree(t.namespace) && SlashFreeGroups(groups)
    ensures forall m :: m in routes <==> Refers(groups, t, m)
  {
    routes := [];
    var table := GetHTTPPathsPerRoute(groups);
    forall rule, name
      ensures Lookup(table, SpecName(t.namespace, rule), name) == Resolve(groups, t.namespace, rule, name)
    {
      TableResolves(groups, t.namespace, rule, name);
    }
    if |table| == 0 { return; }
    for i := 0 to |t.rules|
      invariant forall m :: m in routes <==> RefersIn(groups, t.namespace, t.rules[..i], m)
    {
      var found := RoutesFromRule(t.namespace, t.rules[i], table);
      assert forall rule :: rule in t.rules[..i + 1] <==> rule in t.rules[..i] || rule == t.rules[i];
      routes := routes + found;
    }
    assert t.rules[..|t.rules|] == t.rules;
  }

  ghost predicate RefersIn(groups: seq<HTTPRouteGroup>, namespace: string, rules: seq<Rule>, m: HTTPRouteMatch) {
    exists rule, name :: rule in rules && name in rule.matches && Resolve(groups, namespace, rule.name, name) == Some(m)
  }

  method RoutesFromRule(namespace: string, rule: Rule, table: map<string, map<string, HTTPRouteMatch>>)
    returns (routes: seq<HTTPRouteMatch>)
    ensures forall m :: m in routes <==>
      exists name :: name in rule.matches && Lookup(table, SpecName(namespace, rule.name), name) == Some(m)
  {
    routes := [];
    var spec := SpecName(namespace, rule.name);
    for j := 0 to |rule.matches|
      invariant forall m :: m in routes <==>
        exists name :: name in rule.matches[..j] && Lookup(table, spec, name) == Some(m)
    {
      assert forall name :: name in rule.matches[..j + 1] <==> name in rule.matches[..j] || name == rule.matches[j];
      var route := Lookup(table, spec, rule.matches[j]);
      if route.Some? { routes := routes + [route.value]; }
    }
    assert rule.matches[..|rule.matches|] == rule.matches;
  }

  // ---------------------------------------------------------------------
  // Rules and their merge

  /** The rate limit of a path: the first one given for it. */
  function PathLimit(limits: seq<(string, nat)>, path: string): Option<nat> {
    if limits == [] then None
    else if limits[0].0 == path then Some(limits[0].1)
    else PathLimit(limits[1..], path)
  }

  /** The first entry for a path sets its limit. */
  lemma {:induction false} FirstLimitCounts(limits: seq<(string, nat)>, path: string)
    ensures PathLimit(limits, path).None? <==> forall i :: 0 <= i < |limits| ==> limits[i].0 != path
    ensures forall i :: 0 <= i < |limits| && limits[i].0 == path && (forall j :: 0 <= j < i ==> limits[j].0 != path) ==>
      PathLimit(limits, path) == Some(limits[i].1)
  {
    if limits != [] && limits[0].0 != path {
      FirstLimitCounts(limits[1..], path);
      assert forall i :: 0 < i < |limits| ==> limits[i] == limits[1..][i - 1];
    }
  }

  /** `NewRouteWeightedCluster` for one cluster. */
  function RouteFor(m: HTTPRouteMatch, cluster: string, limits: RateLimits): Route {
    var rateLimit := if limits.Some? then PathLimit(limits.value, m.path) else None;
    Route(m, {WeightedCluster(cluster, ACCEPT_ALL_WEIGHT)}, rateLimit)
  }

  /** `ServiceIdentity.AsPrincipal`. */
  function IdentityPrincipal(identity: string, trustDomain: string): string {
    if identity == "*" then "*" else identity + "." + trustDomain
  }

  /** `K8sServiceAccount.AsPrincipal`. */
  function PrincipalOf(a: Account, trustDomain: string): string {
    IdentityPrincipal(ToIdentity(a), trustDomain)
  }

  /** The rules let principal `p` use route `r`. */
  ghost predicate Allows(rules: seq<PolicyRule>, p: string, r: Route) {
    exists i :: 0 <= i < |rules| && rules[i].route == r && p in rules[i].principals
  }

  /** There is one rule per route. */
  ghost predicate DistinctRoutes(rules: seq<PolicyRule>) {
    forall i, j :: 0 <= i < j < |rules| ==> rules[i].route != rules[j].route
  }

  /** The inner loop of `MergeRules`: adds one rule, joining it to the first rule of the same route. */
  method MergeRule(originals: seq<PolicyRule>, latest: PolicyRule) returns (rules: seq<PolicyRule>)
    ensures forall p, r :: Allows(rules, p, r) <==>
      Allows(originals, p, r) || (latest.route == r && p in latest.principals)
    ensures DistinctRoutes(originals) ==> DistinctRoutes(rules)
  {
    for i := 0 to |originals|
      invariant forall j :: 0 <= j < i ==> originals[j].route != latest.route
    {
      if originals[i].route == latest.route {
        rules := originals[i := PolicyRule(latest.route, originals[i].principals + latest.principals)];
        forall p, r
          ensures Allows(rules, p, r) <==> Allows(originals, p, r) || (latest.route == r && p in latest.principals)
        {
          MergedAllows(originals, i, latest, p, r);
        }
        return;
      }
    }
    rules := originals + [latest];
    forall p, r
      ensures Allows(rules, p, r) <==> Allows(originals, p, r) || (latest.route == r && p in latest.principals)
    {
      AppendedAllows(originals, latest, p, r);
    }
  }

  lemma MergedAllows(originals: seq<PolicyRule>, i: nat, latest: PolicyRule, p: string, r: Route)
    requires i < |originals| && originals[i].route == latest.route
    ensures Allows(originals[i := PolicyRule(latest.route, originals[i].principals + latest.principals)], p, r) <==>
      Allows(originals, p, r) || (latest.route == r && p in latest.principals)
  {
    var rules := originals[i := PolicyRule(latest.route, originals[i].principals + latest.principals)];
    if Allows(originals, p, r) {
      var j :| 0 <= j < |originals| && originals[j].route == r && p in originals[j].principals;
      assert rules[j].route == r && p in rules[j].principals;
    }
    if latest.route == r && p in latest.principals { assert p in rules[i].principals; }
    if Allows(rules, p, r) {
      var j :| 0 <= j < |rules| && rules[j].route == r && p in rules[j].principals;
      assert originals[j].route == r;
    }
  }

  lemma AppendedAllows(originals: seq<PolicyRule>, latest: PolicyRule, p: string, r: Route)
    ensures Allows(originals + [latest], p, r) <==>
      Allows(originals, p, r) || (latest.route == r && p in latest.principals)
  {
    var rules := originals + [latest];
    if Allows(originals, p, r) {
      var j :| 0 <= j < |originals| && originals[j].route == r && p in originals[j].principals;
      assert rules[j] == originals[j];
    }
    if latest.route == r && p in latest.principals { assert rules[|originals|] == latest; }
  }

  /** `MergeRules`: grants are united, and routes stay distinct. */
  method MergeRules(originals: seq<PolicyRule>, latest: seq<PolicyRule>) returns (rules: seq<PolicyRule>)
    ensures forall p, r :: Allows(rules, p, r) <==> Allows(originals, p, r) || Allows(latest, p, r)
    ensures DistinctRoutes(originals) ==> DistinctRoutes(rules)
  {
    rules := originals;
    for i := 0 to |latest|
      invariant forall p, r :: Allows(rules, p, r) <==> Allows(originals, p, r) || Allows(latest[..i], p, r)
      invariant DistinctRoutes(originals) ==> DistinctRoutes(rules)
    {
      rules := MergeRule(rules, latest[i]);
      forall p, r
        ensures Allows(latest[..i + 1], p, r) <==>
          Allows(latest[..i], p, r) || (latest[i].route == r && p in latest[i].principals)
      {
        assert latest[..i + 1] == latest[..i] + [latest[i]];
        AppendedAllows(latest[..i], latest[i], p, r);
      }
    }
    assert latest[..|latest|] == latest;
  }

  // ---------------------------------------------------------------------
  // The compiled policy means what the targets say

  /** What everything about one upstream service is compiled with. */
  datatype Context = Context(groups: seq<HTTPRouteGroup>, cluster: string, limits: RateLimits, trustDomain: string)

  /** The target lists a source that goes by principal `p`. */
  ghost predicate Names(t: TrafficTarget, trustDomain: string, p: string) {
    exists s :: s in t.sources && PrincipalOf(AccountOf(s), trustDomain) == p
  }

  /** The target itself grants `p` the route `r`. */
  ghost predicate TargetGrants(t: TrafficTarget, c: Context, p: string, r: Route) {
    Names(t, c.trustDomain, p) && exists m :: Refers(c.groups, t, m) && r == RouteFor(m, c.cluster, c.limits)
  }

  method GetRoutingRulesFromTrafficTarget(t: TrafficTarget, c: Context) returns (rules: seq<PolicyRule>)
    requires SlashFree(t.namespace) && SlashFreeGroups(c.groups)
    ensures forall p, r :: Allows(rules, p, r) <==> TargetGrants(t, c, p, r)
  {
    var matches := RoutesFromRules(t, c.groups);
    var principals: set<string> := {};
    for i := 0 to |t.sources|
      invariant forall p :: p in principals <==>
        exists s :: s in t.sources[..i] && PrincipalOf(AccountOf(s), c.trustDomain) == p
    {
      assert forall s :: s in t.sources[..i + 1] <==> s in t.sources[..i] || s == t.sources[i];
      principals := principals + {PrincipalOf(AccountOf(t.sources[i]), c.trustDomain)};
    }
    assert t.sources[..|t.sources|] == t.sources;
    assert forall p :: p in principals <==> Names(t, c.trustDomain, p);
    rules := RulesForMatches(matches, principals, c);
  }

  method RulesForMatches(matches: seq<HTTPRouteMatch>, principals: set<string>, c: Context)
    returns (rules: seq<PolicyRule>)
    ensures forall p, r :: Allows(rules, p, r) <==>
      p in principals && exists m :: m in matches && r == RouteFor(m, c.cluster, c.limits)
  {
    rules := [];
    for i := 0 to |matches|
      invariant |rules| == i
      invariant forall j :: 0 <= j < i ==> rules[j] == PolicyRule(RouteFor(matches[j], c.cluster, c.limits), principals)
    {
      rules := rules + [PolicyRule(RouteFor(matches[i], c.cluster, c.limits), principals)];
    }
    forall p, r | p in principals && exists m :: m in matches && r == RouteFor(m, c.cluster, c.limits)
      ensures Allows(rules, p, r)
    {
      var j :| 0 <= j < |matches| && r == RouteFor(matches[j], c.cluster, c.limits);
      assert rules[j].route == r;
    }
  }

  /** Some target grants `p` the route `r`. */
  ghost predicate Authorizes(targets: seq<TrafficTarget>, c: Context, p: string, r: Route) {
    exists t :: t in targets && TargetGrants(t, c, p, r)
  }

  /** `buildInboundHTTPPolicyFromTrafficTarget`: the compiled rules allow a principal on a route
      exactly when some target lists it as a source and refers to the route; one rule per route. */
  method BuildInboundHTTPPolicy(targets: seq<TrafficTarget>, c: Context) returns (rules: seq<PolicyRule>)
    requires SlashFreeGroups(c.groups) && forall t :: t in targets ==> SlashFree(t.namespace)
    ensures forall p, r :: Allows(rules, p, r) <==> Authorizes(targets, c, p, r)
    ensures DistinctRoutes(rules)
  {
    rules := [];
    for i := 0 to |targets|
      invariant forall p, r :: Allows(rules, p, r) <==> Authorizes(targets[..i], c, p, r)
      invariant DistinctRoutes(rules)
    {
      var latest := GetRoutingRulesFromTrafficTarget(targets[i], c);
      rules := MergeRules(rules, latest);
      assert forall t :: t in targets[..i + 1] <==> t in targets[..i] || t == targets[i];
    }
    assert targets[..|targets|] == targets;
  }

  /** With one rule per route, the principals of a rule are all who may use its route. */
  lemma RuleHoldsAllPrincipals(rules: seq<PolicyRule>, i: nat, p: string)
    requires DistinctRoutes(rules) && i < |rules|
    ensures p in rules[i].principals <==> Allows(rules, p, rules[i].route)
  {
  }

  /** Two compilations of the same targets, in whatever order and with whatever repetitions, allow
      the same, and every rule that allows anyone occurs in both. */
  lemma CompilationIgnoresOrder(targets1: seq<TrafficTarget>, targets2: seq<TrafficTarget>, c: Context,
                                rules1: seq<PolicyRule>, rules2: seq<PolicyRule>)
    requires Elements(targets1) == Elements(targets2)
    requires DistinctRoutes(rules1) && forall p, r :: Allows(rules1, p, r) <==> Authorizes(targets1, c, p, r)
    requires DistinctRoutes(rules2) && forall p, r :: Allows(rules2, p, r) <==> Authorizes(targets2, c, p, r)
    ensures forall p, r :: Allows(rules1, p, r) <==> Allows(rules2, p, r)
    ensures forall rule :: rule in rules1 && rule.principals != {} ==> rule in rules2
  {
    assert forall t :: t in targets1 <==> t in Elements(targets1);
    assert forall t :: t in targets2 <==> t in Elements(targets2);
    forall p, r ensures Authorizes(targets1, c, p, r) <==> Authorizes(targets2, c, p, r) {
    }
    forall rule | rule in rules1 && rule.principals != {} ensures rule in rules2 {
      var i :| 0 <= i < |rules1| && rules1[i] == rule;
      SameRuleInBoth(rules1, i, rules2);
    }
  }

  lemma SameRuleInBoth(rules1: seq<PolicyRule>, i: nat, rules2: seq<PolicyRule>)
    requires DistinctRoutes(rules1) && DistinctRoutes(rules2) && i < |rules1| && rules1[i].principals != {}
    requires forall p, r :: Allows(rules1, p, r) <==> Allows(rules2, p, r)
    ensures rules1[i] in rules2
  {
    var rule := rules1[i];
    var p :| p in rule.principals;
    RuleHoldsAllPrincipals(rules1, i, p);
    var j :| 0 <= j < |rules2| && rules2[j].route == rule.route && p in rules2[j].principals;
    forall q ensures q in rule.principals <==> q in rules2[j].principals {
      RuleHoldsAllPrincipals(rules1, i, q);
      RuleHoldsAllPrincipals(rules2, j, q);
    }
    assert rules2[j] == rule;
  }

  // ---------------------------------------------------------------------
  // Compiled principals and listed identities

  lemma PrincipalTellsIdentity(x: Account, y: Account, trustDomain: string)
    requires PrincipalOf(x, trustDomain) == PrincipalOf(y, trustDomain)
    ensures ToIdentity(x) == ToIdentity(y)
  {
    var a, b, tail := ToIdentity(x), ToIdentity(y), "." + trustDomain;
    SplitDotFree("*");
    assert a + "." + trustDomain == a + tail && b + "." + trustDomain == b + tail;
    assert a == (a + tail)[..|a + tail| - |tail|] == (b + tail)[..|b + tail| - |tail|] == b;
  }

  /** The target refers to some HTTP route at all. */
  ghost predicate HasRoute(t: TrafficTarget, c: Context) {
    exists m :: Refers(c.groups, t, m)
  }

  predicate For(targets: seq<TrafficTarget>, account: Account, t: TrafficTarget) {
    t in targets && AccountOf(t.destination) == account
  }

  /** The policy compiled from the targets for `account` lets `p` use some route. */
  ghost predicate RouteUser(targets: seq<TrafficTarget>, account: Account, c: Context, p: string) {
    exists t, r :: For(targets, account, t) && TargetGrants(t, c, p, r)
  }

  /** The inbound list of `upstream` holds an identity with principal `p`. */
  ghost predicate ListedPrincipal(targets: seq<TrafficTarget>, upstream: string, trustDomain: string, p: string)
    requires |Split(upstream)| >= 2
  {
    exists id :: InboundLists(targets, upstream, id) && IdentityPrincipal(id, trustDomain) == p
  }

  /** A source named by a target for `account` that has a route. */
  ghost predicate Routed(targets: seq<TrafficTarget>, account: Account, c: Context, identity: string) {
    exists t, s :: For(targets, account, t) && s in t.sources && HasRoute(t, c) && ToIdentity(AccountOf(s)) == identity
  }

  /** A source granted access to `account`, both being service accounts. */
  ghost predicate GrantNames(targets: seq<TrafficTarget>, account: Account, identity: string) {
    exists t, s :: For(targets, account, t) && Grants(t, s) && ToIdentity(AccountOf(s)) == identity
  }

  /** Wherever a source or destination that is no service account gets routes, a proper grant names
      the same identity. */
  ghost predicate KindsMatched(targets: seq<TrafficTarget>, account: Account, c: Context) {
    forall t, s :: For(targets, account, t) && s in t.sources && HasRoute(t, c) && !Grants(t, s) ==>
      GrantNames(targets, account, ToIdentity(AccountOf(s)))
  }

  /** Wherever a target without routes grants access, one with routes names the same identity. */
  ghost predicate RoutesMatched(targets: seq<TrafficTarget>, account: Account, c: Context) {
    forall t, s :: For(targets, account, t) && Grants(t, s) && !HasRoute(t, c) ==>
      Routed(targets, account, c, ToIdentity(AccountOf(s)))
  }

  lemma RouteUserExactly(targets: seq<TrafficTarget>, account: Account, c: Context, x: Account)
    ensures RouteUser(targets, account, c, PrincipalOf(x, c.trustDomain)) <==>
      Routed(targets, account, c, ToIdentity(x))
  {
    var p := PrincipalOf(x, c.trustDomain);
    if RouteUser(targets, account, c, p) {
      var t, r :| For(targets, account, t) && TargetGrants(t, c, p, r);
      var s :| s in t.sources && PrincipalOf(AccountOf(s), c.trustDomain) == p;
      PrincipalTellsIdentity(AccountOf(s), x, c.trustDomain);
      assert HasRoute(t, c);
    }
    if Routed(targets, account, c, ToIdentity(x)) {
      var t, s :| For(targets, account, t) && s in t.sources && HasRoute(t, c) &&
        ToIdentity(AccountOf(s)) == ToIdentity(x);
      var m :| Refers(c.groups, t, m);
      assert PrincipalOf(AccountOf(s), c.trustDomain) == p;
      assert TargetGrants(t, c, p, RouteFor(m, c.cluster, c.limits));
    }
  }

  lemma {:induction false} ListedPrincipalExactly(targets: seq<TrafficTarget>, upstream: string, trustDomain: string,
                                                  x: Account)
    requires |Split(upstream)| >= 2
    ensures ListedPrincipal(targets, upstream, trustDomain, PrincipalOf(x, trustDomain)) <==>
      GrantNames(targets, ToAccount(upstream), ToIdentity(x))
  {
    var account := ToAccount(upstream);
    forall id ensures InboundLists(targets, upstream, id) <==> GrantNames(targets, account, id) {
      InboundExactly(targets, id, upstream);
      GrantedIsPermitted(targets, account, id);
    }
    if ListedPrincipal(targets, upstream, trustDomain, PrincipalOf(x, trustDomain)) {
      var id :| InboundLists(targets, upstream, id) &&
        IdentityPrincipal(id, trustDomain) == PrincipalOf(x, trustDomain);
      var t, s :| For(targets, account, t) && Grants(t, s) && ToIdentity(AccountOf(s)) == id;
      PrincipalTellsIdentity(AccountOf(s), x, trustDomain);
    }
    if GrantNames(targets, account, ToIdentity(x)) {
      assert InboundLists(targets, upstream, ToIdentity(x));
    }
  }

  lemma GrantedIsPermitted(targets: seq<TrafficTarget>, account: Account, id: string)
    ensures GrantNames(targets, account, id) <==> exists x :: ToIdentity(x) == id && Permits(targets, x, account)
  {
    if GrantNames(targets, account, id) {
      var t, s :| For(targets, account, t) && Grants(t, s) && ToIdentity(AccountOf(s)) == id;
      assert Permits(targets, AccountOf(s), account);
    }
    if x :| ToIdentity(x) == id && Permits(targets, x, account) {
      var t, s :| t in targets && Grants(t, s) && AccountOf(s) == x && AccountOf(t.destination) == account;
      assert For(targets, account, t);
    }
  }

  /** Who may use some route of the proxies that go by `upstream` and whom its inbound list names is the
      same, exactly when kinds and routes are matched: compiling the rules ignores the kinds of
      sources and destinations, and the lists ignore whether there is a route. */
  lemma {:induction false} PrincipalsAgreeExactly(targets: seq<TrafficTarget>, upstream: string, c: Context)
    requires |Split(upstream)| >= 2
    ensures (forall x :: RouteUser(targets, ToAccount(upstream), c, PrincipalOf(x, c.trustDomain)) <==>
               ListedPrincipal(targets, upstream, c.trustDomain, PrincipalOf(x, c.trustDomain))) <==>
      KindsMatched(targets, ToAccount(upstream), c) && RoutesMatched(targets, ToAccount(upstream), c)
  {
    var account := ToAccount(upstream);
    forall x
      ensures RouteUser(targets, account, c, PrincipalOf(x, c.trustDomain)) <==>
        Routed(targets, account, c, ToIdentity(x))
      ensures ListedPrincipal(targets, upstream, c.trustDomain, PrincipalOf(x, c.trustDomain)) <==>
        GrantNames(targets, account, ToIdentity(x))
    {
      RouteUserExactly(targets, account, c, x);
      ListedPrincipalExactly(targets, upstream, c.trustDomain, x);
    }
    MatchedExactly(targets, account, c);
  }

  lemma MatchedExactly(targets: seq<TrafficTarget>, account: Account, c: Context)
    ensures KindsMatched(targets, account, c) && RoutesMatched(targets, account, c) <==>
      forall x: Account :: Routed(targets, account, c, ToIdentity(x)) <==> GrantNames(targets, account, ToIdentity(x))
  {
  }

  /** A failing input: the one source of a target with a route is no service account. Its principal
      may use the route, and it is on no inbound list. */
  lemma SourceKindIsNotChecked(t: TrafficTarget, s: Subject, c: Context)
    requires t.sources == [s] && s.kind != SERVICE_ACCOUNT_KIND && HasRoute(t, c)
    requires ReadBack(AccountOf(t.destination)) == AccountOf(t.destination)
    ensures var x, y := AccountOf(s), AccountOf(t.destination);
      RouteUser([t], y, c, PrincipalOf(x, c.trustDomain)) && forall id :: !InboundLists([t], ToIdentity(y), id)
  {
    var x, y := AccountOf(s), AccountOf(t.destination);
    assert For([t], y, t) && s in t.sources;
    RouteUserExactly([t], y, c, x);
    forall id ensures !InboundLists([t], ToIdentity(y), id) {
      InboundExactly([t], id, ToIdentity(y));
      GrantedIsPermitted([t], y, id);
    }
  }
}
