/**
 What the compiled inbound rules mean for requests: who may make which request,
 in terms of the TrafficTargets and HTTPRouteGroups as they are written
 (pkg/catalog/inbound_traffic_policies.go).
 */
module InboundRequests {
  import opened Prelude
  import opened Strings
  import opened TrafficTargets
  import opened InboundRules
  import opened InboundPolicy

  datatype Request = Request(path: string, verb: string, headers: map<string, string>)

  /** When a pattern matches a text; `.*` matches every text. */
  type Regex = (string, string) -> bool

  ghost predicate MatchesAll(re: Regex) {
    forall text :: re(".*", text)
  }

  predicate HeadersFit(headers: map<string, string>, q: Request, re: Regex) {
    forall h :: h in headers ==> h in q.headers && re(headers[h], q.headers[h])
  }

  /** The request satisfies a match as written; no path or no methods mean any. */
  predicate Satisfies(q: Request, m: HTTPMatch, re: Regex) {
    && (m.pathRegex == "" || re(m.pathRegex, q.path))
    && (m.methods == [] || "*" in m.methods || q.verb in m.methods)
    && HeadersFit(m.headers, q, re)
  }

  /** A compiled route takes the request. */
  predicate Takes(m: HTTPRouteMatch, q: Request, re: Regex) {
    re(m.path, q.path) && ("*" in m.methods || q.verb in m.methods) && HeadersFit(m.headers, q, re)
  }

  /** The rules let a client with principal `p` make the request; the wildcard principal stands for all. */
  ghost predicate Admits(rules: seq<PolicyRule>, p: string, q: Request, re: Regex) {
    exists i :: 0 <= i < |rules| && (p in rules[i].principals || "*" in rules[i].principals) &&
      Takes(rules[i].route.match_, q, re)
  }

  // ---------------------------------------------------------------------
  // What a match name stands for

  /** `m` is the last match of that name. */
  ghost predicate LastMatch(ms: seq<HTTPMatch>, name: string, m: HTTPMatch) {
    exists j :: 0 <= j < |ms| && ms[j] == m && m.name == name && forall l :: j < l < |ms| ==> ms[l].name != name
  }

  /** A group with matches, of that namespace and name. */
  predicate IsGroup(g: HTTPRouteGroup, namespace: string, name: string) {
    g.matches.Some? && g.namespace == namespace && g.name == name
  }

  /** `m` is the last match of that name in the last such group. */
  ghost predicate NamedMatch(groups: seq<HTTPRouteGroup>, namespace: string, rule: string, name: string,
                             m: HTTPMatch) {
    exists g :: 0 <= g < |groups| && IsGroup(groups[g], namespace, rule) &&
      LastMatch(groups[g].matches.value, name, m) && forall l :: g < l < |groups| ==>
        !IsGroup(groups[l], namespace, rule)
  }

  lemma {:induction false} ResolvedMatch(ms: seq<HTTPMatch>, name: string) returns (m: HTTPMatch)
    requires ResolveMatch(ms, name).Some?
    ensures LastMatch(ms, name, m) && ResolveMatch(ms, name) == Some(RouteMatchOf(m))
  {
    var n := |ms| - 1;
    if ms[n].name == name {
      m := ms[n];
    } else {
      m := ResolvedMatch(ms[..n], name);
      var j :| 0 <= j < n && ms[..n][j] == m && m.name == name && forall l :: j < l < n ==> ms[..n][l].name != name;
      assert ms[j] == m && forall l :: j < l < |ms| ==> ms[l].name != name;
    }
  }

  lemma {:induction false} LastMatchResolves(ms: seq<HTTPMatch>, name: string, m: HTTPMatch)
    requires LastMatch(ms, name, m)
    ensures ResolveMatch(ms, name) == Some(RouteMatchOf(m))
  {
    var j :| 0 <= j < |ms| && ms[j] == m && m.name == name && forall l :: j < l < |ms| ==> ms[l].name != name;
    var n := |ms| - 1;
    if j < n {
      assert ms[..n][j] == m;
      LastMatchResolves(ms[..n], name, m);
    }
  }

  lemma {:induction false} ResolvedName(groups: seq<HTTPRouteGroup>, namespace: string, rule: string, name: string)
    returns (m: HTTPMatch)
    requires Resolve(groups, namespace, rule, name).Some?
    ensures NamedMatch(groups, namespace, rule, name, m)
    ensures Resolve(groups, namespace, rule, name) == Some(RouteMatchOf(m))
  {
    var n := |groups| - 1;
    if IsGroup(groups[n], namespace, rule) {
      m := ResolvedMatch(groups[n].matches.value, name);
    } else {
      m := ResolvedName(groups[..n], namespace, rule, name);
      var g :| 0 <= g < n && IsGroup(groups[..n][g], namespace, rule) &&
        LastMatch(groups[..n][g].matches.value, name, m) &&
        forall l :: g < l < n ==> !IsGroup(groups[..n][l], namespace, rule);
      assert IsGroup(groups[g], namespace, rule);
      forall l | g < l < |groups| ensures !IsGroup(groups[l], namespace, rule) {
        if l < n { assert groups[..n][l] == groups[l]; }
      }
    }
  }

  lemma {:induction false} NamedMatchResolves(groups: seq<HTTPRouteGroup>, namespace: string, rule: string,
                                              name: string, m: HTTPMatch)
    requires NamedMatch(groups, namespace, rule, name, m)
    ensures Resolve(groups, namespace, rule, name) == Some(RouteMatchOf(m))
  {
    var g :| 0 <= g < |groups| && IsGroup(groups[g], namespace, rule) &&
      LastMatch(groups[g].matches.value, name, m) && forall l :: g < l < |groups| ==>
        !IsGroup(groups[l], namespace, rule);
    var n := |groups| - 1;
    if g < n {
      assert groups[..n][g] == groups[g] && forall l :: g < l < n ==> groups[..n][l] == groups[l];
      NamedMatchResolves(groups[..n], namespace, rule, name, m);
    } else {
      LastMatchResolves(groups[n].matches.value, name, m);
    }
  }

  /** A match, compiled, takes exactly the requests that satisfy it as written. */
  lemma CompiledMatchTakes(m: HTTPMatch, q: Request, re: Regex)
    requires MatchesAll(re)
    ensures Takes(RouteMatchOf(m), q, re) <==> Satisfies(q, m, re)
  {
    if m.methods == [] { assert "*" in RouteMatchOf(m).methods; }
  }

  // ---------------------------------------------------------------------
  // Who may make which request

  /** The target names a source that goes by principal `p`: name, namespace and trust domain. */
  ghost predicate NamesPrincipal(t: TrafficTarget, trustDomain: string, p: string) {
    exists s :: s in t.sources &&
      p == (if s.name == "" then "default" else s.name) + "." + s.namespace + "." + trustDomain
  }

  /** One of the target's rules names a match that the request satisfies. */
  ghost predicate NamesRequest(t: TrafficTarget, groups: seq<HTTPRouteGroup>, q: Request, re: Regex) {
    exists rule, name, m :: rule in t.rules && name in rule.matches &&
      NamedMatch(groups, t.namespace, rule.name, name, m) && Satisfies(q, m, re)
  }

  lemma PrincipalText(a: Account, trustDomain: string)
    ensures PrincipalOf(a,
      trustDomain) == (if a.name == "" then "default" else a.name) + "." + a.namespace + "." + trustDomain
    ensures PrincipalOf(a, trustDomain) != "*"
  {
    var id := ToIdentity(a);
    assert id[|Shown(a)|] == '.';
    assert |PrincipalOf(a, trustDomain)| > 1;
  }

  lemma NamesExactly(t: TrafficTarget, trustDomain: string, p: string)
    ensures Names(t, trustDomain, p) <==> NamesPrincipal(t, trustDomain, p)
    ensures Names(t, trustDomain, p) ==> p != "*"
  {
    forall s ensures PrincipalOf(AccountOf(s), trustDomain) ==
      (if s.name == "" then "default" else s.name) + "." + s.namespace + "." + trustDomain &&
      PrincipalOf(AccountOf(s), trustDomain) != "*"
    {
      PrincipalText(AccountOf(s), trustDomain);
    }
  }

  /** The target refers to some route that takes the request exactly when it names a match for it. */
  lemma RefersExactly(t: TrafficTarget, groups: seq<HTTPRouteGroup>, q: Request, re: Regex)
    requires MatchesAll(re)
    ensures (exists m :: Refers(groups, t, m) && Takes(m, q, re)) <==> NamesRequest(t, groups, q, re)
  {
    if r :| Refers(groups, t, r) && Takes(r, q, re) {
      var rule, name :| rule in t.rules && name in rule.matches &&
        Resolve(groups, t.namespace, rule.name, name) == Some(r);
      var m := ResolvedName(groups, t.namespace, rule.name, name);
      CompiledMatchTakes(m, q, re);
    }
    if NamesRequest(t, groups, q, re) {
      var rule, name, m :| rule in t.rules && name in rule.matches &&
        NamedMatch(groups, t.namespace, rule.name, name, m) && Satisfies(q, m, re);
      NamedMatchResolves(groups, t.namespace, rule.name, name, m);
      CompiledMatchTakes(m, q, re);
      assert Refers(groups, t, RouteMatchOf(m));
    }
  }

  /** The target lets `p` make the request. */
  ghost predicate TargetAdmits(t: TrafficTarget, c: Context, p: string, q: Request, re: Regex) {
    NamesPrincipal(t, c.trustDomain, p) && NamesRequest(t, c.groups, q, re)
  }

  lemma TargetAdmitsExactly(t: TrafficTarget, c: Context, p: string, q: Request, re: Regex)
    requires MatchesAll(re)
    ensures TargetAdmits(t, c, p, q, re) <==> exists r :: TargetGrants(t, c, p, r) && Takes(r.match_, q, re)
  {
    NamesExactly(t, c.trustDomain, p);
    RefersExactly(t, c.groups, q, re);
    if TargetAdmits(t, c, p, q, re) {
      var m :| Refers(c.groups, t, m) && Takes(m, q, re);
      assert TargetGrants(t, c, p, RouteFor(m, c.cluster, c.limits));
    }
    if r :| TargetGrants(t, c, p, r) && Takes(r.match_, q, re) {
      var m :| Refers(c.groups, t, m) && r == RouteFor(m, c.cluster, c.limits);
      assert Refers(c.groups, t, m) && Takes(m, q, re);
    }
  }

  lemma AdmitsByRoute(rules: seq<PolicyRule>, p: string, q: Request, re: Regex)
    requires forall r :: !Allows(rules, "*", r)
    ensures Admits(rules, p, q, re) <==> exists r :: Allows(rules, p, r) && Takes(r.match_, q, re)
  {
    if Admits(rules, p, q, re) {
      var i :| 0 <= i < |rules| && (p in rules[i].principals || "*" in rules[i].principals) &&
        Takes(rules[i].route.match_, q, re);
      assert !Allows(rules, "*", rules[i].route);
      assert Allows(rules, p, rules[i].route);
    }
  }

  /** The compiled rules let `p` make a request exactly when some target names `p` among its sources and
      names a match, the last of its name in the last group of that name, that the request satisfies. */
  lemma RequestsExactly(targets: seq<TrafficTarget>, c: Context, rules: seq<PolicyRule>, p: string, q: Request,
                        re: Regex)
    requires MatchesAll(re) && forall x, r :: Allows(rules, x, r) <==> Authorizes(targets, c, x, r)
    ensures Admits(rules, p, q, re) <==> exists t :: t in targets && TargetAdmits(t, c, p, q, re)
  {
    forall r ensures !Allows(rules, "*", r) {
      forall t ensures !TargetGrants(t, c, "*", r) { NamesExactly(t, c.trustDomain, "*"); }
    }
    AdmitsByRoute(rules, p, q, re);
    forall t ensures TargetAdmits(t, c, p, q, re) <==> exists r :: TargetGrants(t, c, p, r) && Takes(r.match_, q, re) {
      TargetAdmitsExactly(t, c, p, q, re);
    }
    if t :| t in targets && TargetAdmits(t, c, p, q, re) {
      var r :| TargetGrants(t, c, p, r) && Takes(r.match_, q, re);
      assert Authorizes(targets, c, p, r);
    }
  }

  /** What is granted leads to the service's own cluster alone, under the first limit set for the path. */
  lemma GrantedLeadsHome(targets: seq<TrafficTarget>, c: Context, p: string, r: Route)
    requires Authorizes(targets, c, p, r)
    ensures r.clusters == {WeightedCluster(c.cluster, 100)}
    ensures c.limits.None? ==> r.rateLimit == None
    ensures c.limits.Some? ==> r.rateLimit == PathLimit(c.limits.value, r.match_.path)
  {
  }

  /** The rules of a service, in either mode: in permissive mode everybody may make every request; else
      exactly those whom a listed target for the account names, the requests it names. */
  lemma ServiceRequestsExactly(rules: seq<PolicyRule>, mesh: Mesh, account: Account, c: Context, permissive: bool,
                               p: string, q: Request, re: Regex)
    requires MatchesAll(re) && RightRules(rules, mesh, account, c, permissive)
    ensures Admits(rules, p, q, re) <==>
      permissive || exists t :: t in mesh.targets && IsListedFor(t, mesh, account) && TargetAdmits(t, c, p, q, re)
  {
    if permissive {
      assert "*" in rules[0].principals && Takes(rules[0].route.match_, q, re);
    } else {
      var targets := TargetsFor(mesh.targets, mesh, account);
      forall x, r ensures Allows(rules, x, r) <==> Authorizes(targets, c, x, r) {}
      RequestsExactly(targets, c, rules, p, q, re);
    }
  }

  /** A valid target in a monitored namespace, whose destination is the account; an account without a
      name stands for every destination. */
  predicate IsListedFor(t: TrafficTarget, mesh: Mesh, account: Account) {
    && t.namespace in mesh.monitored && t.destination.namespace == t.namespace && t.rules != []
    && (forall r :: r in t.rules ==> r.kind == "HTTPRouteGroup" || r.kind == "TCPRoute")
    && (account.name == "" || (t.destination.name == account.name && t.destination.namespace == account.namespace))
  }

  lemma ListedForExactly(t: TrafficTarget, mesh: Mesh, account: Account)
    ensures TargetFor(mesh, account, t) <==> IsListedFor(t, mesh, account)
  {
    assert forall i :: 0 <= i < |t.rules| ==> t.rules[i] in t.rules;
  }

  lemma {:induction false} TargetsFor(all: seq<TrafficTarget>, mesh: Mesh, account: Account)
    returns (targets: seq<TrafficTarget>)
    ensures forall t :: t in targets <==> t in all && TargetFor(mesh, account, t)
    ensures forall t :: t in targets <==> t in all && IsListedFor(t, mesh, account)
  {
    forall t ensures TargetFor(mesh, account, t) <==> IsListedFor(t, mesh, account) {
      ListedForExactly(t, mesh, account);
    }
    if all == [] {
      targets := [];
    } else {
      var n := |all| - 1;
      targets := TargetsFor(all[..n], mesh, account);
      assert all == all[..n] + [all[n]];
      if TargetFor(mesh, account, all[n]) { targets := targets + [all[n]]; }
    }
  }
}
