/**
 Which endpoints of a service a client may use (pkg/catalog/endpoint.go,
 pkg/catalog/isolation.go, pkg/utils/cidr/cidr.go).
 */
module Endpoints {
  import opened Prelude
  import opened Strings
  import opened TrafficTargets

  /** An address of either family, as a number. */
  datatype Ip = Ip(v6: bool, value: nat)

  datatype Endpoint = Endpoint(ip: Ip, port: nat)

  function Pow2(n: nat): (r: nat)
    ensures r > 0
  {
    if n == 0 then 1 else 2 * Pow2(n - 1)
  }

  /** `v` without its lowest `n` bits. */
  function ShiftedRight(v: nat, n: nat): nat {
    if n == 0 then v else ShiftedRight(v / 2, n - 1)
  }

  /** A network: the leading `prefix` bits of an address (section 3.1 of RFC 4632). */
  datatype Cidr = Cidr(v6: bool, network: nat, prefix: nat) {
    function HostBits(): nat {
      var bits := if v6 then 128 else 32;
      if prefix <= bits then bits - prefix else 0
    }

    predicate Has(ip: Ip) {
      ip.v6 == v6 && ShiftedRight(ip.value, HostBits()) == ShiftedRight(network, HostBits())
    }
  }

  // ---------------------------------------------------------------------
  // A network, bit by bit

  /** Bit `i` of a number, the lowest being bit 0. */
  predicate Bit(v: nat, i: nat) {
    ShiftedRight(v, i) % 2 == 1
  }

  /** Bit `k` of an address of `bits` bits, the highest being bit 0. */
  predicate Leading(v: nat, bits: nat, k: nat)
    requires k < bits
  {
    Bit(v, bits - 1 - k)
  }

  lemma BitBelow(v: nat, i: nat)
    ensures Bit(v, i + 1) == Bit(v / 2, i)
  {
  }

  /** The bits from `h` on agree. */
  ghost predicate AgreeFrom(v: nat, w: nat, h: nat, n: nat) {
    forall i: nat :: h <= i < n ==> Bit(v, i) == Bit(w, i)
  }

  lemma AgreeBelow(v: nat, w: nat, h: nat, n: nat)
    requires 0 < h <= n
    ensures AgreeFrom(v, w, h, n) <==> AgreeFrom(v / 2, w / 2, h - 1, n - 1)
  {
    forall i: nat ensures Bit(v, i + 1) == Bit(v / 2, i) && Bit(w, i + 1) == Bit(w / 2, i) {
      BitBelow(v, i);
      BitBelow(w, i);
    }
    if AgreeFrom(v, w, h, n) {
      forall i: nat | h - 1 <= i < n - 1 ensures Bit(v / 2, i) == Bit(w / 2, i) {
        assert Bit(v, i + 1) == Bit(w, i + 1);
      }
    }
    if AgreeFrom(v / 2, w / 2, h - 1, n - 1) {
      forall i: nat | h <= i < n ensures Bit(v, i) == Bit(w, i) {
        assert Bit(v, (i - 1) + 1) == Bit(v / 2, i - 1);
        assert Bit(w, (i - 1) + 1) == Bit(w / 2, i - 1);
      }
    }
  }

  /** Numbers of `n` bits are equal when their bits are. */
  lemma {:induction false} BitsTell(v: nat, w: nat, n: nat)
    requires v < Pow2(n) && w < Pow2(n) && AgreeFrom(v, w, 0, n)
    ensures v == w
  {
    if n > 0 {
      assert AgreeFrom(v, w, 1, n);
      AgreeBelow(v, w, 1, n);
      BitsTell(v / 2, w / 2, n - 1);
      assert Bit(v, 0) == Bit(w, 0);
    }
  }

  /** What is left without the lowest `h` bits is the same exactly when all the other bits are. */
  lemma {:induction false} SameAbove(v: nat, w: nat, h: nat, n: nat)
    requires h <= n && v < Pow2(n) && w < Pow2(n)
    ensures ShiftedRight(v, h) == ShiftedRight(w, h) <==> AgreeFrom(v, w, h, n)
    decreases h
  {
    if h > 0 {
      SameAbove(v / 2, w / 2, h - 1, n - 1);
      AgreeBelow(v, w, h, n);
    } else if AgreeFrom(v, w, 0, n) {
      BitsTell(v, w, n);
    }
  }

  lemma SameLeading(v: nat, w: nat, bits: nat, prefix: nat)
    requires prefix <= bits && v < Pow2(bits) && w < Pow2(bits)
    ensures ShiftedRight(v, bits - prefix) == ShiftedRight(w, bits - prefix) <==>
      forall k :: 0 <= k < prefix ==> Leading(v, bits, k) == Leading(w, bits, k)
  {
    SameAbove(v, w, bits - prefix, bits);
    if forall k :: 0 <= k < prefix ==> Leading(v, bits, k) == Leading(w, bits, k) {
      forall i: nat | bits - prefix <= i < bits ensures Bit(v, i) == Bit(w, i) {
        assert Leading(v, bits, bits - 1 - i) == Leading(w, bits, bits - 1 - i);
      }
    }
  }

  /** The number of bits of an address. */
  function AddressBits(v6: bool): nat {
    if v6 then 128 else 32
  }

  /** An address is in a network exactly when it is of the same family and its first `prefix` bits are
      those of the network. */
  lemma HasExactly(c: Cidr, ip: Ip)
    requires c.prefix <= AddressBits(c.v6) && c.network < Pow2(AddressBits(c.v6)) && ip.value < Pow2(AddressBits(ip.v6))
    ensures c.Has(ip) <==> ip.v6 == c.v6 && forall k :: 0 <= k < c.prefix ==>
      Leading(ip.value, AddressBits(c.v6), k) == Leading(c.network, AddressBits(c.v6), k)
  {
    if ip.v6 == c.v6 { SameLeading(ip.value, c.network, AddressBits(c.v6), c.prefix); }
  }

  /** A prefix of no bits holds its whole family, one of all bits a single address, and a longer prefix
      of the same network never more than a shorter one. */
  lemma PrefixesNest(c: Cidr, longer: nat, ip: Ip)
    requires c.prefix <= longer <= AddressBits(c.v6)
    requires c.network < Pow2(AddressBits(c.v6)) && ip.value < Pow2(AddressBits(ip.v6))
    ensures c.prefix == 0 ==> (c.Has(ip) <==> ip.v6 == c.v6)
    ensures c.prefix == AddressBits(c.v6) ==> (c.Has(ip) <==> ip == Ip(c.v6, c.network))
    ensures c.(prefix := longer).Has(ip) ==> c.Has(ip)
  {
    HasExactly(c, ip);
    HasExactly(c.(prefix := longer), ip);
    if ip.v6 == c.v6 && c.prefix == AddressBits(c.v6) { SameLeading(ip.value, c.network, c.prefix, c.prefix); }
  }

  predicate Isolated(cidrs: seq<Cidr>, ip: Ip) {
    exists c :: c in cidrs && c.Has(ip)
  }

  /** An endpoint some provider knows, outside every isolation network. */
  predicate Reachable(providers: seq<seq<Endpoint>>, cidrs: seq<Cidr>, ep: Endpoint) {
    (exists i :: 0 <= i < |providers| && ep in providers[i]) && !Isolated(cidrs, ep.ip)
  }

  method IsIsolated(cidrs: seq<Cidr>, ip: Ip) returns (isolation: bool)
    ensures isolation <==> Isolated(cidrs, ip)
  {
    for i := 0 to |cidrs|
      invariant forall c :: c in cidrs[..i] ==> !c.Has(ip)
    {
      if cidrs[i].Has(ip) { return true; }
    }
    return false;
  }

  /** `listEndpointsForService` and `listEndpointsForServiceIdentity`: what the providers report,
      without the isolated endpoints. */
  method ListEndpoints(providers: seq<seq<Endpoint>>, cidrs: seq<Cidr>) returns (endpoints: seq<Endpoint>)
    ensures forall ep :: ep in endpoints <==> Reachable(providers, cidrs, ep)
  {
    endpoints := [];
    for i := 0 to |providers|
      invariant forall ep :: ep in endpoints <==> Reachable(providers[..i], cidrs, ep)
    {
      var eps := providers[i];
      assert forall ep :: Reachable(providers[..i + 1], cidrs, ep) <==>
        Reachable(providers[..i], cidrs, ep) || (ep in eps && !Isolated(cidrs, ep.ip));
      if |eps| == 0 { continue; }
      if |cidrs| > 0 {
        for j := 0 to |eps|
          invariant forall ep :: ep in endpoints <==>
            Reachable(providers[..i], cidrs, ep) || (ep in eps[..j] && !Isolated(cidrs, ep.ip))
        {
          var isolation := IsIsolated(cidrs, eps[j].ip);
          if !isolation { endpoints := endpoints + [eps[j]]; }
        }
      } else {
        endpoints := endpoints + eps;
      }
    }
    assert providers[..|providers|] == providers;
  }

  /** What the endpoint providers know: the endpoints of the service, and those of each identity. */
  datatype Discovery = Discovery(ofService: seq<seq<Endpoint>>, ofIdentity: string -> seq<seq<Endpoint>>)

  /** Some identity the client may reach has an endpoint at this address. */
  ghost predicate Authorized(targets: seq<TrafficTarget>, client: string, d: Discovery, cidrs: seq<Cidr>, ip: Ip)
    requires |Split(client)| >= 2
  {
    exists id, ep :: OutboundLists(targets, client, id) && Reachable(d.ofIdentity(id), cidrs, ep) && ep.ip == ip
  }

  /** `ListAllowedUpstreamEndpointsForService`. */
  method ListAllowedUpstreamEndpoints(targets: seq<TrafficTarget>, client: string, d: Discovery, cidrs: seq<Cidr>,
                                      permissive: bool)
    returns (allowed: seq<Endpoint>)
    requires |Split(client)| >= 2
    ensures forall ep :: ep in allowed <==>
      Reachable(d.ofService, cidrs, ep) && (permissive || Authorized(targets, client, d, cidrs, ep.ip))
  {
    var outbound := ListEndpoints(d.ofService, cidrs);
    if permissive { return outbound; }
    if |outbound| == 0 { return []; }
    var byIp := GroupByIp(outbound);
    allowed := [];
    var identities := GetAllowedDirectionalServiceAccounts(targets, client, Outbound);
    for i := 0 to |identities|
      invariant forall ep :: ep in allowed <==> ep in outbound && AmongIdentities(identities[..i], d, cidrs, ep.ip)
    {
      var eps := ListEndpoints(d.ofIdentity(identities[i]), cidrs);
      var more := SelectByIp(eps, byIp);
      AmongGrows(identities[..i], identities[i], d, cidrs);
      assert identities[..i + 1] == identities[..i] + [identities[i]];
      allowed := allowed + more;
    }
    assert identities[..|identities|] == identities;
    forall ip ensures AmongIdentities(identities, d, cidrs, ip) <==> Authorized(targets, client, d, cidrs, ip) {
      assert forall id :: id in identities <==> id in Elements(identities);
    }
  }

  /** One of these identities has an endpoint at this address. */
  ghost predicate AmongIdentities(identities: seq<string>, d: Discovery, cidrs: seq<Cidr>, ip: Ip) {
    exists id, ep :: id in identities && Reachable(d.ofIdentity(id), cidrs, ep) && ep.ip == ip
  }

  lemma AmongGrows(identities: seq<string>, id: string, d: Discovery, cidrs: seq<Cidr>)
    ensures forall ip :: AmongIdentities(identities + [id], d, cidrs, ip) <==>
      AmongIdentities(identities, d, cidrs, ip) || exists ep :: Reachable(d.ofIdentity(id), cidrs, ep) && ep.ip == ip
  {
    assert forall x :: x in identities + [id] <==> x in identities || x == id;
  }

  method GroupByIp(endpoints: seq<Endpoint>) returns (byIp: map<Ip, seq<Endpoint>>)
    ensures forall ep :: ep in endpoints <==> ep.ip in byIp && ep in byIp[ep.ip]
    ensures forall ip, ep :: ip in byIp && ep in byIp[ip] ==> ep.ip == ip
  {
    byIp := map[];
    for i := 0 to |endpoints|
      invariant forall ep :: ep in endpoints[..i] <==> ep.ip in byIp && ep in byIp[ep.ip]
      invariant forall ip, ep :: ip in byIp && ep in byIp[ip] ==> ep.ip == ip
    {
      var ep := endpoints[i];
      byIp := byIp[ep.ip := (if ep.ip in byIp then byIp[ep.ip] else []) + [ep]];
    }
    assert endpoints[..|endpoints|] == endpoints;
  }

  /** All grouped endpoints that share an address with one of `eps`. */
  method SelectByIp(eps: seq<Endpoint>, byIp: map<Ip, seq<Endpoint>>) returns (selected: seq<Endpoint>)
    requires forall ip, ep :: ip in byIp && ep in byIp[ip] ==> ep.ip == ip
    ensures forall ep :: ep in selected <==> ep.ip in byIp && ep in byIp[ep.ip] && exists e :: e in eps && e.ip == ep.ip
  {
    selected := [];
    for i := 0 to |eps|
      invariant forall ep :: ep in selected <==>
        ep.ip in byIp && ep in byIp[ep.ip] && exists e :: e in eps[..i] && e.ip == ep.ip
    {
      assert forall e :: e in eps[..i + 1] <==> e in eps[..i] || e == eps[i];
      if eps[i].ip in byIp {
        selected := selected + byIp[eps[i].ip];
      }
    }
    assert eps[..|eps|] == eps;
  }

  /** The endpoints a client gets, as a predicate on targets, for comparing policies. */
  ghost predicate Allowed(targets: seq<TrafficTarget>, client: string, d: Discovery, cidrs: seq<Cidr>,
                          permissive: bool, ep: Endpoint)
    requires |Split(client)| >= 2
  {
    Reachable(d.ofService, cidrs, ep) && (permissive || Authorized(targets, client, d, cidrs, ep.ip))
  }

  /** A destination that the account `client` is taken for may reach has an endpoint at this address. */
  ghost predicate Served(targets: seq<TrafficTarget>, client: string, d: Discovery, ip: Ip)
    requires |Split(client)| >= 2
  {
    exists y, i, e :: Permits(targets, ToAccount(client), y) && 0 <= i < |d.ofIdentity(ToIdentity(y))| &&
      e in d.ofIdentity(ToIdentity(y))[i] && e.ip == ip
  }

  /** An endpoint is allowed exactly when some provider reports it for the service, it is in no isolation
      network, and, but for permissive mode, its address is that of an endpoint of a destination which
      some target lets the client reach. */
  lemma {:induction false} AllowedExactly(targets: seq<TrafficTarget>, client: string, d: Discovery, cidrs: seq<Cidr>,
                       permissive: bool, ep: Endpoint)
    requires |Split(client)| >= 2
    ensures Allowed(targets, client, d, cidrs, permissive, ep) <==>
      (exists i :: 0 <= i < |d.ofService| && ep in d.ofService[i]) && (forall c :: c in cidrs ==> !c.Has(ep.ip)) &&
      (permissive || Served(targets, client, d, ep.ip))
  {
    if Authorized(targets, client, d, cidrs, ep.ip) {
      var id, e :| OutboundLists(targets, client, id) && Reachable(d.ofIdentity(id), cidrs, e) && e.ip == ep.ip;
      OutboundExactly(targets, client, id);
      var y :| ToIdentity(y) == id && Permits(targets, ToAccount(client), y);
      var i :| 0 <= i < |d.ofIdentity(id)| && e in d.ofIdentity(id)[i];
      assert e in d.ofIdentity(ToIdentity(y))[i];
    }
    if Served(targets, client, d, ep.ip) && !Isolated(cidrs, ep.ip) {
      var y, i, e :| Permits(targets, ToAccount(client), y) && 0 <= i < |d.ofIdentity(ToIdentity(y))| &&
        e in d.ofIdentity(ToIdentity(y))[i] && e.ip == ep.ip;
      OutboundExactly(targets, client, ToIdentity(y));
      assert Reachable(d.ofIdentity(ToIdentity(y)), cidrs, e);
    }
  }

  /** No client is ever given an isolated endpoint, and a policy never gives more than permissive mode. */
  lemma {:induction false} AllowedIsContained(targets: seq<TrafficTarget>, client: string, d: Discovery,
                                              cidrs: seq<Cidr>,
                           permissive: bool, ep: Endpoint)
    requires |Split(client)| >= 2 && Allowed(targets, client, d, cidrs, permissive, ep)
    ensures Allowed(targets, client, d, cidrs, true, ep)
    ensures forall c :: c in cidrs ==> !c.Has(ep.ip)
  {
  }

  /** Adding targets never takes an endpoint away, wherever they are added. */
  lemma {:induction false} AllowedGrowsWithTargets(targets: seq<TrafficTarget>, more: seq<TrafficTarget>,
                                                   client: string, d: Discovery,
                                cidrs: seq<Cidr>, permissive: bool, ep: Endpoint)
    requires |Split(client)| >= 2 && forall t :: t in targets ==> t in more
    requires Allowed(targets, client, d, cidrs, permissive, ep)
    ensures Allowed(more, client, d, cidrs, permissive, ep)
  {
    if !permissive {
      var id, e :| OutboundLists(targets, client, id) && Reachable(d.ofIdentity(id), cidrs, e) && e.ip == ep.ip;
      assert OutboundLists(more, client, id) by {
        var a :| a in AllowedAccounts(targets, ToAccount(client), Outbound) && ToIdentity(a) == id;
        assert a in AllowedAccounts(more, ToAccount(client), Outbound);
      }
    }
  }
}
