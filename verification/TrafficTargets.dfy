/**
 SMI TrafficTargets and who may talk to whom (pkg/catalog/traffictarget.go,
 pkg/smi/client.go, pkg/identity/types.go), and the same question as the
 command line answers it (pkg/cli/policy_check.go, cmd/cli/policy_check_pods.go).
 */
module TrafficTargets {
  import opened Prelude
  import opened Strings

  const SERVICE_ACCOUNT_KIND := "ServiceAccount"
  const HTTP_ROUTE_GROUP_KIND := "HTTPRouteGroup"
  const TCP_ROUTE_KIND := "TCPRoute"

  datatype Subject = Subject(kind: string, name: string, namespace: string)

  datatype Rule = Rule(kind: string, name: string, matches: seq<string>)

  datatype TrafficTarget = TrafficTarget(
    namespace: string,
    name: string,
    destination: Subject,
    sources: seq<Subject>,
    rules: seq<Rule>)

  datatype Account = Account(namespace: string, name: string)

  function AccountOf(s: Subject): Account {
    Account(s.namespace, s.name)
  }

  /** `K8sServiceAccount.ToServiceIdentity`: an account without a name counts as `default`. */
  function ToIdentity(a: Account): (identity: string)
    ensures |Split(identity)| >= 2
  {
    SplitDot(Shown(a), a.namespace);
    Shown(a) + "." + a.namespace
  }

  function Shown(a: Account): string {
    if a.name != "" then a.name else "default"
  }

  /** `ServiceIdentity.ToK8sServiceAccount`: the first two chunks; a shorter identity panics. */
  function ToAccount(identity: string): Account
    requires |Split(identity)| >= 2
  {
    Account(Split(identity)[1], Split(identity)[0])
  }

  /** The account the identity of `a` is taken for. */
  function ReadBack(a: Account): Account {
    ToAccount(ToIdentity(a))
  }

  /** An identity of the documented form `name.namespace`. */
  predicate Proper(identity: string) {
    |Split(identity)| == 2 && Split(identity)[0] != ""
  }

  // ---------------------------------------------------------------------
  // Which targets the mesh takes notice of

  predicate HasValidRules(rules: seq<Rule>) {
    rules != [] && forall i :: 0 <= i < |rules| ==> rules[i].kind in {HTTP_ROUTE_GROUP_KIND, TCP_ROUTE_KIND}
  }

  /** `isValidTrafficTarget`, and the namespace is monitored. */
  predicate Listed(t: TrafficTarget, monitored: set<string>) {
    t.namespace in monitored && t.namespace == t.destination.namespace && HasValidRules(t.rules)
  }

  /** `ListTrafficTargets` without options. */
  method ListTrafficTargets(all: seq<TrafficTarget>, monitored: set<string>) returns (targets: seq<TrafficTarget>)
    ensures forall t :: t in targets <==> t in all && Listed(t, monitored)
    ensures forall t :: t in targets <==>
      (t in all && t.namespace in monitored && t.destination.namespace == t.namespace && t.rules != [] &&
       forall r :: r in t.rules ==> r.kind == "HTTPRouteGroup" || r.kind == "TCPRoute")
  {
    targets := [];
    for i := 0 to |all|
      invariant forall t :: t in targets <==> t in all[..i] && Listed(t, monitored)
    {
      if all[i].namespace !in monitored { continue; }
      if all[i].namespace != all[i].destination.namespace { continue; }
      if !HasValidRules(all[i].rules) { continue; }
      targets := targets + [all[i]];
    }
  }

  // ---------------------------------------------------------------------
  // Both directions

  datatype Direction = Inbound | Outbound

  /** The target names this source and this destination, both as service accounts. */
  predicate Grants(t: TrafficTarget, source: Subject) {
    t.destination.kind == SERVICE_ACCOUNT_KIND && source in t.sources && source.kind == SERVICE_ACCOUNT_KIND
  }

  /** Some target lets `src` reach `dst`. */
  ghost predicate Permits(targets: seq<TrafficTarget>, src: Account, dst: Account) {
    exists t, s :: t in targets && Grants(t, s) && AccountOf(s) == src && AccountOf(t.destination) == dst
  }

  /** The target leads from this source account to this destination account, both written as such. */
  predicate Connects(t: TrafficTarget, s: Subject, src: Account, dst: Account) {
    && s.kind == "ServiceAccount" && s.name == src.name && s.namespace == src.namespace
    && t.destination.kind == "ServiceAccount" && t.destination.name == dst.name &&
      t.destination.namespace == dst.namespace
  }

  lemma PermitsExactly(targets: seq<TrafficTarget>, src: Account, dst: Account)
    ensures Permits(targets, src, dst) <==> exists t, s :: t in targets && s in t.sources && Connects(t, s, src, dst)
  {
    if t, s :| t in targets && s in t.sources && Connects(t, s, src, dst) { assert Grants(t, s); }
    if Permits(targets, src, dst) {
      var t, s :| t in targets && Grants(t, s) && AccountOf(s) == src && AccountOf(t.destination) == dst;
      assert s in t.sources && Connects(t, s, src, dst);
    }
  }

  /** The accounts on the other side of `account`. */
  function AllowedAccounts(targets: seq<TrafficTarget>, account: Account, direction: Direction): set<Account> {
    match direction
    case Inbound =>
      set t, s | t in targets && s in t.sources && Grants(t, s) && AccountOf(t.destination) == account :: AccountOf(s)
    case Outbound =>
      set t, s | t in targets && s in t.sources && Grants(t, s) && AccountOf(s) == account :: AccountOf(t.destination)
  }

  function Identities(accounts: set<Account>): set<string> {
    set a | a in accounts :: ToIdentity(a)
  }

  lemma IdentitiesGrow(accounts: set<Account>, a: Account)
    ensures Identities(accounts + {a}) == Identities(accounts) + {ToIdentity(a)}
  {
  }

  method GetAllowedDirectionalServiceAccounts(targets: seq<TrafficTarget>, identity: string, direction: Direction)
    returns (identities: seq<string>)
    requires |Split(identity)| >= 2
    ensures Elements(identities) == Identities(AllowedAccounts(targets, ToAccount(identity), direction))
  {
    var account := ToAccount(identity);
    var allowed: set<Account> := {};
    for i := 0 to |targets|
      invariant allowed == AllowedAccounts(targets[..i], account, direction)
    {
      var t := targets[i];
      var more := AllowedByTarget(t, account, direction);
      assert targets[..i + 1] == targets[..i] + [t];
      AllowedGrows(targets[..i], t, account, direction);
      allowed := allowed + more;
    }
    assert targets[..|targets|] == targets;
    identities := [];
    var remaining := allowed;
    while remaining != {}
      invariant remaining <= allowed
      invariant Elements(identities) == Identities(allowed - remaining)
    {
      var a :| a in remaining;
      ElementsAppend(identities, ToIdentity(a));
      IdentitiesGrow(allowed - remaining, a);
      assert allowed - (remaining - {a}) == allowed - remaining + {a};
      identities := identities + [ToIdentity(a)];
      remaining := remaining - {a};
    }
  }

  /** The body of the loop over targets. */
  method AllowedByTarget(t: TrafficTarget, account: Account, direction: Direction) returns (allowed: set<Account>)
    ensures allowed == AllowedAccounts([t], account, direction)
  {
    allowed := {};
    if t.destination.kind != SERVICE_ACCOUNT_KIND { return; }
    if direction == Inbound && AccountOf(t.destination) != account { return; }
    for i := 0 to |t.sources|
      invariant direction == Inbound ==>
        allowed == set s | s in t.sources[..i] && s.kind == SERVICE_ACCOUNT_KIND :: AccountOf(s)
      invariant direction == Outbound ==>
        allowed == set s | s in t.sources[..i] && s.kind == SERVICE_ACCOUNT_KIND && AccountOf(s) == account ::
          AccountOf(t.destination)
    {
      var source := t.sources[i];
      if source.kind != SERVICE_ACCOUNT_KIND { continue; }
      if direction == Inbound {
        allowed := allowed + {AccountOf(source)};
      } else if AccountOf(source) == account {
        allowed := allowed + {AccountOf(t.destination)};
      }
    }
    assert t.sources[..|t.sources|] == t.sources;
    assert t in [t];
  }

  lemma AllowedGrows(targets: seq<TrafficTarget>, t: TrafficTarget, account: Account, direction: Direction)
    ensures AllowedAccounts(targets + [t], account, direction) ==
      AllowedAccounts(targets, account, direction) + AllowedAccounts([t], account, direction)
  {
    assert t in [t] && t in targets + [t];
    assert forall u :: u in targets + [t] <==> u in targets || u in [t];
  }

  ghost predicate InboundLists(targets: seq<TrafficTarget>, upstream: string, downstream: string)
    requires |Split(upstream)| >= 2
  {
    downstream in Identities(AllowedAccounts(targets, ToAccount(upstream), Inbound))
  }

  ghost predicate OutboundLists(targets: seq<TrafficTarget>, downstream: string, upstream: string)
    requires |Split(downstream)| >= 2
  {
    upstream in Identities(AllowedAccounts(targets, ToAccount(downstream), Outbound))
  }

  lemma AllowedArePermitted(targets: seq<TrafficTarget>, account: Account)
    ensures forall a :: a in AllowedAccounts(targets, account, Inbound) <==> Permits(targets, a, account)
    ensures forall a :: a in AllowedAccounts(targets, account, Outbound) <==> Permits(targets, account, a)
  {
  }

  /** Exactly when the inbound list of `b` names `a`: some account that goes by `a` is permitted to
      reach the account `b` is taken for. */
  lemma {:induction false} InboundExactly(targets: seq<TrafficTarget>, a: string, b: string)
    requires |Split(b)| >= 2
    ensures InboundLists(targets, b, a) <==> exists x :: ToIdentity(x) == a && Permits(targets, x, ToAccount(b))
  {
    AllowedArePermitted(targets, ToAccount(b));
  }

  /** Exactly when the outbound list of `a` names `b`. */
  lemma {:induction false} OutboundExactly(targets: seq<TrafficTarget>, a: string, b: string)
    requires |Split(a)| >= 2
    ensures OutboundLists(targets, a, b) <==> exists y :: ToIdentity(y) == b && Permits(targets, ToAccount(a), y)
  {
    AllowedArePermitted(targets, ToAccount(a));
  }

  // ---------------------------------------------------------------------
  // The command line

  predicate DoesTargetRefDstPod(t: TrafficTarget, dst: Account) {
    t.destination.kind == SERVICE_ACCOUNT_KIND && AccountOf(t.destination) == dst
  }

  method DoesTargetRefSrcPod(t: TrafficTarget, src: Account) returns (found: bool)
    ensures found <==> exists s :: s in t.sources && s.kind == SERVICE_ACCOUNT_KIND && AccountOf(s) == src
  {
    for i := 0 to |t.sources|
      invariant forall s :: s in t.sources[..i] ==> s.kind != SERVICE_ACCOUNT_KIND || AccountOf(s) != src
    {
      if t.sources[i].kind != SERVICE_ACCOUNT_KIND { continue; }
      if AccountOf(t.sources[i]) == src { return true; }
    }
    return false;
  }

  /** The loop of `check-pods`: may the pod of account `src` reach the pod of account `dst`? */
  method CheckPods(targets: seq<TrafficTarget>, src: Account, dst: Account) returns (allowed: bool)
    ensures allowed <==> Permits(targets, src, dst)
  {
    allowed := false;
    for i := 0 to |targets|
      invariant allowed <==> Permits(targets[..i], src, dst)
    {
      assert forall t :: t in targets[..i + 1] <==> t in targets[..i] || t == targets[i];
      if !DoesTargetRefDstPod(targets[i], dst) { continue; }
      var ref := DoesTargetRefSrcPod(targets[i], src);
      if ref {
        var s :| s in targets[i].sources && s.kind == SERVICE_ACCOUNT_KIND && AccountOf(s) == src;
        assert Grants(targets[i], s);
        allowed := true;
      }
    }
    assert targets[..|targets|] == targets;
  }

  // ---------------------------------------------------------------------
  // Agreement

  /** Catalog and command line give the same answer about `x` and `y`, in both directions. */
  ghost predicate AgreeOn(targets: seq<TrafficTarget>, x: Account, y: Account) {
    && (InboundLists(targets, ToIdentity(y), ToIdentity(x)) <==> Permits(targets, x, y))
    && (OutboundLists(targets, ToIdentity(x), ToIdentity(y)) <==> Permits(targets, x, y))
  }

  /** The account whose name is the first `k` labels and whose namespace is the rest. */
  function Cut(labels: seq<string>, k: nat): Account
    requires k <= |labels|
  {
    Account(Join(labels[k..]), Join(labels[..k]))
  }

  /** All accounts that go by an identity: one for each way to cut it, and the nameless one. */
  function Aliases(identity: string): set<Account> {
    var labels := Split(identity);
    (set k | 1 <= k < |labels| && Join(labels[..k]) != "" :: Cut(labels, k)) +
    (if |labels| >= 2 && labels[0] == "default" then {Account(Join(labels[1..]), "")} else {})
  }

  lemma IdentityIsCut(x: Account, k: nat)
    requires k == |Split(Shown(x))|
    ensures var labels := Split(ToIdentity(x));
      k < |labels| && Join(labels[..k]) == Shown(x) && Join(labels[k..]) == x.namespace
  {
    SplitDot(Shown(x), x.namespace);
    var labels := Split(ToIdentity(x));
    assert labels[..k] == Split(Shown(x)) && labels[k..] == Split(x.namespace);
    JoinSplit(Shown(x));
    JoinSplit(x.namespace);
  }

  lemma {:induction false} CutGoesBy(identity: string, k: nat)
    requires 1 <= k < |Split(identity)|
    ensures var labels := Split(identity); Join(labels[..k]) + "." + Join(labels[k..]) == identity
  {
    var labels := Split(identity);
    JoinCat(labels[..k], labels[k..]);
    assert labels[..k] + labels[k..] == labels;
    JoinSplit(identity);
  }

  lemma AliasesExactly(x: Account, identity: string)
    ensures ToIdentity(x) == identity <==> x in Aliases(identity)
  {
    var labels := Split(identity);
    if ToIdentity(x) == identity {
      var k := |Split(Shown(x))|;
      IdentityIsCut(x, k);
      if x.name == "" {
        SplitDotFree("default");
        assert labels[..1] == [labels[0]];
      } else {
        assert x == Cut(labels, k);
      }
    }
    forall k | 1 <= k < |labels| && Join(labels[..k]) != "" ensures ToIdentity(Cut(labels, k)) == identity {
      CutGoesBy(identity, k);
    }
    if |labels| >= 2 && labels[0] == "default" {
      CutGoesBy(identity, 1);
      assert labels[..1] == [labels[0]];
    }
  }

  /** The grants that make the answers about `x` and `y` agree: what holds of the two holds of some
      account that goes by the one identity and the account the other is taken for. */
  ghost predicate Matched(targets: seq<TrafficTarget>, x: Account, y: Account) {
    && (Permits(targets, x, y) <==> exists z :: z in Aliases(ToIdentity(x)) && Permits(targets, z, ReadBack(y)))
    && (Permits(targets, x, y) <==> exists z :: z in Aliases(ToIdentity(y)) && Permits(targets, ReadBack(x), z))
  }

  /** For any list and any accounts, whatever dots their names and namespaces hold, agreement is a
      matter of matching grants. */
  lemma AgreementExactlyWhenMatched(targets: seq<TrafficTarget>, x: Account, y: Account)
    ensures AgreeOn(targets, x, y) <==> Matched(targets, x, y)
  {
    DirectionsExactly(targets, ToIdentity(x), ToIdentity(y));
  }

  /** Both lists in terms of grants, for any list and any two identities. */
  lemma {:induction false} DirectionsExactly(targets: seq<TrafficTarget>, a: string, b: string)
    requires |Split(a)| >= 2 && |Split(b)| >= 2
    ensures InboundLists(targets, b, a) <==> exists z :: z in Aliases(a) && Permits(targets, z, ToAccount(b))
    ensures OutboundLists(targets, a, b) <==> exists z :: z in Aliases(b) && Permits(targets, ToAccount(a), z)
  {
    InboundExactly(targets, a, b);
    OutboundExactly(targets, a, b);
    forall z ensures ToIdentity(z) == a <==> z in Aliases(a) { AliasesExactly(z, a); }
    forall z ensures ToIdentity(z) == b <==> z in Aliases(b) { AliasesExactly(z, b); }
  }

  // ---------------------------------------------------------------------
  // Agreement on accounts with plain names

  /** A name without dots, so that the identity has the documented form. */
  predicate Plain(a: Account) {
    a.name != "" && DotFree(a.name) && DotFree(a.namespace)
  }

  lemma PlainRoundTrip(a: Account)
    requires Plain(a)
    ensures Proper(ToIdentity(a)) && ReadBack(a) == a
  {
    SplitDot(a.name, a.namespace);
    SplitDotFree(a.name);
    SplitDotFree(a.namespace);
  }

  ghost predicate PlainAccountsAgree(targets: seq<TrafficTarget>) {
    forall x, y :: Plain(x) && Plain(y) ==> AgreeOn(targets, x, y)
  }

  /** Whatever is granted from or to a nameless account is granted to `default` as well. */
  ghost predicate NamelessMeansDefault(targets: seq<TrafficTarget>) {
    && (forall ns: string, y :: DotFree(ns) && Plain(y) && Permits(targets, Account(ns, ""), y) ==>
          Permits(targets, Account(ns, "default"), y))
    && (forall ns: string, x :: DotFree(ns) && Plain(x) && Permits(targets, x, Account(ns, "")) ==>
          Permits(targets, x, Account(ns, "default")))
  }

  /** The nameless account of a plain one called `default`; else the account itself. */
  function Nameless(a: Account): Account {
    if a.name == "default" then a.(name := "") else a
  }

  lemma PlainAliases(x: Account, z: Account)
    requires Plain(x)
    ensures z in Aliases(ToIdentity(x)) <==> z == x || z == Nameless(x)
  {
    var identity := ToIdentity(x);
    AliasesExactly(z, identity);
    AliasesExactly(x, identity);
    AliasesExactly(Nameless(x), identity);
    if ToIdentity(z) == identity {
      SplitDot(x.name, x.namespace);
      SplitDotFree(x.name);
      SplitDotFree(x.namespace);
      SplitDot(Shown(z), z.namespace);
      assert Split(Shown(z)) == [x.name] && Split(z.namespace) == [x.namespace] by {
        assert |Split(Shown(z))| == 1 && |Split(z.namespace)| == 1;
      }
      JoinSplit(Shown(z));
      JoinSplit(z.namespace);
    }
  }

  lemma PlainMatchedExactly(targets: seq<TrafficTarget>, x: Account, y: Account)
    requires Plain(x) && Plain(y)
    ensures Matched(targets, x, y) <==>
      (Permits(targets, Nameless(x), y) || Permits(targets, x, Nameless(y)) ==> Permits(targets, x, y))
  {
    PlainRoundTrip(x);
    PlainRoundTrip(y);
    forall z
      ensures z in Aliases(ToIdentity(x)) <==> z == x || z == Nameless(x)
      ensures z in Aliases(ToIdentity(y)) <==> z == y || z == Nameless(y)
    {
      PlainAliases(x, z);
      PlainAliases(y, z);
    }
  }

  /** On accounts with plain names the two directions and the command line agree exactly when no
      target gives a nameless account something `default` does not have. */
  lemma PlainAgreementExactly(targets: seq<TrafficTarget>)
    ensures PlainAccountsAgree(targets) <==> NamelessMeansDefault(targets)
  {
    forall x, y | Plain(x) && Plain(y)
      ensures AgreeOn(targets, x, y) <==>
        (Permits(targets, Nameless(x), y) || Permits(targets, x, Nameless(y)) ==> Permits(targets, x, y))
    {
      AgreementExactlyWhenMatched(targets, x, y);
      PlainMatchedExactly(targets, x, y);
    }
    if PlainAccountsAgree(targets) {
      forall ns: string, y | DotFree(ns) && Plain(y)
        ensures Permits(targets, Account(ns, ""), y) ==> Permits(targets, Account(ns, "default"), y)
        ensures Permits(targets, y, Account(ns, "")) ==> Permits(targets, y, Account(ns, "default"))
      {
        assert Plain(Account(ns, "default")) && Nameless(Account(ns, "default")) == Account(ns, "");
      }
    }
  }

  /** Inbound mirrors outbound about any two identities exactly when some account that goes by `a` may
      reach what `b` is taken for just where what `a` is taken for may reach some account that goes
      by `b`. */
  lemma {:induction false} DirectionDuality(targets: seq<TrafficTarget>, a: string, b: string)
    requires |Split(a)| >= 2 && |Split(b)| >= 2
    ensures (InboundLists(targets, b, a) <==> OutboundLists(targets, a, b)) <==>
      ((exists z :: z in Aliases(a) && Permits(targets, z, ToAccount(b))) <==>
       (exists z :: z in Aliases(b) && Permits(targets, ToAccount(a), z)))
  {
    DirectionsExactly(targets, a, b);
  }

  /** For lists that grant to plain accounts only, that is so exactly when, of an allowed pair, both or
      neither identities have the documented form. */
  lemma {:induction false} PlainListDuality(targets: seq<TrafficTarget>, a: string, b: string)
    requires |Split(a)| >= 2 && |Split(b)| >= 2
    requires forall x, y :: Permits(targets, x, y) ==> Plain(x) && Plain(y)
    ensures (InboundLists(targets, b, a) <==> OutboundLists(targets, a, b)) <==>
      (Permits(targets, ToAccount(a), ToAccount(b)) ==> (Proper(a) <==> Proper(b)))
    ensures Proper(a) && Proper(b) ==> (InboundLists(targets, b, a) <==> Permits(targets, ToAccount(a), ToAccount(b)))
  {
    InboundExactly(targets, a, b);
    OutboundExactly(targets, a, b);
    forall x | Plain(x) ensures Proper(ToIdentity(x)) && ReadBack(x) == x { PlainRoundTrip(x); }
    if Proper(a) { ProperReads(a); }
    if Proper(b) { ProperReads(b); }
  }

  lemma ProperReads(identity: string)
    requires Proper(identity)
    ensures ToIdentity(ToAccount(identity)) == identity
  {
    JoinSplit(identity);
    var labels := Split(identity);
    assert labels[1..] == [labels[1]];
  }

  // ---------------------------------------------------------------------
  // Dotted names

  /** A dot in a source's name is lost on the way back: the source is listed inbound, but its own
      outbound list is that of another account. */
  lemma DottedSourceIsTakenForAnother(targets: seq<TrafficTarget>, t: TrafficTarget, s: Subject)
    requires t in targets && Grants(t, s) && '.' in s.name && Plain(AccountOf(t.destination))
    ensures var x, y := AccountOf(s), AccountOf(t.destination);
      && ReadBack(x) != x
      && InboundLists(targets, ToIdentity(y), ToIdentity(x))
      && (OutboundLists(targets, ToIdentity(x), ToIdentity(y)) <==>
            exists z :: ToIdentity(z) == ToIdentity(y) && Permits(targets, ReadBack(x), z))
  {
    var x, y := AccountOf(s), AccountOf(t.destination);
    PlainRoundTrip(y);
    SplitDot(x.name, x.namespace);
    SplitLabelsDotFree(ToIdentity(x));
    InboundExactly(targets, ToIdentity(x), ToIdentity(y));
    OutboundExactly(targets, ToIdentity(x), ToIdentity(y));
    assert Permits(targets, x, y);
  }

  /** The namespaces of accounts hold no dots, as in Kubernetes. */
  predicate Namespaced(a: Account) {
    DotFree(a.namespace)
  }

  /** An account that some identity is taken for. */
  predicate Readable(a: Account) {
    DotFree(a.name) && DotFree(a.namespace)
  }

  /** Another account that is taken for `z`: there is one in every namespace. */
  function Impostor(z: Account, namespace: string): Account {
    Account(namespace, z.name + "." + z.namespace)
  }

  lemma ImpostorReadsBack(z: Account, namespace: string)
    requires Readable(z) && DotFree(namespace)
    ensures ReadBack(Impostor(z, namespace)) == z
  {
    SplitDot(z.name + "." + z.namespace, namespace);
    SplitDot(z.name, z.namespace);
    SplitDotFree(z.name);
    SplitDotFree(z.namespace);
  }

  lemma ReadBackIsReadable(x: Account)
    ensures Readable(ReadBack(x))
  {
    SplitLabelsDotFree(ToIdentity(x));
  }

  /** Every identity is that of an account in a namespace without dots. */
  lemma NamespacedAlias(x: Account) returns (y: Account)
    ensures Namespaced(y) && ToIdentity(y) == ToIdentity(x)
  {
    var labels := Split(ToIdentity(x));
    var n := |labels| - 1;
    SplitLabelsDotFree(ToIdentity(x));
    CutGoesBy(ToIdentity(x), n);
    assert labels[n..] == [labels[n]];
    SplitDot(Shown(x), x.namespace);
    NameIsNotEmpty(x, n);
    y := Cut(labels, n);
  }

  lemma NameIsNotEmpty(x: Account, n: nat)
    requires n == |Split(ToIdentity(x))| - 1
    ensures Join(Split(ToIdentity(x))[..n]) != ""
  {
    var labels := Split(ToIdentity(x));
    CutGoesBy(ToIdentity(x), n);
    var name, ns := Join(labels[..n]), Join(labels[n..]);
    assert labels[n..] == [labels[n]];
    SplitLabelsDotFree(ToIdentity(x));
    if name == "" {
      assert ToIdentity(x)[0] == '.' && ToIdentity(x)[1..] == ns;
      StartsWithDot(x);
    }
  }

  /** The identity of an account starts with a dot only if its name does, and then there are more. */
  lemma StartsWithDot(x: Account)
    requires ToIdentity(x)[0] == '.'
    ensures '.' in ToIdentity(x)[1..]
  {
    var id := ToIdentity(x);
    assert id == Shown(x) + "." + x.namespace;
    assert id[|Shown(x)|] == '.' && id[1..][|Shown(x)| - 1] == id[|Shown(x)|];
  }

  /** A namespace longer than any that a source or destination of the targets is in. */
  function FreshNamespace(targets: seq<TrafficTarget>): (ns: string)
    ensures DotFree(ns)
  {
    if targets == [] then "x"
    else LongerThanAll(targets[0].sources + [targets[0].destination], FreshNamespace(targets[1..]))
  }

  function LongerThanAll(subjects: seq<Subject>, ns: string): (r: string)
    requires DotFree(ns)
    ensures DotFree(r) && |r| >= |ns|
    ensures forall s :: s in subjects ==> |s.namespace| < |r|
  {
    if subjects == [] then ns
    else
      var r := LongerThanAll(subjects[1..], ns);
      if |subjects[0].namespace| < |r| then r else seq(|subjects[0].namespace| + 1, _ => 'x')
  }

  lemma {:induction false} FreshIsFresh(targets: seq<TrafficTarget>, t: TrafficTarget, s: Subject)
    requires t in targets && s in t.sources + [t.destination]
    ensures |s.namespace| < |FreshNamespace(targets)|
  {
    if t != targets[0] { FreshIsFresh(targets[1..], t, s); }
  }

  lemma {:induction false} FreshIsNotPermitted(targets: seq<TrafficTarget>, x: Account, y: Account)
    requires x.namespace == FreshNamespace(targets) || y.namespace == FreshNamespace(targets)
    ensures !Permits(targets, x, y)
  {
    if Permits(targets, x, y) {
      var t, s :| t in targets && Grants(t, s) && AccountOf(s) == x && AccountOf(t.destination) == y;
      FreshIsFresh(targets, t, s);
      FreshIsFresh(targets, t, t.destination);
    }
  }

  ghost predicate AllAccountsAgree(targets: seq<TrafficTarget>) {
    forall x, y :: Namespaced(x) && Namespaced(y) ==> AgreeOn(targets, x, y)
  }

  /** One of the two lists, or the command line, takes notice of a grant from `x` to `y`. */
  predicate Noticed(x: Account, y: Account) {
    Readable(x) || Readable(y) || (Namespaced(x) && Namespaced(y))
  }

  /** A grant from or to an account that identities are taken for is taken to hold for impostors. */
  lemma ReadableGrantDisagrees(targets: seq<TrafficTarget>, x: Account, y: Account)
    requires Permits(targets, x, y) && (Readable(x) || Readable(y))
    ensures !AllAccountsAgree(targets)
  {
    var ns := FreshNamespace(targets);
    if Readable(x) {
      var z := Impostor(x, ns);
      var y' := NamespacedAlias(y);
      ImpostorReadsBack(x, ns);
      OutboundExactly(targets, ToIdentity(z), ToIdentity(y'));
      FreshIsNotPermitted(targets, z, y');
      assert !AgreeOn(targets, z, y');
    } else {
      var z := Impostor(y, ns);
      var x' := NamespacedAlias(x);
      ImpostorReadsBack(y, ns);
      InboundExactly(targets, ToIdentity(x'), ToIdentity(z));
      FreshIsNotPermitted(targets, x', z);
      assert !AgreeOn(targets, x', z);
    }
  }

  /** With dotted names allowed, agreement on all accounts is out of reach: it holds exactly for the
      lists whose grants nothing takes notice of. */
  lemma AllAccountsAgreeExactlyWithoutGrants(targets: seq<TrafficTarget>)
    ensures AllAccountsAgree(targets) <==> forall x, y :: Permits(targets, x, y) ==> !Noticed(x, y)
  {
    if x, y :| Permits(targets, x, y) && Noticed(x, y) {
      if Readable(x) || Readable(y) {
        ReadableGrantDisagrees(targets, x, y);
      } else if AgreeOn(targets, x, y) {
        OutboundExactly(targets, ToIdentity(x), ToIdentity(y));
        var z :| ToIdentity(z) == ToIdentity(y) && Permits(targets, ReadBack(x), z);
        ReadBackIsReadable(x);
        ReadableGrantDisagrees(targets, ReadBack(x), z);
      }
    } else {
      forall x, y | Namespaced(x) && Namespaced(y) ensures AgreeOn(targets, x, y) {
        InboundExactly(targets, ToIdentity(x), ToIdentity(y));
        OutboundExactly(targets, ToIdentity(x), ToIdentity(y));
        ReadBackIsReadable(x);
        ReadBackIsReadable(y);
      }
    }
  }

  /** The command line reads all targets of the destination's namespace, the catalog only the ones
      it lists: they differ exactly by targets the catalog ignores. */
  lemma CheckPodsSeesUnlistedTargets(all: seq<TrafficTarget>, monitored: set<string>, src: Account, dst: Account,
                                     inNamespace: seq<TrafficTarget>, listed: seq<TrafficTarget>)
    requires forall t :: t in inNamespace <==> t in all && t.namespace == dst.namespace
    requires forall t :: t in listed <==> t in all && Listed(t, monitored)
    ensures Permits(inNamespace, src, dst) <==>
      Permits(listed, src, dst) ||
      exists t, s :: t in inNamespace && !Listed(t, monitored) && Grants(t, s) && AccountOf(s) == src &&
        AccountOf(t.destination) == dst
  {
    if Permits(listed, src, dst) {
      var t, s :| t in listed && Grants(t, s) && AccountOf(s) == src && AccountOf(t.destination) == dst;
      assert t in inNamespace;
    }
  }
}
