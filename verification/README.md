# A verified model of the mesh control plane

This project models the parts of the `fsm` service-mesh control plane whose correctness is not
visible from any single function, and proves what they promise. `dafny verify dfyconfig.toml`
checks everything.

| files | part |
|---|---|
| `CertOptions`, `Certificates`, `CertManager`, `CertRotation` | the certificate manager as an object: options and SAN filter, issuing, root-certificate events, the rotation pass |
| `CertProtocol`, `CertFlights`, `CertFreshness`, `CertConvergence`, `CertSecondPass`, `CertIdentity` | the same manager as a concurrent protocol: flights, passes, events, releases and the clock interleave |
| `WorkQueue`, `Reconciler`, `CacheController` | the connector's level-triggered reconciliation loop |
| `Strings`, `DnsNames`, `Resolver`, `DnsServer` | the local DNS proxy: name normalisation, the race between nameservers, start and stop |
| `TrafficTargets`, `InboundRules`, `InboundPolicy`, `InboundRequests`, `WeightSplit`, `SplitRoutes`, `WildcardRoute`, `Endpoints` | the catalog's compilation of SMI policies |
| `MergeMaps`, `MetaDecode` | merging of Helm values, the memoised metadata decoder |
| `Prelude` | options, results, small sequence facts |

Concurrent parts are transition systems: `Step(s, a)` is the state after action `a`, or nothing
when `a` is not possible, and a theorem speaks about every run `IsRun(tr, acts)`. Sequential code
that works by updating things is a method or a class, proved against the functions of the
transition system or against a function of the old state.

Time is a number of nanoseconds that any step may advance, the noise of a rotation check is any
value from 0 to 4 seconds, and what an issuer, nameserver, provider or downstream store answers is
a parameter of the step.

## Where the code does less than its description

Each of these is a theorem with the exact condition, and an input or a run that shows the failure.

- **Freshness.** `GetCertificate` and `IssueCertificate` share one singleflight group. A rotation
  pass that joins a read's flight skips its check, so a pass can complete and leave a certificate
  that is nearly expired (`CertFreshness.FreshnessFailsAfterJoinedRead`). In every run in which
  issuing succeeds, certificates stay fresh exactly when no pass ends having skipped, by joining a
  read, something that was due (`CertFreshness.FreshExactlyWhenSkipsHarmless`).
- **Convergence.** A pass that joins an issue call which has read the issuers before they changed
  completes and leaves the old issuers' certificate behind
  (`CertConvergence.ConvergenceFailsAfterStaleJoin`). With steady issuers, what a pass found is
  superseded at its end exactly when it joined such a flight, or a read of a superseded entry, and
  nobody has stored a new certificate since (`CertConvergence.PassConvergesExactly`).
- **Identity.** A pass puts back a certificate released after its snapshot, and by that a prefixed one
  loses its SANs (`CertIdentity.ReleaseLosesNames`) and one with a full common name that name
  (`CertIdentity.ReleaseLosesFullName`). With key and signing used the same way, identity is the same
  at two times of a run exactly when no certificate was made afresh in between, or the last one so
  made was made with options that yield the same SANs (`CertIdentity.IdentityExactly`). The options
  of a pass do so, under a prefixed key, exactly when the SANs are what the issuer puts in by itself;
  under a full common name, exactly when the issuer puts that in by itself or it is not one of
  several SANs (`CertIdentity.RecreatedNamesExactly`).
- **SANs of a first issue.** An issuer that puts the common name first (the built-in one) keeps a
  certificate's names through every rotation exactly when the common name holds no colon or some
  requested name holds none; otherwise the filter, which is skipped for a list of one, drops the
  name on the first rotation (`CertRotation.FirstIssueFixesNames`). A rotation under another trust
  domain never keeps the names: the old common name stays on as a SAN
  (`CertRotation.NamesKeptExactlyWithinTrustDomain`).
- **Direction duality.** An identity is read back by its first two labels only
  (`TrafficTargets.DottedSourceIsTakenForAnother`). So for any list and any accounts, whatever dots
  their names and namespaces hold, the inbound list, the outbound list and `check-pods` agree about
  two accounts exactly when their grants match those of the accounts that go by, and are taken for,
  the same identities (`TrafficTargets.AgreementExactlyWhenMatched`). They agree about all accounts
  with a dot-free namespace only for lists whose grants none of the three takes notice of
  (`TrafficTargets.AllAccountsAgreeExactlyWithoutGrants`), and about accounts with dot-free,
  non-empty names exactly when every grant to a nameless account is matched by one to `default`
  (`TrafficTargets.PlainAgreementExactly`). `check-pods` looks at targets the catalog does not list.
- **Kinds and routes.** Compiled inbound rules ignore the kinds of sources and destinations, and the
  identity lists ignore whether a target has an HTTP route. Principals with routes and listed
  identities are the same exactly when both are matched by other targets
  (`InboundRules.PrincipalsAgreeExactly`, `InboundRules.SourceKindIsNotChecked`).
- **Search-list expansion.** Under the search domain `ns.svc.TD` a name is undone exactly when it does
  not itself end like an expanded one (`DnsNames.NamespaceSearchUndoneExactly`); under `svc.TD` and
  `TD` exactly when it is a single label, since otherwise its last label is taken for the namespace
  (`DnsNames.ServiceSearchUndoneExactly`, `DnsNames.DomainSearchUndoneExactly`). The expansions that
  start with `svc` are all undone exactly when the trust domain has no label `svc`
  (`DnsNames.UndoExactlyWithoutServiceLabel`).
- **Two-label names.** `svc.ns.` stands for the service of that namespace whoever asks, unless the
  namespace is called like the last label of the trust domain; then it is taken for an expanded name
  and means the namespace `default` (`DnsNames.FullTwoLabelName`). Under the search domain `ns.svc.TD`
  and under `TD` a namespace called `svc` is lost (`DnsNames.NamespaceSearchKeepsNamespace`,
  `DnsNames.DomainSearchKeepsNamespace`).
- **Weights of a route.** The routes of a split with matches keep their clusters in a set. They carry
  the weight of the split exactly when no two backends of one service end up with the same share for
  a cluster (`SplitRoutes.RouteTotalExactly`), and do so in every order of the ports exactly when no
  two can, by quotient and remainder of their weights (`SplitRoutes.EveryOrderKeepsExactly`,
  `SplitRoutes.SameQuotientLoses`); where weights divide evenly, exactly when no service is listed
  twice with the same weight (`SplitRoutes.EvenRouteTotalExactly`, `SplitRoutes.SameBackendTwice`).
- **Weights without matches.** A split without matches has only the wildcard route, which keeps the
  first entry per cluster name. It carries the weight of the split exactly when no service with an
  active cluster is listed again with positive weight (`WildcardRoute.WildcardTotalExactly`); with
  weights 30 and 70 for one service it carries 30 (`WildcardRoute.ThirtyOfHundred`).
- **Traffic matches.** Two ports of a service with one target port share a traffic match
  (`InboundPolicy.PortsShareAMatch`): matches are distinct exactly when no two upstream services agree
  on all that goes into one (`InboundPolicy.MatchesDistinctExactly`).
- **Merging** is associative exactly where no leaf cuts off a map that the third value does not
  cover (`MergeMaps.RegroupsExactly`).
- **Memoised decoding** is invisible exactly when requests that share a key decode alike
  (`MetaDecode.InvisibleExactlyWhenConsistent`).

## Model

| member | source | states |
|---|---|---|
| `CertOptions.UniqueSubjectAlternativeNames` | pkg/certificate/options.go:39-67 | the loop computes `Unique`: filtered and deduplicated beyond one name, untouched otherwise |
| `CertOptions.FilteredIsExact` | pkg/certificate/options.go:44-66 | the filter keeps exactly the colon-free names not excluded, each once, in order of first occurrence |
| `CertOptions.UniqueIdempotent` | pkg/certificate/options.go:39-67 | filtering a filtered list changes nothing |
| `CertOptions.FormattedNameDiffersFromPrefix` | pkg/certificate/options.go:18-23 | a formatted common name never equals its prefix, so the pass tells the two kinds of keys apart |
| `CertOptions.FullNameCounts` | pkg/certificate/options.go:71-75 | the full common name is used if and only if some option says so |
| `CertOptions.LastOptionCounts` | pkg/certificate/options.go:78-89 | of several durations, and of several lists of names, the last counts; without any there is none |
| `Certificates.NameAndLifetime` | pkg/certificate/manager.go:233-244 | a new certificate has the name and type asked for and lasts the caller's duration, else the period of its type: service, ingress, or ten years for all others |
| `Certificates.TrustContext` | pkg/certificate/manager.go:304-325 | a new certificate trusts its issuing CA, followed by the validating CA exactly when the two IDs differ, and carries the IDs of the pair it was made from |
| `Certificates.CertificateObject.NewMergedWithRoot` | pkg/certificate/certificate.go:23-31 | the merged certificate is a new object over a new buffer holding issuing CA then root; the original is unchanged |
| `CertManager.Manager.HandleMRCEvent` | pkg/certificate/manager.go:118-158 | an added event with a client replaces the signing issuer in state active, inactive, issuing rollback and issuing rollout, the validating one in state active, inactive, validating rollback and validating rollout, and nothing otherwise; it fails exactly when an event not in the error state has no client |
| `CertManager.Manager.IssueCertificate` | pkg/certificate/manager.go:285-341 | result, cache and announcements are those of `IssueOutcome`, which the protocol's flight refines |
| `CertManager.IssueResult` | pkg/certificate/manager.go:285-341 | the cached certificate is returned while it has more than 30s and the noise left and bears both issuer IDs; else a new one is cached, announced if it replaces one, and returned; an error if and only if a new one is needed and signing fails |
| `CertManager.Manager.CheckAndRotate` | pkg/certificate/manager.go:207-231 | in any order of visiting, the pass applies the check once to each key, and announces per key exactly what was replaced |
| `CertRotation.FirstIssueFixesNames` | pkg/certificate/manager.go:296-311 | when the SANs of a first issue are stable under re-issue: if and only if |
| `CertRotation.PassesKeepIdentity` | pkg/certificate/manager.go:218-231 | any number of passes keeps common name, SAN list and type |
| `CertRotation.IssuedIdentityIsPermanent` | pkg/certificate/manager.go:285-341 | from the first issue on, any number of passes keeps the identity; with a full common name even across trust-domain changes |
| `CertRotation.EchoedNamesSurviveTrustDomainChange` | pkg/certificate/fake_manager.go:77-90 | with an echoing issuer, SANs and type survive every pass whatever the trust domain |
| `CertRotation.NamesKeptExactlyWithinTrustDomain` | pkg/certificate/providers/tresor/certificate_manager.go:65-84 | a rotation by the built-in issuer keeps the SAN list of a prefixed certificate if and only if the trust domain is the same; the new common name comes first and the old one stays |
| `CertRotation.PassBringsCurrentIssuers` | pkg/certificate/manager.go:207-231 | one successful pass keeps the key set and leaves no certificate with superseded issuer IDs |
| `CertRotation.SecondPassReplacesOnlyTheNoisyWindow` | pkg/certificate/manager.go:169-205 | after a pass, some noise makes a check rotate a certificate exactly when it has at most 34s left, it has more than 30s left, and it is then one the pass kept |
| `CertRotation.PassIdempotent` | pkg/certificate/manager.go:207-231 | the same pass again changes nothing |
| `CertProtocol.IssuersStay` | pkg/certificate/manager.go:118-158 | in every run, once both issuers are set they stay set |
| `CertProtocol.LastEventSigns` | pkg/certificate/manager.go:118-158 | in every run the signing issuer is the one of the last added event in state active, inactive, issuing rollback or issuing rollout, and stays without one |
| `CertProtocol.LastEventValidates` | pkg/certificate/manager.go:118-158 | in every run the validating issuer is the one of the last added event in state active, inactive, validating rollback or validating rollout, and stays without one |
| `CertProtocol.EveryCertificateWasSigned` | pkg/certificate/manager.go:233-341 | in every run each cached certificate was signed for a flight that a caller or a pass opened, with the name and type asked for, and lasts from then the caller's duration or the period of its type |
| `CertProtocol.NoTornPair` | pkg/certificate/manager.go:304-325 | in every interleaving, the ID pair and trust context on each cached certificate come from a pair the manager held at one instant |
| `CertProtocol.NothingAnnouncedBeforeFirstIssue` | pkg/certificate/manager.go:329-336 | without releases, a key not in the cache has no announcements |
| `CertProtocol.AnnouncementsFormChain` | pkg/certificate/manager.go:272-341 | without releases, a key's announcements link the first certificate to the one announced last, without gaps; first issue publishes nothing |
| `CertFlights.UninterruptedFlightIsIssue` | pkg/certificate/manager.go:285-341 | a flight nothing interrupts does what the sequential issue call does |
| `CertFreshness.FlightsAreFresh` | pkg/certificate/manager.go:285-341 | in every run in which issuing succeeds, what a flight has checked or made lasts past the opening of the flight |
| `CertFreshness.PassIsFresh` | pkg/certificate/manager.go:207-231 | what a pass in progress has ticked off without skipping lasts past its beginning, less the longest flight |
| `CertFreshness.FreshExactlyWhenSkipsHarmless` | pkg/certificate/manager.go:169-187 | over every such run, all certificates stay fresh if and only if no pass ends having skipped, by joining a read, one that was due |
| `CertFreshness.TimedFreshness` | pkg/certificate/manager.go:39-53 | if the last completed pass began at most d ago and no flight takes longer than l, every cached certificate has more than 30s - d - l left |
| `CertFreshness.NoReadJoinedNoSkips` | pkg/certificate/manager.go:207-231 | that is so in particular when no pass joins a read |
| `CertFreshness.JoinedReadSkipsTheCheck` | pkg/certificate/manager.go:260-283 | a pass that joins a read's flight completes and changes nothing, whatever the certificate |
| `CertFreshness.FreshnessFailsAfterJoinedRead` | pkg/certificate/manager.go:260-283 | a run in which issuing succeeds and flights take no time, that ends with a just-completed pass and a certificate with 20s left |
| `CertConvergence.PassConvergesExactly` | pkg/certificate/manager.go:207-231 | in every run, at the end of a pass with steady issuers a certificate it found is superseded if and only if the pass joined a stale flight or a read of a superseded entry for it, and none was stored since |
| `CertConvergence.PassConverges` | pkg/certificate/manager.go:189-204 | a pass that joins nothing in vain leaves every certificate it found under the current issuers |
| `CertConvergence.PassKeepsKeys` | pkg/certificate/manager.go:207-231 | what is not released is still cached at the end of a pass |
| `CertConvergence.ConvergenceFailsAfterStaleJoin` | pkg/certificate/manager.go:276-283 | a run with a steady pass that joins a stale flight and ends with a superseded certificate |
| `CertSecondPass.LaterStoresAreNoisy` | pkg/certificate/manager.go:169-231 | in every run, with clock and issuers as they were when a pass began, whatever is stored over a certificate after the pass replaces one with at most 34s left and more than 30s less the longest flight, unless the pass joined for its key a read or a stale flight |
| `CertIdentity.IdentityExactly` | pkg/certificate/manager.go:285-347 | in every run, with releases at any time: common name and type are those of the key, and the identity is the same at two times if and only if no certificate was made afresh in between or the options of the last one yield the same SANs |
| `CertIdentity.IdentityIsKept` | pkg/certificate/manager.go:285-341 | in every run without a release of the key, with key and signing used the same way, it stays cached and common name, SAN list and type stay as first issued; a full common name needs no steady trust domain |
| `CertIdentity.RecreatedNamesExactly` | pkg/certificate/manager.go:207-231 | when a pass re-creates a released certificate, its SANs survive if and only if, under a prefixed key, they are what the issuer puts in by itself, and, under a full common name, the issuer puts that in by itself or it is not one of several |
| `CertIdentity.ReleaseLosesNames` | pkg/certificate/manager.go:343-347 | a run, steady in use, in which a release during a pass costs the certificate its SANs |
| `CertIdentity.ReleaseLosesFullName` | pkg/certificate/manager.go:343-347 | a run, steady in use, in which a release during a pass costs a certificate the full common name among its SANs |
| `WorkQueue.QueueStaysSound` | pkg/connector/cache.go:162-210 | every queue operation keeps: in line exactly when wanted and not in process, never twice |
| `WorkQueue.RateLimitingQueue.Done` | pkg/connector/cache.go:168 | an item added while in process is queued again when its processing ends |
| `Reconciler.AlwaysConverging` | pkg/connector/cache.go:66-84 | after every step, each key agrees with the store, or an event for it is pending, queued, in process or awaiting retry, or its last attempt was given up |
| `Reconciler.AtMostFiveRequeues` | pkg/connector/cache.go:198-207 | between two resets of its count an event is requeued at most five times |
| `Reconciler.GivenUpExactly` | pkg/connector/cache.go:198-207 | in every run a key counts as given up if and only if an event for it failed six times in a row, that is after five retries, and nothing was applied for the key since |
| `Reconciler.FailureIsRetried` | pkg/connector/cache.go:198-202 | every other failed attempt is followed by a retry |
| `Reconciler.FirstComeFirstServed` | pkg/connector/cache.go:162-168 | after t events have been taken, those queued behind them are first in line in the same order |
| `Reconciler.QuietStepDecreases` | pkg/connector/cache.go:162-210 | without new changes every step lowers a measure |
| `Reconciler.SomeStepPossible` | pkg/connector/cache.go:162-210 | as long as work is left some step is possible |
| `Reconciler.QuietRunDrains` | pkg/connector/cache.go:162-210 | a run without new changes has bounded length and, when it can go no further, the queue is empty and every key not given up agrees with the store |
| `CacheController.CacheController.OnAddOrUpdate` | pkg/connector/cache.go:66-84 | the handlers perform the delivery step |
| `CacheController.CacheController.OnDelete` | pkg/connector/cache.go:215-230 | the delete handler performs the delivery step with the object of the tombstone |
| `CacheController.CacheController.Attempt` | pkg/connector/cache.go:176-207 | lookup, apply and forget, retry or drop, as one attempt of the transition system |
| `CacheController.CacheController.ProcessSingle` | pkg/connector/cache.go:162-210 | one call performs exactly one round of the transition system; false only when the queue has shut down |
| `CacheController.RoundAttempts` | pkg/connector/cache.go:162-210 | a round is: take, attempt, finish |
| `Resolver.LookupOutcome` | pkg/dns/resolver.go:32-91 | success only with a reply of a queried nameserver that is no server failure; failure if and only if every nameserver was asked and none gave one |
| `Resolver.FirstReplyWins` | pkg/dns/resolver.go:61-88 | a lookup that succeeds returns the reply that was sent first |
| `Resolver.SendNeverBlocks` | pkg/dns/resolver.go:43-65 | a goroutine about to send can always finish, even after the caller returned |
| `Resolver.CallerNeverStuck` | pkg/dns/resolver.go:70-91 | until the caller has returned some step is possible |
| `Resolver.EveryScheduleEnds` | pkg/dns/resolver.go:43-91 | every schedule has at most 5n + 1 steps for n nameservers |
| `DnsServer.Server.Start` | pkg/dns/server.go:113-122 | starting twice keeps the handler; starting a stopped server makes a new one |
| `DnsServer.Server.Stop` | pkg/dns/server.go:124-132 | stopping a running server closes its handler; stopping twice does nothing |
| `DnsServer.NeverPanics` | pkg/dns/server.go:73-79 | in every interleaving nothing is sent on a closed channel and none is closed twice |
| `DnsServer.AdmittedIsServed` | pkg/dns/handler.go:261-276 | an admitted request stays with its handler and waits or is served |
| `DnsServer.AdmittedBeforeClose` | pkg/dns/handler.go:119-125 | when a handler's channel is closed, every request it admitted has been received |
| `DnsServer.RefusedExactlyAfterStop` | pkg/dns/handler.go:261-276 | in every run a request that is gone was turned away if and only if a stop of its handler came before its check, and was received otherwise |
| `DnsServer.RunsExactlySinceStart` | pkg/dns/server.go:113-132 | the server runs if and only if it was started and no stop has ended since; its handler is the latest, active and open unless a stop is under way |
| `DnsServer.StopIsCarriedOut` | pkg/dns/server.go:124-132 | a stop of a running server has hold of its handler until it ends |
| `DnsServer.StopEndsStopped` | pkg/dns/server.go:73-79 | when a stop ends the server does not run and its handler is inactive and closed |
| `DnsServer.NoDeadlock` | pkg/dns/server.go:73-79 | while a request or a stop is under way, some step is possible without a new request |
| `DnsServer.EverythingFinishes` | pkg/dns/server.go:73-79 | without new requests or calls only boundedly many steps are left, and when none is possible the lock is free and every request is gone |
| `DnsNames.GetSuffixDomains` | pkg/dns/handler.go:76-83 | the suffixes, most specific first |
| `DnsNames.GetTrustDomainSearches` | pkg/dns/handler.go:85-93 | the search suffixes of a namespace, in the order they are tried |
| `DnsNames.GetRawQName` | pkg/dns/handler.go:95-117 | the loops compute `RawQName`, about which the lemmas below speak |
| `DnsNames.RewriteQuestions` | pkg/dns/handler.go:140-158 | the questions are rewritten in place, each by `Rewrite`, and the originals are returned |
| `DnsNames.NamespaceSearchUndoneExactly` | pkg/dns/handler.go:95-117 | `x.ns.svc.TD.` parses to x and ns if and only if x does not itself end in `svc` and leading labels of the trust domain |
| `DnsNames.ServiceSearchUndoneExactly` | pkg/dns/handler.go:95-117 | `x.svc.TD.` parses to x if and only if x is a single label |
| `DnsNames.DomainSearchUndoneExactly` | pkg/dns/handler.go:76-117 | `x.TD.` parses to x if and only if x is a single label |
| `DnsNames.MarkedExactly` | pkg/dns/handler.go:76-117 | a name is taken for an expanded one if and only if it ends, after another label, in the last label of the trust domain |
| `DnsNames.LongestTailStripped` | pkg/dns/handler.go:76-117 | a name that ends in a tail of the trust domain loses the longest such tail |
| `DnsNames.NormalisationUndoesExpansion` | pkg/dns/handler.go:85-117 | x followed by `svc`, k labels of a trust domain without `svc`, and ns parses back to x and ns, for every name x and every k |
| `DnsNames.UndoExactlyWithoutServiceLabel` | pkg/dns/handler.go:85-117 | all of these expansions are undone if and only if the trust domain has no label `svc` |
| `DnsNames.InClusterNameParses` | pkg/dns/handler.go:95-117 | an in-cluster name parses to its service and namespace |
| `DnsNames.InClusterRewriteIsFixedPoint` | pkg/dns/handler.go:140-158 | the rewriting of an in-cluster name is in-cluster and rewrites to itself |
| `DnsNames.ExpansionsShareOneUpstreamName` | pkg/dns/handler.go:140-158 | all expansions of a service name are sent upstream under one name |
| `DnsNames.UnchangedExactly` | pkg/dns/handler.go:140-158 | a question goes upstream as asked if and only if it names a service of the cluster, or ends in a dot and in no trust-domain suffix and has three or more labels or two of which the second is no namespace |
| `DnsNames.FullTwoLabelName` | pkg/dns/handler.go:140-158 | `svc.ns.` with an existing namespace becomes `svc.ns.svc.TD.`, or `svc.default.svc.TD.` if ns is the last label of the trust domain |
| `DnsNames.NamespaceSearchKeepsNamespace` | pkg/dns/handler.go:140-158 | `svc.ns.from.svc.TD.` becomes `svc.ns.svc.TD.` whatever namespace asks, unless ns is `svc`, which leaves that of the client |
| `DnsNames.DomainSearchKeepsNamespace` | pkg/dns/handler.go:140-158 | `svc.ns.svc.TD.` stays, and `svc.ns.TD.` becomes that unless ns is `svc` |
| `DnsNames.ExpansionsKeepNamespace` | pkg/dns/handler.go:140-158 | so do all longer expansions of `svc.ns` under a trust domain without `svc` |
| `DnsNames.ExpansionOfOutsideName` | pkg/dns/handler.go:140-158 | a name of three or more labels, or of two of which the second is no namespace, is sent upstream without its expansion |
| `WeightSplit.ActiveUpstreamClusters` | pkg/catalog/outbound_traffic_policies.go:402-416 | of weight w over n clusters, cluster i gets w / n, and one more from index n - w % n on; negative weights likewise |
| `WeightSplit.SharesSumToWeight` | pkg/catalog/outbound_traffic_policies.go:402-416 | the shares add up to the weight, whatever its sign |
| `WeightSplit.SharesAreFair` | pkg/catalog/outbound_traffic_policies.go:402-416 | two shares differ by at most one and have the sign of the weight |
| `WeightSplit.FailOverUpstreamClusters` | pkg/catalog/outbound_traffic_policies.go:418-429 | the fail-over clusters are appended in order, without weight |
| `WeightSplit.ClassifyClusters` | pkg/catalog/outbound_traffic_policies.go:287-331 | in any order of the port map, the local cluster first and the active remote ones, once each, and apart from them the fail-over ones, as names of this service on exactly these ports |
| `WeightSplit.MergeSplitUpstreamClusters` | pkg/catalog/outbound_traffic_policies.go:287-339 | what is appended spreads the weight over exactly the active clusters, the local one first, and adds the fail-over ones |
| `WeightSplit.SpreadConservesWeight` | pkg/catalog/outbound_traffic_policies.go:287-339 | whatever the order, a backend contributes its weight if it has an active cluster and nothing otherwise |
| `WeightSplit.SplitUpstreamClusters` | pkg/catalog/outbound_traffic_policies.go:129-131 | the clusters of a split fall into one piece per backend, in order, each spreading that backend's weight over its own clusters |
| `WeightSplit.SplitConservesWeight` | pkg/catalog/outbound_traffic_policies.go:129-131 | the total over a split is the sum over the backends with an active cluster |
| `SplitRoutes.RouteKeepsWeightUnlessRepeated` | pkg/trafficpolicy/trafficpolicy.go:76-94 | a set of clusters has the total of the list if and only if no weighted entry repeats, and never more |
| `SplitRoutes.RouteTotalExactly` | pkg/trafficpolicy/trafficpolicy.go:76-94 | a route of a split with matches carries its weight if and only if no two backends of one service have the same nonzero share for a cluster, and never more |
| `SplitRoutes.DistinctServicesKeepWeight` | pkg/trafficpolicy/trafficpolicy.go:76-94 | a split that names each service once loses nothing |
| `SplitRoutes.EveryOrderKeepsExactly` | pkg/catalog/outbound_traffic_policies.go:287-339 | for all non-negative weights: such routes carry the weight in every order of the ports if and only if no two backends of one service can give a cluster the same nonzero share, by the quotients and remainders of their weights |
| `SplitRoutes.SameQuotientLoses` | pkg/catalog/outbound_traffic_policies.go:309-312 | a service known here that is listed twice with the same nonzero quotient loses weight in every order |
| `SplitRoutes.EvenRouteTotalExactly` | pkg/catalog/outbound_traffic_policies.go:287-339 | with weights that divide evenly, in any order of the ports: if and only if no active service is listed twice with the same nonzero weight |
| `SplitRoutes.SameBackendTwice` | pkg/trafficpolicy/trafficpolicy.go:76-94 | a backend listed twice with weight 50 asks for 100, and the route carries less |
| `WildcardRoute.GetWildCardRouteUpstreamClusters` | pkg/catalog/outbound_traffic_policies.go:233-267 | the first entry per cluster name of the splits without matches; if there are none, of all, each with weight 100 |
| `WildcardRoute.FirstPerNameExact` | pkg/catalog/outbound_traffic_policies.go:241-250 | the names are distinct and exactly those of the list, and each entry is the first of its name |
| `WildcardRoute.RouteClustersExactly` | pkg/catalog/outbound_traffic_policies.go:233-267 | the route names exactly the clusters of the splits without matches, each with its first weight; without such a split those of all, each with weight 100 |
| `WildcardRoute.WildcardTotalExactly` | pkg/catalog/outbound_traffic_policies.go:183-190 | for all non-negative weights and any order of the ports, the wildcard route carries the weight of a split without matches if and only if no service with an active cluster is listed again with positive weight, and never more |
| `WildcardRoute.ThirtyOfHundred` | pkg/catalog/outbound_traffic_policies.go:233-251 | a service known here only, listed with 30 and 70: the wildcard route carries 30, a set would carry 100 |
| `TrafficTargets.ListTrafficTargets` | pkg/smi/client.go:204-255 | exactly the targets of monitored namespaces with a destination in their own namespace and rules, all of kind `HTTPRouteGroup` or `TCPRoute` |
| `TrafficTargets.GetAllowedDirectionalServiceAccounts` | pkg/catalog/traffictarget.go:72-131 | exactly the identities on the other side of the targets that name this one |
| `TrafficTargets.PermitsExactly` | pkg/catalog/traffictarget.go:72-131 | one account may reach another if and only if some target names both, each with the kind `ServiceAccount` |
| `TrafficTargets.InboundExactly` | pkg/catalog/traffictarget.go:72-131 | for any identities: the inbound list of b holds a if and only if some account that goes by a may reach the account b is taken for |
| `TrafficTargets.OutboundExactly` | pkg/catalog/traffictarget.go:72-131 | for any identities: the outbound list of a holds b if and only if the account a is taken for may reach some account that goes by b |
| `TrafficTargets.DoesTargetRefSrcPod` | pkg/cli/policy_check.go:26-37 | some service-account source is the pod's account |
| `TrafficTargets.CheckPods` | cmd/cli/policy_check_pods.go:142-156 | the verdict of `check-pods` is whether some target permits the pair |
| `TrafficTargets.AliasesExactly` | pkg/identity/types.go:19-25 | the accounts that go by an identity are exactly the ways to cut its labels in two and, after `default`, the nameless one |
| `TrafficTargets.AgreementExactlyWhenMatched` | pkg/catalog/traffictarget.go:72-131 | for any list and any accounts, both lists and `check-pods` agree if and only if a grant between the two goes with grants between what the one is taken for and some account that goes by the identity of the other |
| `TrafficTargets.PlainAgreementExactly` | pkg/catalog/traffictarget.go:72-131 | they agree on all accounts with dot-free, non-empty names if and only if nameless grants are matched by grants to `default` |
| `TrafficTargets.AllAccountsAgreeExactlyWithoutGrants` | pkg/identity/types.go:57-67 | they agree on all accounts with a dot-free namespace, dotted names included, if and only if no grant is one that a list or the command takes notice of |
| `TrafficTargets.DirectionDuality` | pkg/catalog/traffictarget.go:72-131 | for any list and any identities, a is in inbound(b) as b is in outbound(a) if and only if some account that goes by a may reach what b is taken for just where what a is taken for may reach some account that goes by b |
| `TrafficTargets.PlainListDuality` | pkg/catalog/traffictarget.go:72-131 | for lists that grant between plain accounts that is so if and only if, where the pair is allowed, both or neither identities are of the form name.namespace |
| `TrafficTargets.DottedSourceIsTakenForAnother` | pkg/identity/types.go:57-67 | a source with a dot in its name is listed inbound, while its own outbound list is that of another account |
| `TrafficTargets.CheckPodsSeesUnlistedTargets` | cmd/cli/policy_check_pods.go:142-156 | `check-pods` says yes exactly when the catalog would, or a target the catalog does not list permits it |
| `InboundRules.GetHTTPPathsPerRoute` | pkg/catalog/inbound_traffic_policies.go:232-265 | the table by spec and match name; later entries win |
| `InboundRules.TableResolves` | pkg/catalog/inbound_traffic_policies.go:232-270 | looking a name up in the table finds what searching the groups of that namespace finds |
| `InboundRules.RoutesFromRules` | pkg/catalog/inbound_traffic_policies.go:204-227 | exactly the matches that some rule and match name of the target resolve to |
| `InboundRules.GetRoutingRulesFromTrafficTarget` | pkg/catalog/inbound_traffic_policies.go:172-199 | a target's rules allow exactly its sources on exactly its routes |
| `InboundRules.MergeRules` | pkg/trafficpolicy/trafficpolicy.go:143-164 | merging unites the grants and keeps one rule per route |
| `InboundRules.BuildInboundHTTPPolicy` | pkg/catalog/inbound_traffic_policies.go:147-170 | the compiled rules allow p on r exactly when some target lists p and refers to r; one rule per route |
| `InboundRules.CompilationIgnoresOrder` | pkg/catalog/inbound_traffic_policies.go:147-170 | any order and repetition of the targets gives the same grants and the same rules |
| `InboundRules.PrincipalsAgreeExactly` | pkg/catalog/inbound_traffic_policies.go:172-199 | for any identity of two or more labels, who may use some route of the account it is taken for and whom its inbound list names is the same if and only if sources of other kinds are matched by grants and grants without routes by routes |
| `InboundRules.SourceKindIsNotChecked` | pkg/catalog/inbound_traffic_policies.go:184-196 | a single source that is no service account gets its route although the inbound list is empty |
| `InboundRules.FirstLimitCounts` | pkg/trafficpolicy/trafficpolicy.go:41-49 | the limit of a path is that of its first entry |
| `InboundRequests.CompiledMatchTakes` | pkg/catalog/inbound_traffic_policies.go:246-260 | a match, compiled, takes exactly the requests whose path, method and headers satisfy it as written |
| `InboundRequests.RequestsExactly` | pkg/catalog/inbound_traffic_policies.go:147-265 | the compiled rules let a principal make a request if and only if some target names it as a source and names a match, last of its name in the last group of that name, that the request satisfies |
| `InboundRequests.ServiceRequestsExactly` | pkg/catalog/inbound_traffic_policies.go:119-170 | in permissive mode everybody may make every request of a service; else exactly whom a valid target in a monitored namespace for the account names, what it names |
| `InboundRequests.GrantedLeadsHome` | pkg/trafficpolicy/trafficpolicy.go:25-52 | what is granted leads to the service's own cluster alone, with weight 100 |
| `InboundPolicy.GetUpstreamServicesIncludeApex` | pkg/catalog/inbound_traffic_policies.go:276-309 | without duplicates, exactly the upstream services and the apexes of the splits over them |
| `InboundPolicy.ExpandedIsApex` | pkg/catalog/inbound_traffic_policies.go:276-309 | whatever else is in the expanded list is the apex of a split in a monitored namespace over an upstream service, on that service's namespace, ports and protocol |
| `InboundPolicy.ListTargetsFor` | pkg/smi/client.go:258-274 | exactly the listed targets for the destination; a nameless destination filters nothing |
| `InboundPolicy.GetInboundRules` | pkg/catalog/inbound_traffic_policies.go:119-145 | one wildcard rule in permissive mode; otherwise exactly what the listed targets for the account grant |
| `InboundPolicy.GetInboundMeshTrafficPolicy` | pkg/catalog/inbound_traffic_policies.go:30-117 | one cluster per expanded service in order, a match for each given service in order, and under each port one named route configuration per non-TCP service in order, with the right rules for that service |
| `InboundPolicy.PolicyServes` | pkg/catalog/inbound_traffic_policies.go:44-117 | each expanded service has its cluster, if given its traffic match under its own names, and unless it speaks TCP a route configuration with the right rules on its target port |
| `InboundPolicy.PolicyIsOneToOne` | pkg/catalog/inbound_traffic_policies.go:44-117 | the services with matches are exactly the distinct upstream services, those with routes on a port exactly the non-TCP expanded services on it |
| `Strings.DecimalReadsBack` | pkg/service/types.go:142-144 | a port is written in names so that it reads back, without leading zeros |
| `InboundPolicy.SameMatchExactly` | pkg/service/types.go:142-144 | two services get the same traffic match if and only if they agree on namespace, name, target port, protocol and attached namespace |
| `InboundPolicy.MatchesDistinctExactly` | pkg/catalog/inbound_traffic_policies.go:83-92 | the traffic matches of a policy are distinct if and only if no two upstream services agree on those |
| `InboundPolicy.PortsShareAMatch` | pkg/catalog/inbound_traffic_policies.go:83-92 | the port of a service does not go into its traffic match |
| `Endpoints.HasExactly` | pkg/utils/cidr/cidr.go:60-62 | an address is in a network if and only if it is of the same family and its leading bits, as many as the prefix says, are those of the network |
| `Endpoints.PrefixesNest` | pkg/utils/cidr/cidr.go:60-62 | /0 holds the whole family, a full-length prefix one address, and a longer prefix of a network never more than a shorter one |
| `Endpoints.IsIsolated` | pkg/utils/cidr/cidr.go:60-62 | the address lies in one of the networks |
| `Endpoints.ListEndpoints` | pkg/catalog/endpoint.go:10-37 | exactly what some provider reports outside every isolation network |
| `Endpoints.ListAllowedUpstreamEndpoints` | pkg/catalog/endpoint.go:70-107 | exactly the service's endpoints whose address belongs to an identity the client may reach; all of them in permissive mode |
| `Endpoints.AllowedExactly` | pkg/catalog/endpoint.go:70-137 | an endpoint is allowed if and only if it is reported for the service, in no isolation network, and shares its address with a destination some target lets the client reach, or mode is permissive |
| `Endpoints.AllowedIsContained` | pkg/catalog/endpoint.go:70-107 | what is allowed is also allowed in permissive mode and lies in no isolation network |
| `Endpoints.AllowedGrowsWithTargets` | pkg/catalog/endpoint.go:70-137 | more targets never take an endpoint away |
| `MergeMaps.MergeMaps` | pkg/helm/utils.go:20-37 | in any order of the maps, the recursive merge computes `Over` |
| `MergeMaps.MergedPath` | pkg/helm/utils.go:20-37 | at every path the merge shows what the second map decides, else what the first shows |
| `MergeMaps.PathsDetermineValue` | pkg/helm/utils.go:20-37 | values that show the same at every path are equal, so that law pins the merge down |
| `MergeMaps.EmptyIsIdentity` | pkg/helm/utils.go:20-37 | the empty map is an identity on both sides |
| `MergeMaps.MergeAgain` | pkg/helm/utils.go:20-37 | merging the same map again changes nothing |
| `MergeMaps.RegroupsExactly` | pkg/helm/utils.go:27-33 | associativity holds for a triple if and only if no leaf of the second cuts off a map of the first that the third does not cover |
| `MergeMaps.SameShapeRegroups` | pkg/helm/utils.go:20-37 | it holds as soon as one neighbouring pair never mixes leaves and maps |
| `MergeMaps.LeafBetweenMaps` | pkg/helm/utils.go:27-33 | three maps for which the groupings differ |
| `MergeMaps.ResolveValuesFromFiles` | cmd/cli/install.go:240-260 | all files merged in order, or the error of the first bad one |
| `MergeMaps.InstallValues` | cmd/cli/install.go:130-141 | at every path the last of the files and `--set` that decides it has its way |
| `MetaDecode.CacheHoldsDecodes` | pkg/connector/metadata.go:119-133 | in every run, everything cached is the successful decode of a request made under that key |
| `MetaDecode.InvisibleExactlyWhenConsistent` | pkg/connector/metadata.go:119-133 | every run, with any evictions and overlaps, returns plain decodes if and only if requests that share a key decode alike |
| `MetaDecode.KeyIsInjective` | pkg/connector/metadata.go:121 | with dot-free namespace and name the key determines both and the hash |
| `MetaDecode.HashedServicesAreFaithful` | pkg/connector/metadata.go:119-133 | dot-free services whose hash determines their text are served as if there were no cache |
| `MetaDecode.DottedNamesShareAKey` | pkg/connector/metadata.go:121 | two services with dots under one key, and a run that gives one the metadata of the other |
| `MetaDecode.Decoder.Decode` | pkg/connector/metadata.go:119-133 | a call returns the answer of the protocol's lookup and makes its lookup and store steps |

## Left out

- CertFreshness.TimedFreshness: speaks of runs in which issuing succeeds and caller-given validities exceed 30s, as the promise does; what happens to freshness when an issuer fails is not stated.
- CertRotation.PassesKeepIdentity: passes run one after the other without interruption; every interleaving is covered by `CertIdentity.IdentityExactly`.
- CertRotation.IssuedIdentityIsPermanent: passes run one after the other without interruption; every interleaving is covered by `CertIdentity.IdentityExactly`.
- CertIdentity.IdentityExactly: supposes that issue calls ask for SANs that re-issuing keeps, and passes too; only a common name with a colon can break that, and `CertRotation.FirstIssueFixesNames` says when it does.
- CertRotation.PassBringsCurrentIssuers: a pass that runs alone; every interleaving is covered by `CertConvergence.PassConvergesExactly`.
- CertRotation.SecondPassReplacesOnlyTheNoisyWindow: passes that run alone; every interleaving is covered by `CertSecondPass.LaterStoresAreNoisy`.
- CertRotation.PassIdempotent: passes that run alone, the second with the noise of the first; every interleaving and any noise is covered by `CertSecondPass.LaterStoresAreNoisy`.
- CertSecondPass.LaterStoresAreNoisy: speaks of keys that were cached when the pass began.
- CertManager.Manager.CheckAndRotate: one caller at a time; what other calls do in between is in `CertProtocol`, where the value an issue call returns when it joins another flight is not modelled.
- Certificates: PEM, X.509, keys and serial numbers beyond a number per certificate; the update event for root certificates, which does nothing in the source; validity given by a caller is not carried over by a rotation, as in the source.
- WorkQueue: the length of retry delays; several workers (the controller runs one).
- Resolver: a nameserver exchange that returns neither a reply nor an error; the interval ticker is a step that may happen at any time.
- DnsNames.RewriteQuestions: name rewriting only; wildcard answers, IP-query classification, write-back of the original question and the TCP retry of truncated replies are not modelled.
- DnsServer: listening, port binding and what the handler loop does with a request once received.
- WeightSplit: parsing of `namespace/service` backend names and discovery of ports, which are inputs; egress, the assembly of outbound routes, and the refusal of a second route for the same match.
- InboundRules.BuildInboundHTTPPolicy: requires namespaces without a slash, as Kubernetes guarantees; host names, TCP routes, and mirrored or retried routes are not modelled.
- InboundRequests.RequestsExactly: what a pattern matches is a parameter, of which only is known that `.*` matches everything; header values are such patterns.
- DnsNames.FullTwoLabelName: requires a namespace that is not the empty string, and so do the lemmas about its expansions.
- Endpoints.HasExactly: requires addresses of 32 or 128 bits and a prefix of no more, as parsing gives; an IPv4 address written as IPv6 counts as IPv4.
- InboundPolicy.GetInboundMeshTrafficPolicy: names and addresses of clusters, rate limits, and the parsing of a split's host name into apex and subdomain are not modelled.
- InboundPolicy.SameMatchExactly: requires namespaces of services without a slash, as Kubernetes guarantees.
- InboundPolicy.MatchesDistinctExactly: requires namespaces of services without a slash, as Kubernetes guarantees.
- SplitRoutes.EveryOrderKeepsExactly: backends of one service are discovered alike and weights are not negative; several splits of one apex are their backends in a row.
- WildcardRoute.WildcardTotalExactly: backends of one service are discovered alike and weights are not negative; several splits of one apex are their backends in a row.
- TrafficTargets.PlainListDuality: lists that grant between plain accounts; any list is covered by `TrafficTargets.DirectionDuality`.
- TrafficTargets.GetAllowedDirectionalServiceAccounts: requires an identity of at least two labels, on which the source's conversion to an account depends; the order of the result, which comes out of a set, is left open.
- Endpoints: textual addresses and networks; isolation networks are read once per call.
- MergeMaps: YAML and `--set` parsing; sharing of sub-maps between the result and its inputs.
- MetaDecode: base64, JSON and the hash function; the size and age limits of the cache, which may forget any entry at any time; sharing of the returned object.
- Gateway API processing, load balancers, service-discovery connectors, injection, webhooks, the CLI and health checks, which would add breadth but no harder property.
