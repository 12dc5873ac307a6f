# A verified model of the Tailscale gateway operator

This project models the stateful and the textual parts of the Tailscale gateway
operator in Dafny and proves what they promise, over every input, every run or
every interleaving. `dafny verify dfyconfig.toml` checks all of it. Every lemma
has Dafny's automatic induction turned off, so that what is written is the
whole proof.

## The parts

**The client cache** (`ClientCache`, `CacheInvariant`, `CacheRuns`,
`CacheTheorems`, `CacheBuilds`, `CacheManager`). `ClientCache` is a step system: any number of
goroutines with program counters, the readers-writer lock, a clock, and the
tailnets and secrets on the API server, which anyone may edit at any time. A
goroutine makes one step between two points at which somebody else may run, so
every API read, lock move, clock reading and map write is a step of its own;
only a stamp of `lastUsed` reads the clock and writes in one. `CacheInvariant`
holds what each program counter may rely on, `CacheRuns` what has been seen in
a run, and `CacheTheorems` the promises: how old and how current a client is
when it is handed out, that builds are never redundant however many goroutines
race, and that idle eviction is exact. `CacheBuilds` says whose credentials a
client has, when a build succeeds and why a call fails. `CacheManager` is the class with its map
of entry pointers; its methods' effects are those of the corresponding steps.

**The service reconciler** (`VIPClient`, `ServiceReconciler`,
`ServiceProtocol`, `ServiceAssumptions`, `ServiceConvergence`,
`ServiceResults`). The reconciler
is a class whose methods change the object, the VIP services behind the client
and the proxy's objects step by step; one reconcile is proved equal to the
function `Step`. `ServiceProtocol` puts reconciles into runs with users who
create, edit and delete objects and with other owners of VIP services, and
proves the finalizer protocol under its assumptions. `ServiceAssumptions` drops
the assumptions: of every action, whatever its calls do, it says exactly when
it breaks the protocol's invariant, by conditions on the state before it.
`ServiceConvergence` proves that reconciles without failures settle after at
most two, and what a settled state says. `ServiceResults` tells everything that
one reconcile writes from the specification of the service alone: the VIP
service, the proxy's objects down to their ports, the conditions, the backends
and the finalizer.

**The proxy builder** (`Ports`, `ConfigPrinter`, `Json`, `ConfigRoundTrip`,
`ProxyBuilder`, `ProxyTheorems`, `ProxyObjects`). Six create-or-update writes that may stop
anywhere, and a reverse deletion that goes on after failures, over a store
keyed by kind, namespace and name. Proved over any sequence of them: retries
converge, no reference is left dangling, proxies do not interfere.
`ProxyObjects` says what a complete creation leaves under each key and how the
objects fit together. `Json` is a
reader for sections 2 to 5 and 7 of RFC 8259, against which the hand-written
printer is proved to round-trip on exactly the configurations whose strings
need no escape.

**The extension server** (`Validation`, `Regex`, `Decoders`, `Endpoints`,
`Extension`). The nested route loops are proved to compute one comprehension,
the registry index to mean what the listed gateways mean, and the hand-written
parsers to agree with the validator and with the controller's own decoder. The
validator's predicates are proved to be its regular expressions.

**The generator** (`Placeholder`). The replacer between two markers, with the
exact condition under which regeneration forgets what was there before.

**Conditions and errors** (`Conditions`, `ErrorLog`, `TailnetController`). A
condition list as a map over runs of calls, the bounded error log as a window
on its history, and, driven through them, every status that the tailnet
controller can ever store.

`Text`, `Options`, `Api` and `Selections` (the indices that a loop with a
condition keeps) are shared by the rest.

## What turned out otherwise

Some plausible promises are not kept by the code. Each has a lemma that says
exactly when:

- A settled reconcile does not leave the text of the proxy's secret alone: Go
  iterates the configuration map in any order, and two texts are equal exactly
  if the orders are (`SecretTextIsOrder`). Convergence is therefore stated up
  to that order.
- The finalizer protocol needs every one of its assumptions: a failed status
  write, a delete that fails or that no client makes, a missing client (which is
  what cmd/main.go:148 configures), a finalizer taken off by a user, and a
  renamed VIP service each leak, under the conditions of
  `PerformKeepsInvExactly` and `RenamingLeaksExactly`. Of objects that share a
  VIP service those that stay record what is gone
  (`SharedNameLosesVIPExactly`), and a VIP service that somebody else made is
  taken away with the object (`ForeignVIPTakenExactly`).
- Ready can stand beside a false VIPServiceReady (`StaleReadyExactly`).
- A deletion in which one delete fails can leave a stateful set without its
  account or secret (`DeletionKeepsIntactExactly`).
- Regeneration is not always idempotent (`ReplacementAbsorbsExactly`).
- The printed configuration is not JSON for every string
  (`RoundTripsExactly`).
- Cluster names are not unique: two references share one if they are to the same
  service, or if namespace and name read alike around a hyphen
  (`ClusterNamesCollideExactly`, `InjectedNamesDifferExactly`).
- The ':'-joined fingerprint text tells tailnets apart only without colons in
  the secret's name and namespace and in the version
  (`FingerprintTextCollidesExactly`). The cache is not misled by that as long as
  versions have no colon and are never given out twice, because equal texts
  have equal resource versions (`SameTextSameVersion`,
  `HandedOutIsCurrentByVersion`). A rotated secret is not noticed
  (`RotationUnnoticed`).
- The comment at internal/extension/server.go:411 promises IPv6 addresses; a
  bare one loses its last group (`BareHostSurvives`).
- The validator accepts ports that the decoders read differently
  (`DecodersAgreeExactly`, `SignedPortsDiffer`) and names and ports that the
  client refuses (`AcceptedByBothExactly`).
- The summary and a lookup differ on lists that name a type more than once
  (`SummaryDiffersExactly`).
- The tailnet controller records failed authentications, recent errors and
  metrics in memory only; `StoredIsGood` shows that none is ever stored.

## Model

| member | source | states |
|---|---|---|
| CacheTheorems.FingerprintTextInjective | internal/tailscale/manager.go:131-137 | two tailnets with the same ':'-joined text are equal when only the tailnet field may contain ':' |
| CacheTheorems.FingerprintTextCollidesExactly | internal/tailscale/manager.go:131-137 | a tailnet shares its text with another whose only colons are in the tailnet field exactly if it has a colon in its secret name, secret namespace or version |
| CacheTheorems.SameTextSameVersion | internal/tailscale/manager.go:131-137 | whatever the other fields hold, equal texts have equal resource versions, if those have no colon |
| CacheTheorems.CacheKeyInjective | internal/tailscale/manager.go:54 | namespace/name identifies the tailnet for slash-free namespaces |
| CacheInvariant.LockFollowsPc | internal/tailscale/manager.go:56-80 | a goroutine's step moves it between the program points that hold the lock exactly as the lock itself moves |
| CacheInvariant.NextKeepsInv | internal/tailscale/manager.go:53-256 | every step of any goroutine, the clock or the API server keeps lock ownership, the shape of the map and what each program point relies on |
| CacheRuns.InvAlways | internal/tailscale/manager.go:53-256 | the invariant holds in every state of every interleaving |
| CacheRuns.PcSeenAlways | internal/tailscale/manager.go:53-128 | the times, tailnets and credentials a goroutine carries were really on the clock and the API server earlier in the run |
| CacheRuns.EntrySeenAlways | internal/tailscale/manager.go:85-107 | every cached client was built from a tailnet that was stored at some moment of the run, and from a secret that was; which secret is HandedOutHasCredentials |
| CacheTheorems.HandedOutIsYoung | internal/tailscale/manager.go:53-128 | in every interleaving a client handed out was recorded as created at most one hour before the check that released it, and has the fingerprint of the tailnet which that check read |
| CacheBuilds.HandedOutHasCredentials | internal/tailscale/manager.go:143-190 | a client handed out has the two credentials, neither empty, that the secret named by its tailnet (in the tailnet's own namespace unless it names one) held at some moment of the run, and talks to that tailnet or to "-" |
| CacheBuilds.BuildGoesOnExactly | internal/tailscale/manager.go:85-97 | a build goes on exactly if its two reads find the tailnet and a secret with both credentials, and else fails |
| CacheBuilds.BuildReachesInstall | internal/tailscale/manager.go:85-107 | a build whose two reads succeed is about to install exactly the client of that tailnet and those credentials, whatever others do in between |
| CacheBuilds.FailureHasCause | internal/tailscale/manager.go:53-97 | in every interleaving a call fails only because its own read of the tailnet or the secret did, or found no credentials |
| CacheTheorems.HandedOutIsCurrent | internal/tailscale/manager.go:53-140 | with a collision-free digest it belongs to the tailnet asked for and, if the check's read succeeded, was built from one with the same secret name, secret namespace, tailnet and resource version |
| CacheTheorems.HandedOutIsCurrentByVersion | internal/tailscale/manager.go:53-140 | the same whatever colons the names have, if the API server never gives one version to two states of a tailnet |
| CacheTheorems.RotationUnnoticed | internal/tailscale/manager.go:112-140 | no change of secrets changes whether a cached client is refreshed |
| CacheTheorems.DroppedNeverServed | internal/tailscale/manager.go:216-223 | once an entry has left the map, no call that had not already found it is ever given it |
| CacheTheorems.EvictedBetween | internal/tailscale/manager.go:56-109 | an entry that is gone without a new installation under its key was taken out by some step in between |
| CacheTheorems.NoRedundantBuilds | internal/tailscale/manager.go:56-109 | two successive cached builds for one key are separated by a removal of the first entry, by its age passing one hour, or by a changed fingerprint, however many goroutines race |
| CacheTheorems.StampedOnlyInMap | internal/tailscale/manager.go:56-81 | lastUsed of an entry is only ever written while the map holds the entry, and with the current time |
| CacheTheorems.EvictedWasIdle | internal/tailscale/manager.go:203-213 | a cleanup pass removes an entry only if it was created, and every lookup that returned it was made, more than 30 minutes ago |
| CacheTheorems.SweepIsExact | internal/tailscale/manager.go:203-213 | a finished pass leaves, of the map at the step where it began, exactly the entries used within the 30 minutes before, and no entry has changed since, whatever else runs |
| CacheManager.MultiTailnetManager.TryServe | internal/tailscale/manager.go:57-64 | serves and stamps exactly when the key is cached, at most an hour old and unchanged in fingerprint as far as it could be read, and changes no other entry |
| CacheManager.MultiTailnetManager.CreateAndCacheClient | internal/tailscale/manager.go:73-110 | the whole cache and the client returned, for each way the double check and the build can go |
| CacheManager.MultiTailnetManager.GetClient | internal/tailscale/manager.go:53-70 | the whole cache after a call, and that a client returned is the one now cached under its key |
| CacheManager.MultiTailnetManager.PerformCleanup | internal/tailscale/manager.go:203-213 | keeps exactly the entries used within the last thirty minutes, by value and by pointer |
| CacheManager.MultiTailnetManager.RemoveClient | internal/tailscale/manager.go:216-223 | removes the one key |
| CacheManager.MultiTailnetManager.Cleanup | internal/tailscale/manager.go:244-256 | empties the cache |
| CacheManager.MultiTailnetManager.ListClients | internal/tailscale/manager.go:232-241 | the keys of the cache |
| CacheManager.StepChangesView | internal/tailscale/manager.go:53-223 | each write of the step system has the effect of the manager's method, and no other step changes what the cache maps to |
| CacheManager.SweepLeavesWithoutIdle | internal/tailscale/manager.go:203-213 | the many steps of a sweep together have the effect of PerformCleanup |
| CacheManager.ServesAsSteps | internal/tailscale/manager.go:112-128 | the manager serves an entry exactly if the lookup and the two checks of the step system end in its stamp |
| CacheManager.NewEntryAsSteps | internal/tailscale/manager.go:85-107 | the entry that the manager makes is the one that the building steps make of the same tailnet and the secret it names |
| VIPClient.NameAcceptedExactly | internal/tailscale/client.go:85-118 | a name is accepted exactly if, without svc:, it is a label of at most 63 characters that is not reserved |
| VIPClient.PortAcceptedExactly | internal/tailscale/client.go:561-586 | of the ports that the validator accepts, the client refuses exactly those without a number |
| VIPClient.AcceptedByBothExactly | internal/tailscale/client.go:533-559 | exactly which resources the validator accepts the client accepts too |
| VIPClient.LabelAcceptedExactly | internal/tailscale/client.go:85-118 | with or without svc: in front, a name is accepted exactly if it is a label of at most 63 characters and none of the six reserved ones |
| VIPClient.PortSpecAcceptedExactly | internal/tailscale/client.go:561-586 | over all text, a port is accepted exactly if it is tcp or udp in any case, a colon and something not blank, or the word that skips the check |
| VIPClient.ClientAcceptsExactly | internal/tailscale/client.go:533-559 | a VIP service is accepted exactly if its name and every port are, and no tag is blank |
| ServiceReconciler.TailscaleService.UpdateCondition | internal/controller/tailscaleservice_controller.go:391-410 | the first condition of the type is replaced whole, or one is appended |
| ServiceReconciler.TailscaleService.UpdateBackendStatus | internal/controller/tailscaleservice_controller.go:289-339 | one status per backend in order with its defaults, and the counts, also those of the VIP service |
| ServiceReconciler.TailscaleServiceReconciler.ReconcileVIPService | internal/controller/tailscaleservice_controller.go:130-190 | the VIP services and the VIP status for every way the client's calls can end; what these are is VIPPartWrites |
| ServiceReconciler.TailscaleServiceReconciler.ReconcileProxy | internal/controller/tailscaleservice_controller.go:193-244 | the proxy's objects and status, or the error and an unchanged status |
| ServiceReconciler.TailscaleServiceReconciler.HandleDeletion | internal/controller/tailscaleservice_controller.go:342-366 | the VIP service goes if it was created and the delete succeeds; the finalizer comes off either way |
| ServiceReconciler.TailscaleServiceReconciler.Reconcile | internal/controller/tailscaleservice_controller.go:58-127 | one reconcile changes objects, VIP services and proxy objects as Step says, for every outcome of its calls |
| ServiceProtocol.VIPPartRecords | internal/controller/tailscaleservice_controller.go:130-190 | with a client, the VIP part fails without a trace or leaves the VIP service recorded as created under its own valid name, with the addresses of the VIP service it created |
| ServiceProtocol.PerformKeepsInv | internal/controller/tailscaleservice_controller.go:58-127 | every allowed step of users, other owners and the reconciler keeps the invariant of the finalizer protocol |
| ServiceProtocol.EmptyClusterHasInv | internal/controller/tailscaleservice_controller.go:74-99 | a cluster without objects has the invariant exactly if no VIP service is the controller's |
| ServiceProtocol.InvAlways | internal/controller/tailscaleservice_controller.go:74-99 | in every reachable state a VIP service created by the controller has a live object that carries the finalizer and records it as created under that name |
| ServiceProtocol.GoneMeansGone | internal/controller/tailscaleservice_controller.go:342-366 | once no object of that VIP service name is left, the controller's VIP service is gone |
| ServiceProtocol.DeletionKeepsInv | internal/controller/tailscaleservice_controller.go:342-366 | the reconcile of a deleted object takes its recorded VIP service away and keeps the invariant, shared names included |
| ServiceAssumptions.FailedStatusWriteLeaksExactly | internal/controller/tailscaleservice_controller.go:412-421 | a failed status write breaks the invariant exactly if it created a VIP service that no object records |
| ServiceAssumptions.FailedDeleteLeaksExactly | internal/controller/tailscaleservice_controller.go:347-363 | a deletion whose delete fails, or that has no client to make it, breaks it exactly if the finalizer comes off and the object alone records a VIP service that the controller made |
| ServiceAssumptions.RenamingLeaksExactly | internal/controller/tailscaleservice_controller.go:133-174 | after an edit of the VIP service name the old VIP service stays, and it stays recorded exactly if one of the new name is neither found nor can be created |
| ServiceAssumptions.MissingClientLeaksExactly | internal/controller/tailscaleservice_controller.go:140-148 | a reconcile without a client breaks the invariant exactly if its status is written and the object alone records a VIP service that the controller made |
| ServiceAssumptions.StepKeepsInvExactly | internal/controller/tailscaleservice_controller.go:58-127 | exactly which reconciles break the invariant, over every outcome of their calls |
| ServiceAssumptions.EditKeepsInvExactly | internal/controller/tailscaleservice_controller.go:78-86 | an edit breaks it exactly if it takes the finalizer from the only recorder of a VIP service that the controller made, or renames a service that is recorded |
| ServiceAssumptions.PerformKeepsInvExactly | internal/controller/tailscaleservice_controller.go:58-127 | of everything that users, other owners and the reconciler can do, exactly these edits and reconciles break it |
| ServiceAssumptions.SharedNameLosesVIPExactly | internal/controller/tailscaleservice_controller.go:347-363 | a deletion takes the VIP service away, and it stays recorded as created exactly if another object shares it |
| ServiceAssumptions.ForeignVIPTakenExactly | internal/controller/tailscaleservice_controller.go:152-160 | a VIP service that somebody else made goes with the object exactly if it has the object's name and was found, replaced or already recorded at the last reconcile |
| ServiceConvergence.VIPTwice | internal/controller/tailscaleservice_controller.go:130-190 | a second VIP part without failures ends as the first did and changes nothing |
| ServiceConvergence.CreationTwice | internal/proxy/builder.go:54-81 | writing the proxy again changes at most the order of members in the secret's text |
| ServiceConvergence.ReportsTwice | internal/controller/tailscaleservice_controller.go:391-410 | setting the same conditions again changes only their times |
| ServiceConvergence.WorkTwice | internal/controller/tailscaleservice_controller.go:93-124 | the second of two reconciles changes only times and that order |
| ServiceConvergence.Converges | internal/controller/tailscaleservice_controller.go:58-127 | from any state of an object that is not being deleted, after two reconciles without failures (one if the finalizer is on) every further one changes only times and that order, the branch of a proxy without a tailnet included |
| ServiceConvergence.SettledVIP | internal/controller/tailscaleservice_controller.go:94-99 | VIPServiceReady is then shown exactly if the VIP service exists under a valid name or no client is set |
| ServiceConvergence.SettledReady | internal/controller/tailscaleservice_controller.go:102-115 | if also the proxy's specification is complete, Ready is shown, every backend is listed, and all six proxy objects are as specified |
| ServiceConvergence.StaleReadyExactly | internal/controller/tailscaleservice_controller.go:94-98 | a reconcile leaves Ready true beside a false VIPServiceReady exactly if Ready was true and the VIP service is neither found nor can be created |
| ServiceConvergence.SecretTextIsOrder | internal/proxy/builder.go:410-439 | two iterations write the same secret exactly if they go through the members in the same order |
| ServiceResults.VIPPartWrites | internal/controller/tailscaleservice_controller.go:130-190 | the VIP part fails exactly if the client does not find the VIP service and cannot create it; it puts one with the specification's ports, tags and comment under its name exactly if it creates it, changes no other, and on success records name, tags, created, and in the right branches DNS name and addresses |
| ServiceResults.VIPErrorSays | internal/controller/tailscaleservice_controller.go:172-174 | the error names the invalid VIP service or the failed call |
| ServiceResults.ReconcileWritesVIP | internal/controller/tailscaleservice_controller.go:58-99 | the same of a whole reconcile, together with which objects and statuses it writes |
| ServiceResults.ReconcileWritesProxy | internal/controller/tailscaleservice_controller.go:193-244 | a reconcile that gets to write the proxy fills its six keys with objects owned by the service and labelled with its name, and touches no other key |
| ServiceResults.ReconcileWritesWorkload | internal/controller/tailscaleservice_controller.go:206-228 | the stateful set runs the image and the replicas of the service's specification, or the defaults, mounts the configuration for its tailnet, and is fronted by the service |
| ServiceResults.ReconcileWritesConfig | internal/proxy/builder.go:145-182 | the secret that it mounts reads back as the configuration of a proxy for both directions |
| ServiceResults.ReconcileWritesPorts | internal/controller/tailscaleservice_controller.go:247-285 | from the port strings to the stateful set and the service: one port each for every string with a number, in order, equal, UDP exactly for udp prefixes and with distinct names, or one for http |
| ServiceResults.PrintedPortsRoundTrip | internal/controller/tailscaleservice_controller.go:247-285 | port strings printed from protocols and numbers of 32 bits come out as exactly these in both objects |
| ServiceResults.ReconcileReports | internal/controller/tailscaleservice_controller.go:93-124 | for every condition type, which status, reason and time a reconcile leaves for each way its parts end, and that it leaves all other types alone |
| ServiceResults.ReconcileLists | internal/controller/tailscaleservice_controller.go:289-339 | a reconcile that gets to its end lists every backend with target, weight and priority by kind and default, the counts and the proxy; any other leaves these as they were |
| ServiceResults.FirstReconcileWrites | internal/controller/tailscaleservice_controller.go:78-86 | the first reconcile puts the finalizer on and does nothing else |
| ServiceResults.DeletionWrites | internal/controller/tailscaleservice_controller.go:342-366 | the reconcile of a deleted object takes away at most the one VIP service it records as created, and the object with its last finalizer |
| Ports.ConvertVIPPortsToPortMappings | internal/controller/tailscaleservice_controller.go:247-285 | one mapping per port string that decodes, in order, or the default |
| Ports.DecodableIsComplete | internal/controller/tailscaleservice_controller.go:250-273 | no port string that decodes is dropped |
| Ports.MappingNamesDistinct | internal/controller/tailscaleservice_controller.go:250-282 | the names of the mappings are pairwise distinct for every list of port strings |
| Ports.ContainerPorts | internal/proxy/builder.go:192-205 | one container port per mapping, in order |
| Ports.ServicePorts | internal/proxy/builder.go:299-318 | one service port per mapping, in order, with its target port |
| Ports.UdpPrefixDecodes | internal/controller/tailscaleservice_controller.go:252-263 | the protocol is UDP exactly when the string has a udp prefix in any case |
| Ports.BuildPorts | internal/proxy/builder.go:192-318 | the stateful set and the service agree index by index in name and protocol, the target port is the container port, and UDP holds exactly for udp prefixes |
| Ports.MappingsExactly | internal/controller/tailscaleservice_controller.go:247-285 | the mappings are exactly those of the strings with a number, in order, each with the index in its name, or one for http |
| Ports.SplitAtFirstColon | internal/controller/tailscaleservice_controller.go:254-263 | a port string splits at its first colon; without one it is TCP |
| Ports.ParseInvertsDecimal | internal/controller/tailscaleservice_controller.go:266 | of printed numbers, signed or not, exactly those of 32 bits are read, as themselves |
| ConfigPrinter.AppendItems | internal/proxy/builder.go:426-435 | the printed list |
| ConfigPrinter.AppendMember | internal/proxy/builder.go:421-437 | the printed member, by the type of its value |
| ConfigPrinter.MarshalConfig | internal/proxy/builder.go:410-442 | the printed text for every order in which the map may be iterated |
| ConfigRoundTrip.CleanConfigRoundTrips | internal/proxy/builder.go:410-442 | for every map and every key order the text reads back to the same map if no string has a quote, a backslash or a control character |
| ConfigRoundTrip.RoundTripsExactly | internal/proxy/builder.go:410-442 | and only then |
| ProxyBuilder.SanitizeTailnetName | internal/proxy/builder.go:396-408 | the name with every other character replaced by a hyphen |
| ProxyBuilder.ProxyBuilder.CreateOrUpdate | internal/proxy/builder.go:445-454 | an upsert, or nothing and an error |
| ProxyBuilder.ProxyBuilder.CreateProxyServiceAccount | internal/proxy/builder.go:84-142 | the first three writes, up to the first that fails |
| ProxyBuilder.ProxyBuilder.CreateProxyConfigSecret | internal/proxy/builder.go:145-182 | the write of the secret with the printed configuration |
| ProxyBuilder.ProxyBuilder.CreateProxyStatefulSet | internal/proxy/builder.go:185-295 | the write of the stateful set that names the account, the secret and the ports |
| ProxyBuilder.ProxyBuilder.CreateProxyService | internal/proxy/builder.go:298-336 | the write of the service; that it has the ports asked for is PortsAgree |
| ProxyBuilder.ProxyBuilder.CreateProxyInfrastructure | internal/proxy/builder.go:54-81 | the six writes in order, up to the first that fails |
| ProxyBuilder.ProxyBuilder.DeleteProxyInfrastructure | internal/proxy/builder.go:457-479 | removes the six keys in reverse order, except those whose delete fails |
| ProxyTheorems.CreationIsPrefix | internal/proxy/builder.go:54-141 | a creation leaves exactly the prefix of its six objects before the first write that the store at the start would refuse, and succeeds only with all six |
| ProxyTheorems.RunStaysInside | internal/proxy/builder.go:54-81 | whatever creations and deletions are done to one proxy, no other key changes |
| ProxyTheorems.RetryConverges | internal/proxy/builder.go:54-141 | after any creations and deletions of any specifications, each stopped anywhere, one complete creation leaves the store it would have left alone |
| ProxyTheorems.WillingServerCompletes | internal/proxy/builder.go:445-454 | a creation completes whenever the API server takes every create and update |
| ProxyTheorems.CreationKeepsSound | internal/proxy/builder.go:58-77 | every prefix of a creation keeps: a binding has its role and account, a stateful set its account and secret |
| ProxyTheorems.DeletionKeepsIntactExactly | internal/proxy/builder.go:461-475 | a deletion stopped anywhere with any deletes failing keeps every reference exactly if nothing is deleted before what needs it |
| ProxyTheorems.RunKeepsSound | internal/proxy/builder.go:54-141 | over any run of partial creations and deletions whose deletes succeed, no reference ever dangles |
| ProxyTheorems.MixedRunKeepsSound | internal/proxy/builder.go:54-141 | nor however the creations and deletions of any number of services' proxies alternate |
| ProxyTheorems.DeletionIsExact | internal/proxy/builder.go:461-475 | a deletion whose deletes succeed removes the six keys and nothing else |
| ProxyTheorems.ProxiesNeverShare | internal/controller/tailscaleservice_controller.go:369-371 | the proxies of different services share no key |
| ProxyTheorems.NeighboursUntouched | internal/controller/tailscaleservice_controller.go:369-371 | nothing done to one service's proxy changes an object of another's |
| ProxyTheorems.SecretReadsBack | internal/proxy/builder.go:145-178 | whatever the iteration order, the secret's text is JSON of the proxy's configuration |
| ProxyObjects.FillsItsKeys | internal/proxy/builder.go:54-81 | a complete creation fills exactly the account, role, binding, secret, stateful set and service of the proxy's name, and no other key |
| ProxyObjects.EmptiesItsKeys | internal/proxy/builder.go:457-479 | a deletion whose deletes succeed takes away exactly these |
| ProxyObjects.PortsAgree | internal/proxy/builder.go:192-318 | after a complete creation the stateful set and the service have the ports asked for, index by index in name, number and protocol, and the service targets the container port unless a target is set |
| ProxyObjects.WorkloadAsGiven | internal/proxy/builder.go:185-377 | the stateful set runs the image, the replicas and the environment it should, and finds its configuration where the secret is mounted, under the sanitized name of its tailnet |
| ProxyObjects.ServiceFrontsSet | internal/proxy/builder.go:245-331 | the service is headless, selects the pods of the stateful set, and is the one which that names |
| ProxyObjects.SetIsAuthorized | internal/proxy/builder.go:84-142 | the account of the stateful set is bound to a role that may read and write secrets |
| ProxyObjects.SecretHoldsConfig | internal/proxy/builder.go:145-182 | the secret holds one file, which reads back as the configuration for the connection type, and has its own labels |
| ProxyObjects.AllOwned | internal/proxy/builder.go:84-331 | every object has the owner asked for, and all but the secret the labels |
| Validation.AcceptedExactly | internal/validation/validation.go:28-144 | a service is accepted exactly if its VIP service, every backend and its proxy with its tailnet are |
| Validation.FormatsSplit | internal/validation/validation.go:148-186 | a port or a kubernetes target is two texts around its only colon, each of which is checked |
| Validation.NumberLooksUpExactly | internal/validation/validation.go:148-186 | of numbers, with or without a sign, a port is accepted exactly between 0 and 65535 |
| Validation.BackendAcceptedExactly | internal/validation/validation.go:93-126 | a backend is accepted exactly if it has the target that its kind asks for and a weight between 1 and 100, if any |
| Regex.DNSNameIsPattern | internal/validation/validation.go:17 | a DNS name is accepted exactly if it matches the pattern |
| Regex.ServiceNameIsPattern | internal/validation/validation.go:20 | likewise a VIP service name |
| Regex.AddressIsPattern | internal/validation/validation.go:23-24 | likewise a backend's address |
| Regex.LabelIsPattern | internal/tailscale/client.go:70-71 | likewise the label of a VIP service in the client |
| Decoders.ParseAddress | internal/extension/server.go:406-432 | splits at the last colon, with port 80 where there is none to be read |
| Decoders.ParseInvertsPrint | internal/extension/server.go:406-432 | parsing inverts host + ":" + decimal for every host, colons included, and every port of 32 bits |
| Decoders.BareHostSurvives | internal/extension/server.go:406-432 | an address without a port keeps its host exactly if it has no colon |
| Decoders.LastNumberDecides | internal/extension/server.go:406-432 | the number after the last colon is read up to where it ends; one that does not fit becomes 80 |
| Decoders.NoNumberMeansDefault | internal/extension/server.go:406-432 | without a number after the last colon, or without a colon, the port is 80 |
| Decoders.ParsePortFromVIPPortString | internal/extension/server.go:440-469 | the number after the first colon, else at the start, else 80 |
| Decoders.FirstNumberDecides | internal/extension/server.go:440-469 | the number after the first colon is read up to where it ends, whatever colons follow |
| Decoders.BlanksAreSkipped | internal/extension/server.go:424-463 | blanks in front of a number do not matter, line breaks apart |
| Decoders.DigitPortsAgree | internal/extension/server.go:440-469 | every number that the validator accepts decodes to itself, between 0 and 65535, in the controller and in the extension server |
| Decoders.NoNumberDropped | internal/controller/tailscaleservice_controller.go:247-285 | for ports that are all accepted numbers there is one mapping per port, in order, each with the port that the extension server reads |
| Decoders.DecodersAgreeExactly | internal/validation/validation.go:148-163 | over everything the validator accepts, the decoders agree exactly on numbers without a sign and on +80 |
| Decoders.SignedPortsDiffer | internal/extension/server.go:440-469 | every other port with a plus sign is accepted and decoded in two ways |
| Endpoints.ResolveTailscaleServiceEndpoints | internal/extension/server.go:343-403 | the four stages, each used when those before give nothing; which one decides is in the five lemmas that follow |
| Endpoints.ResolveBackends | internal/extension/server.go:358-381 | one endpoint per kubernetes or external backend with a host, in order |
| Endpoints.VIPAddressesDecide | internal/extension/server.go:346-355 | if a VIP address has a host, the endpoints are exactly those of the VIP addresses that have one, in order, whatever the specification says |
| Endpoints.VIPAddressesRoundTrip | internal/extension/server.go:346-355 | VIP addresses printed from hosts and ports of 32 bits are resolved to exactly these |
| Endpoints.BackendsDecideNext | internal/extension/server.go:358-381 | without one, if a kubernetes or external backend has a host, the endpoints are exactly those of the backends that have one, in order |
| Endpoints.BackendsRoundTrip | internal/extension/server.go:358-381 | backends printed from hosts and ports are resolved to exactly these |
| Endpoints.PortsDecideLast | internal/extension/server.go:384-400 | with neither, there is one endpoint at 100.100.100.1 for each VIP port, in order, or one at port 80 |
| Endpoints.NeverEmpty | internal/extension/server.go:343-403 | no service resolves to nothing |
| Endpoints.AcceptedTarget | internal/validation/validation.go:93-126 | the target of an accepted backend has a host without colons in front of its port |
| Endpoints.EndpointsConserved | internal/extension/server.go:357-391 | for an accepted service without a usable VIP address: exactly one endpoint per kubernetes or external backend in order, each with a host, or one per VIP port |
| Extension.TailscaleExtensionServer.RefreshGatewayRegistry | internal/extension/server.go:568-597 | the registry holds exactly the listed keys, each with the last gateway listed for it; a failed listing changes nothing |
| Extension.TailscaleExtensionServer.ShouldProcessRoute | internal/extension/server.go:261-280 | true exactly when the registry is empty or has a parent's key in namespace default |
| Extension.SelectionRefinesListing | internal/extension/server.go:261-280 | after a refresh that is: no gateway is listed, or one whose effective namespace is default has a parent's name |
| Extension.TailscaleExtensionServer.ProcessBackendRef | internal/extension/server.go:283-320 | appends one cluster exactly for a TailscaleService that is found; in which namespace, and which cluster, is ReferenceInjectsExactly |
| Extension.ReferenceInjectsExactly | internal/extension/server.go:283-320 | a selected route's reference to a TailscaleService injects one cluster exactly if the service is stored under the namespace that the reference names, else under the route's, and its lookup succeeds: named by kind, that namespace and the service, with the service's endpoints; every other reference injects nothing |
| Extension.RouteNamespaceIrrelevant | internal/extension/server.go:293-297 | the route's own namespace has no influence on a reference that carries one |
| Extension.NamesSpelled | internal/extension/server.go:305 | the name of the cluster for each of the five kinds of route |
| Extension.TailscaleExtensionServer.ProcessRoutes | internal/extension/server.go:126-147 | appends the contributions of one route kind, in order of route, rule and reference |
| Extension.TailscaleExtensionServer.DiscoverAndInjectTailscaleServices | internal/extension/server.go:94-243 | the result is the original clusters followed by one cluster per contributing reference, in order of kind, route, rule and reference |
| Extension.AllListed | internal/extension/server.go:94-243 | a translation goes through exactly the references of the listed routes, in strictly increasing order of kind, route, rule and reference |
| Extension.InjectedExactly | internal/extension/server.go:94-320 | the injected clusters are exactly those of the references that resolve, in order, each named and filled by its own |
| Extension.AllPlacesDiffer | internal/extension/server.go:94-243 | every reference has a place of its own |
| Extension.FailedLookupsDropTheirOwn | internal/extension/server.go:300-302 | failed lookups take away the clusters at their own places and nothing else |
| Extension.FailedListDropsItsOwn | internal/extension/server.go:98-120 | a kind that fails to list takes away its own clusters and nothing else |
| Extension.ClusterNamesCollideExactly | internal/extension/server.go:305 | two clusters share a name exactly if their route kind is the same and namespace and name are equal or read alike around a hyphen |
| Extension.HyphenFreeNamesDiffer | internal/extension/server.go:305 | for namespaces without a hyphen the name tells the kind, the namespace and the name |
| Extension.InjectedNamesDifferExactly | internal/extension/server.go:300-309 | the injected clusters have pairwise different names exactly if no two contributing references, one service referenced twice included, share one |
| Placeholder.IndentContent | tools/generate/main.go:163-172 | every line that is not empty is moved |
| Placeholder.IndentKeepsLines | tools/generate/main.go:163-172 | the indented text has the same number of lines, each moved by that many blanks or empty as before |
| Placeholder.IndentByNothing | tools/generate/main.go:155 | indenting by nothing is the identity |
| Placeholder.ReplacedText | tools/generate/main.go:135-161 | text up to the end of the start line and from the end marker on is kept, and the content goes between |
| Placeholder.ReplacedBetween | tools/generate/main.go:135-161 | spelled out on the text: the content goes between the line of the first start marker and the first end marker, and all else is kept |
| Placeholder.ReplacementAbsorbsExactly | tools/generate/main.go:135-161 | for every template, replacing with c1 and then c2 is replacing with c2 exactly if nothing is replaceable, or the first end marker lies after the start line and c1 has none |
| Placeholder.ReadAllCRDs | tools/generate/main.go:103-133 | the contents of the CRD files in order with a separator between each two, or an error if the directory or one of them cannot be read |
| Placeholder.CRDsInText | tools/generate/main.go:103-133 | the text exists exactly if every file with the suffix .yaml can be read, and then holds exactly their contents, at consecutive places in order, with a separator between each two |
| Placeholder.InsertCRDsIntoHelm | tools/generate/main.go:78-101 | the template file afterwards, unchanged if anything cannot be read or written |
| Placeholder.RegenerationIsIdempotent | tools/generate/main.go:78-101 | regenerating again changes nothing, exactly under the same condition |
| Conditions.ConditionList.SetCondition | api/v1alpha1/status_conditions.go:14-38 | the list after a call |
| Conditions.LookupAfterCall | api/v1alpha1/status_conditions.go:14-48 | a call changes what is found for its own type and no other |
| Conditions.UniqueAlways | api/v1alpha1/status_conditions.go:14-38 | no run of calls lists a type twice |
| Conditions.LookupIsLastCall | api/v1alpha1/status_conditions.go:14-48 | over any run a type is found with the status, reason and message of its last call |
| Conditions.TimeIsLastTransition | api/v1alpha1/status_conditions.go:23-34 | the transition time is that of its last call that added it or changed its status or reason |
| Conditions.LookupWithoutTransition | api/v1alpha1/status_conditions.go:23-34 | without such a call the time, and without any call the condition, stays as it was |
| Conditions.GetConditionSummary | api/v1alpha1/status_conditions.go:139-183 | the one-pass summary: flags by the last condition of a type, counts by status, and the latest time |
| Conditions.SummaryFlags | api/v1alpha1/status_conditions.go:158-179 | for every list, each of the eight flags is true exactly if the last condition of the type it is named after is |
| Conditions.SummaryCounts | api/v1alpha1/status_conditions.go:139-183 | the counts are the numbers of false, of unknown and of all conditions, and the time is the maximum, or none if there is none |
| Conditions.SummaryAgreesWithLookup | api/v1alpha1/status_conditions.go:41-54 | with no type listed twice a flag of the summary is what the lookup says |
| Conditions.SummaryDiffersExactly | api/v1alpha1/status_conditions.go:139-183 | for any list, flag and lookup differ on a type exactly if its first and its last condition differ in being true |
| Conditions.UnlistedIsNotTrue | api/v1alpha1/status_conditions.go:139-183 | of a type that is not listed neither says that it is true |
| Conditions.LatestIsMaximum | api/v1alpha1/status_conditions.go:144-149 | the time of the summary is the maximum |
| Conditions.StatusesAddUp | api/v1alpha1/status_conditions.go:151-156 | the conditions that are true and those counted as errors and as unknown add up to the total |
| Conditions.SummaryIsHistory | api/v1alpha1/status_conditions.go:14-183 | after any run a flag says whether the last call for its type said true |
| ErrorLog.ErrorList.AddError | api/v1alpha1/status_conditions.go:188-206 | the error comes first, with severity Medium and the current time where it has none, and of the others the latest up to the maximum stay |
| ErrorLog.LogIsRecentHistory | api/v1alpha1/status_conditions.go:188-206 | over any run the list is the first maximum elements of the reversed, default-filled history |
| ErrorLog.GetErrorsByComponent | api/v1alpha1/status_conditions.go:209-217 | the errors of a component, in order |
| ErrorLog.GetErrorsBySeverity | api/v1alpha1/status_conditions.go:220-228 | the errors of a severity, in order |
| ErrorLog.FilterExactly | api/v1alpha1/status_conditions.go:209-228 | a filter keeps exactly the errors with the component and the severity given, in order |
| ErrorLog.HasCriticalErrors | api/v1alpha1/status_conditions.go:231-238 | true exactly when the filter by severity Critical is not empty, that is, when some error has it |
| ErrorLog.FiltersCompose | api/v1alpha1/status_conditions.go:209-228 | one filter after the other selects by both |
| ErrorLog.GetErrorSummary | api/v1alpha1/status_conditions.go:241-252 | the summary, with missing rows made on the way |
| ErrorLog.SummaryCountsFilters | api/v1alpha1/status_conditions.go:241-252 | each count is the length of the filter by component and severity, and none is zero |
| ErrorLog.SummaryAddsUp | api/v1alpha1/status_conditions.go:241-252 | the counts add up to the length of the list |
| TailnetController.TailscaleTailnet.UpdateStatus | internal/controller/tailscaletailnet_controller.go:260-262 | changes the copy's conditions only |
| TailnetController.TailscaleTailnet.DiscoverAndUpdateTailnetInfo | internal/controller/tailscaletailnet_controller.go:227-246 | sets the tailnet's info on the copy, or fails and leaves it |
| TailnetController.TailscaleTailnet.RecordError | internal/controller/tailscaletailnet_controller.go:264-287 | the error is the first of the copy's log of ten, with its code, message, component, time, severity and context |
| TailnetController.TailscaleTailnetReconciler.ReconcileTailnet | internal/controller/tailscaletailnet_controller.go:100-144 | what is stored and what the copy holds for every outcome of the calls |
| TailnetController.TailscaleTailnetReconciler.Reconcile | internal/controller/tailscaletailnet_controller.go:60-97 | what one reconcile stores |
| TailnetController.StoredIsGood | internal/controller/tailscaletailnet_controller.go:60-144 | over any run a stored status is empty or has Authenticated, Validated and Ready once each, Authenticated and Ready true, and never an error, a metric or a failed authentication |
| TailnetController.StoredSaysLastWrite | internal/controller/tailscaletailnet_controller.go:100-144 | over any run, Validated is true in the stored status exactly if the last reconcile that wrote it discovered the metadata; the tailnet's info is then that metadata, and else what was stored before |
| TailnetController.WrittenSays | internal/controller/tailscaletailnet_controller.go:121-138 | the reason and the message of Validated for both ends of the discovery |
| TailnetController.UnwrittenIsEmpty | internal/controller/tailscaletailnet_controller.go:60-97 | an object that no reconcile has written to has no status at all |
| TailnetController.FailedAuthenticationShows | internal/controller/tailscaletailnet_controller.go:103-116 | the copy shows a failed authentication with the error of the call that failed first |
| TailnetController.FinalizerSteps | internal/controller/tailscaletailnet_controller.go:72-83 | the finalizer is put on first and taken off an object that is being deleted, which goes away with its last one |
| TailnetController.TailscaleTailnet.RecordMetrics | internal/controller/tailscaletailnet_controller.go:289-307 | the count goes up by one, the times are those of this reconcile, and the first successful call is kept |
| TailnetController.StoredConditions | internal/controller/tailscaletailnet_controller.go:100-138 | lookups in a stored status find Authenticated and Ready true, and no type twice |
| TailnetController.GoodConditionsFrozen | internal/controller/tailscaletailnet_controller.go:100-138 | from the first write on those two conditions never change at all, times included |

## Left out

- The lock of the extension server's hook: PostTranslateModify takes the write lock and shouldProcessRoute asks for the read lock of the same mutex (internal/extension/server.go:77, 262), which Go's lock does not grant; the registry is read as under the lock already held, and no claim is made that the hook completes.
- HTTP, OAuth, gRPC serving, flags, logging, events, the metrics server and requeue delays: the Kubernetes and Tailscale APIs are stores whose calls may fail.
- The tailnet, secret and error log contents that no decision reads, such as device counts, retries and operational metrics beyond those written here.
- Server-side rules of Kubernetes: resource versions on update, immutable fields, garbage collection by owner references, admission. Create-or-update is an upsert, and an object that is being deleted goes with its last finalizer.
- SHA-256 is a function on text that is assumed not to collide where a theorem says so.
- The clock reading and the write of a lastUsed stamp are one step.
- That a waiting writer holds up new readers is not modelled; it removes interleavings and adds none.
- The ticker of the cleanup goroutine: a cleanup pass may begin at any time.
- ProcessRoutes: one method with the route kind as parameter stands for the five loops at internal/extension/server.go:126-243, which differ in nothing else; RouteNames and fixed cluster fields are not in a cluster.
- ValidateName: counts characters where the source counts bytes; a name with other than ASCII characters is refused in both, with another message.
- ToUpper: letter case is folded for ASCII only.
- LooksUp: net.LookupPort is modelled from its documentation; the names that it knows are a parameter.
- ScanUint32: Sscanf reads blanks and digits; its other verbs and line breaks are not part of this model.
- ReadText: the reader has no numbers, which the printer never prints for these types, and no surrogate pairs.
- CreateProxyStatefulSet: the probes, security contexts and resource limits, which are constants, are not in the object.
- GetClient: the method is sequential; what others do between its two lock sections is in the step system, whose theorems are about that.
- Cleanup: the stop channel and the ticker, and the panic of a second call, are not part of this model.
- AddError: the maximum is not negative; the source calls it with 10 and would panic below zero.
- RecordMetrics: the order of the readings of the clock is not modelled.
- Reconcile: one reconcile is one step, so no user action falls between its calls; a conflict is a failed write.
- Progress: no claim says that a goroutine or a reconcile is ever scheduled.
- The gateway controller, generated code, CRD manifests, Helm templates, internal/config, internal/metrics and internal/errors: descriptive or generated, or only easy members.
