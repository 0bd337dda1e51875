# Argon: a verified model of the snapshot path

Argon is an ingress controller in two parts. A Go control plane compiles Ingress data into
snapshots of routes and clusters and streams them over gRPC. A Rust data plane indexes each
snapshot, routes and balances requests on it, and rewrites and forwards them. This project
models that path in Dafny and proves what it promises, from Ingress rules to the endpoint that
serves a request. `dafny verify dfyconfig.toml` checks all of it.

| file | part of the system |
|---|---|
| `Text.dfy`, `Sorting.dfy`, `Wire.dfy` | strings, the two library sorts, the messages of `config.proto` |
| `EndpointSlices.dfy` | Ingress rules and endpoint slices to targets |
| `ControlPlane.dfy`, `Canonical.dfy` | the snapshot compiler and its determinism |
| `Distribution.dfy`, `DistributionInvariant.dfy`, `DistributionTheorems.dfy`, `DistributionProgress.dfy` | hub, `Watch` and data-plane stream loops as a step system, its safety and its progress |
| `StreamHub.dfy`, `HubSteps.dfy`, `GrpcManager.dfy` | the hub and the stream loop as objects, and the hub's steps as those of the step system |
| `RouteTable.dfy`, `Precedence.dfy`, `EndToEnd.dfy` | the route index, its precedence, and the decision for each request |
| `Requests.dfy` | distribution and routing together |
| `Balancer.dfy`, `InFlight.dfy`, `RoundRobin.dfy`, `LeastConn.dfy` | balancing and in-flight accounting |
| `Headers.dfy`, `Retry.dfy`, `Signin.dfy`, `AuthLists.dfy` | request transformations |

## Main results

* **Distribution.** In every run of every interleaving a stream delivers strictly increasing
  broadcasts, a data plane never goes back, and its three slots mix at most two consecutive
  messages. "Everyone converges" is false, because a full channel drops the newest snapshot:
  for every n a data plane that has settled on the first snapshot while the hub holds the nth is
  reachable (`StaleIsReachable`). While nothing is broadcast or disconnected a data plane does
  settle, whatever requests it serves: each delivering step lowers a measure, and until then one can
  be taken or a lookup that holds it up can end (`DeliverySettles`). It is then current if and only
  if the latest broadcast was not dropped on its channel (`SettledIsCurrentIff`). Nothing else is
  ever lost (`NothingElseIsLost`), and the next accepted broadcast or a reconnect repairs it.
  The hub object, taken by its own methods through any run, holds what the last state says (`Drive`).
* **Requests.** Through all of that, every finished request was decided by the targets of one
  broadcast that its data plane had received (`RequestsFollowOneBroadcast`), and later requests
  never by older targets than earlier ones (`GenerationsNeverFall`).
* **Routing.** The bucketed, stably sorted, first-match index answers like a scan of the raw list
  (`IndexedLookupIsScan`), whatever stable algorithm sorts it (`AnyStableIndexIsScan`): the one route
  that is the path, or as a Prefix begins it, and beats all others (`ChosenRouteWins`). Priorities
  computed in Go give "Exact, otherwise a longest prefix" after the second sort in Rust if and only
  if the request path has at most 2,144,483,647 bytes, where `int32` priorities start to wrap
  (`PrecedenceIff`); the same number is the exact bound on route paths for requests of any length
  (`RouteBoundIff`). The 1,000,000 between path-type ranks never matters, since a route that applies
  to a path is no longer than it. The `http` crate refuses URIs of more than 65,534 bytes, so no
  longer path arrives as a request.
* **Resolution.** Cluster keys are lowercased on insertion and looked up as written. A route is
  therefore served if and only if its host and path have no capital letter; any other route,
  for instance one on `/API`, always ends in "cluster rules not found" (`RequestsAreServed`). A
  forwarded request goes to the addresses of its target on its port, with its settings.
* **Determinism.** Routes are the same value sequence for every target order, map iteration order,
  unstable sort and set of fresh pointers if and only if entries of one (host, path) pair agree on
  path types that Kubernetes does not define (`RoutesDeterministicIff`); repeated pairs alone do no
  harm. Clusters are so if and only if entries of one cluster name agree
  (`ClustersDeterministicIff`), and certificates if and only if those of one name are the same
  (`TlsDeterministicIff`), which two Ingresses that share a secret for different hosts break
  (`SharedSecretIsAmbiguous`). Two pairs share a cluster name if and only if they are equal or one
  host extends the other by a bar and the paths make up for it (`ClusterNamesEqualIff`). The route
  comparator compares path types as pointers; it is a strict weak order if and only if no two routes
  of one pointer differ in their cluster next to a third of the same key and rank behind another
  pointer (`PointerOrderIff`), which compiled routes never do.
* **Balancing.** Counters equal live guards across table swaps. Every interleaving of threads that
  draw tickets and pick endpoints later is fair to within one if and only if the number of endpoints
  divides 2^64 (`ThreadsFairIff`), and to within two across one wrap. In any run of starts without
  completions, least connections drifts by at most the number of requests between selection and
  increment, and that bound is attained.
* **Transformations.** Closed forms of the header rewrite loop and the retry loop. The three
  replacements in a sign-in template are one substitution for every template if and only if the host
  is inert (`SafeHostIff`), and for every host and path if and only if no variable of the template
  cuts off the beginning of a later one (`SafeTemplateIff`). Normalising the auth lists changes no
  copied header (`CopiesUnchangedIff`) and no skip decision (`SkipDecisionsKeptIff`) if and only if
  stated conditions on the given list hold; lists that the control plane parsed always meet the
  first. Merging endpoint slices is independent of their order if and only if their ports agree or
  nothing is offered (`OrderIndependentIff`).

## Conventions

* A string is its sequence of bytes, one `char` for each, wherever lengths and order matter. In
  `AuthLists` and `Headers` a `char` is a Unicode character, because `str::trim` works on those.
* Broadcasts do not overlap: the controller sets no worker count
  (images/controlplane/internal/controller/ingress_controller.go:96-104), and one is the default.
* An atomic operation, such as `fetch_add` on the cursor, is one step.
* Go map iteration order and the choice of Go's unstable sort are left open; results hold for all.
* `HeaderValue::from_str`, `HeaderName::from_bytes` in rewrites, upstream outcomes, the clock and the
  version hash are parameters. In `Distribution` versions are only taken to be not empty.
* Where documentation and code differ, the model follows the code. `docs/settings.md` calls
  `lb-algorithm` values case-insensitive; the code compares them exactly. It promises 504 on an
  upstream timeout; the code answers 502 with the error text of the last attempt. It calls the
  sign-in variables substituted; a stray `$` or an unlucky host can make a later replacement act on
  an earlier result.

## Model

| member | source | states |
|---|---|---|
| `EndpointSlices.AppendUnique` | images/controlplane/internal/controller/utils.go:39-47 | keeps the destination, duplicates and all, as a prefix, adds nothing that is already there, and holds exactly the addresses of both lists |
| `EndpointSlices.AppendSlice` | images/controlplane/internal/controller/utils.go:252-257 | adds exactly the addresses of endpoints not marked unready, each once and none twice |
| `EndpointSlices.MatchSlicePortIff` | images/controlplane/internal/controller/utils.go:72-85 | number n is matched if and only if it is that of the first numbered port with the asked name, or of the first numbered port when no name is asked for |
| `EndpointSlices.MergeSlices` | images/controlplane/internal/controller/utils.go:234-264 | the port is that of the first slice with a numbered port of the asked name; the addresses are strictly sorted and are exactly those of endpoints not marked unready in slices whose port of that name is the same; there is no merge exactly when there is no such port or address |
| `EndpointSlices.MergeIff` | images/controlplane/internal/controller/utils.go:234-264 | that description of the merge, by the fields of the slices, is the one by matched ports that the order results use |
| `EndpointSlices.MergeDetermined` | images/controlplane/internal/controller/utils.go:239-264 | the merge is a function of the chosen port and the set of belonging addresses |
| `EndpointSlices.OrderIndependentIff` | images/controlplane/internal/controller/utils.go:239-258 | the merge is the same for every order of the slices if and only if all matched ports agree or no matching slice has an address to give |
| `EndpointSlices.DisagreeingPortsDecideByOrder` | images/controlplane/internal/controller/utils.go:239-258 | whenever matched ports disagree and something is offered, two orders of the slices merge differently |
| `EndpointSlices.TwoPortsDecideByOrder` | images/controlplane/internal/controller/utils.go:239-258 | in particular for any two slices with one address each on different ports |
| `EndpointSlices.EndpointOrderIsIrrelevant` | images/controlplane/internal/controller/utils.go:252-257 | reordering endpoints inside slices never changes the merge |
| `EndpointSlices.ParseLbAlgorithm` | images/controlplane/internal/controller/utils.go:148-159 | the data plane knows the resulting policy whatever the annotation says, and it is least connections for that exact spelling alone |
| `EndpointSlices.ContributeOne` | images/controlplane/internal/controller/utils.go:218-278 | a rule path contributes an endpoint exactly when its backend has a port and an address; port and addresses are then those of the merge, the path type is the rule's, and every other setting is kept |
| `EndpointSlices.BuildTargetFromRule` | images/controlplane/internal/controller/utils.go:200-281 | a path is kept exactly when one of its rule paths has a port and an address; the last such rule path wins; every kept path has an address; the Ingress's certificate is carried along |
| `EndpointSlices.TargetsAreServiceable` | images/controlplane/internal/controller/utils.go:260-277 | targets built from rules have known policies, as the routing theorem asks, and addresses |
| `Retry.ClampRetries` | images/controlplane/internal/controller/utils.go:126-138 | retries lie in 1..10, keep a value in range, take the nearest bound otherwise, and default to 1 |
| `ControlPlane.RouteLessCollapses` | images/controlplane/internal/model/snapshot.go:32-49 | on compiled routes the pointer-comparing comparator is the order by priority, host and path |
| `ControlPlane.RouteLessFields` | images/controlplane/internal/model/snapshot.go:32-49 | the comparator field by field: higher priority, then smaller host, path, then higher-ranked type behind another pointer, then smaller cluster |
| `ControlPlane.KeyLessIsStrictWeakOrder` | images/controlplane/internal/model/snapshot.go:32-49 | that order is a strict weak order |
| `ControlPlane.PointerOrderIff` | images/controlplane/internal/model/snapshot.go:32-49 | on routes whose pointers have one value each the comparator is a strict weak order if and only if no two routes of one pointer differ in their cluster next to a third of the same key and rank behind another pointer |
| `ControlPlane.CompiledRoutesAreOrdered` | images/controlplane/internal/model/snapshot.go:32-49 | compiled routes never do, so the comparator orders them |
| `ControlPlane.PointerComparatorIsNoOrder` | images/controlplane/internal/model/snapshot.go:45-48 | a list of three routes, whose pointers have one value each, on which the comparator breaks the laws |
| `ControlPlane.CompiledSort` | images/controlplane/internal/model/snapshot.go:32-49 | sorting compiled routes by the pointer comparator yields a list in that comparator's order |
| `ControlPlane.Snapshot.Sort` | images/controlplane/internal/model/snapshot.go:31-59 | all three lists are permuted; clusters and certificates come out sorted by name, and routes in comparator order when they are compiled ones |
| `ControlPlane.BuildEndpoints` | images/controlplane/internal/controller/ingress_controller.go:169-175 | as many endpoints as addresses; the ith has the ith address, the target's port and weight 1 |
| `ControlPlane.AppendPath` | images/controlplane/internal/controller/ingress_controller.go:149-177 | appends a route with its host, path, type, cluster and priority and a cluster that carries every address, port and setting of the path in its own field, and changes nothing else |
| `ControlPlane.AppendTarget` | images/controlplane/internal/controller/ingress_controller.go:148-178 | whatever the map order, adds the route and the cluster of each path of the target exactly once |
| `ControlPlane.AppendTargets` | images/controlplane/internal/controller/ingress_controller.go:143-179 | the entries of all targets once each, and the certificates of the targets that have one, in target order |
| `ControlPlane.SnapshotCompiles` | images/controlplane/internal/controller/ingress_controller.go:133-189 | in every snapshot of the targets each path of each target has a route to, and a cluster with, its addresses on its port and its settings field by field, nothing else is there, and routes descend by priority, then host, then path |
| `ControlPlane.ToSnapshot` | images/controlplane/internal/controller/ingress_controller.go:133-189 | each path of each target has its route and its cluster, with its addresses on its port and each setting in its own field, and there is nothing else; routes, clusters and certificates are sorted, the certificates are the named ones, and the version is the hash of the three lists |
| `Sorting.StableSortIsSort` | images/dataplane/src/snapshot.rs:261-272 | the stable sort yields a sorted permutation for every strict weak order |
| `Sorting.StableSortIsStable` | images/dataplane/src/snapshot.rs:261-272 | every class of tied elements keeps its order |
| `Sorting.StableSortIsUnique` | images/dataplane/src/snapshot.rs:261-272 | a sorted permutation that keeps the order of ties is unique, whatever algorithm computes it |
| `Sorting.SortDeterministicIff` | images/controlplane/internal/model/snapshot.go:51-53 | an unstable sort has one possible result if and only if tied elements are equal |
| `Canonical.ToPbRoutes` | images/controlplane/internal/grpc/server.go:157-162 | the wire carries the routes in order with their path type by value and their priority as `int32` |
| `Canonical.ClusterNamesEqualIff` | images/controlplane/internal/controller/ingress_controller.go:149 | two pairs share a cluster name if and only if they are equal, or one host extends the other by a bar and the paths make up for it |
| `Canonical.ClusterNameInjective` | images/controlplane/internal/controller/ingress_controller.go:149 | hosts neither of which extends the other by a bar make cluster names injective |
| `Canonical.CanonicalRoutes` | images/controlplane/internal/controller/ingress_controller.go:143-181 | every outcome on the same targets, in any order and behind whatever pointers, sends the same routes, also with repeated pairs, as long as these agree on undefined path types |
| `Canonical.ReorderedTargets` | images/controlplane/internal/controller/ingress_controller.go:143 | a reordering of the targets is a special case |
| `Canonical.UnknownTypesAreAmbiguous` | images/controlplane/internal/model/snapshot.go:32-49 | two entries of one pair with different undefined path types can always be sent in either order |
| `Canonical.RoutesDeterministicIff` | images/controlplane/internal/controller/ingress_controller.go:143-181 | the routes sent are independent of all orders and pointers if and only if entries of one pair agree on undefined path types |
| `Canonical.ClustersDeterministicIff` | images/controlplane/internal/model/snapshot.go:51-53 | the cluster list is independent of all orders and pointers if and only if entries of one cluster name compile to the same cluster |
| `Canonical.TwoTargetsAreAmbiguous` | images/controlplane/internal/model/snapshot.go:51-53 | two targets for one host and path with different addresses make the cluster list depend on the order |
| `Canonical.TlsDeterministicIff` | images/controlplane/internal/model/snapshot.go:55-57 | the certificate list is independent of target order and sort if and only if certificates of one name are the same |
| `Canonical.SharedSecretIsAmbiguous` | images/controlplane/internal/controller/utils.go:344-346 | two Ingresses that share a secret for different hosts make the certificate list depend on the order |
| `Canonical.CanonicalSnapshot` | images/controlplane/internal/controller/ingress_controller.go:143-181 | with distinct (host, path) pairs and no host that extends another by a bar, routes and clusters are the same value sequences for every order and all pointers |
| `StreamHub.Channel.Offer` | images/controlplane/internal/grpc/hub.go:46-49 | an empty channel holds the snapshot afterwards; a full one keeps what it had |
| `StreamHub.Channel.Take` | images/controlplane/internal/grpc/server.go:108 | a receive takes the oldest snapshot out of the channel |
| `StreamHub.StreamHub.constructor` | images/controlplane/internal/grpc/hub.go:16-18 | a new hub has no channel and holds the zero snapshot |
| `StreamHub.StreamHub.Add` | images/controlplane/internal/grpc/hub.go:20-28 | registers a fresh empty channel under an unused id and returns the current snapshot |
| `StreamHub.StreamHub.Remove` | images/controlplane/internal/grpc/hub.go:30-34 | forgets exactly that channel and touches nothing else |
| `StreamHub.StreamHub.Channels` | images/controlplane/internal/grpc/hub.go:38-43 | lists every registered channel exactly once |
| `StreamHub.StreamHub.Capture` | images/controlplane/internal/grpc/hub.go:37-43 | the locked part of a broadcast stores the snapshot and lists every registered channel once |
| `StreamHub.StreamHub.Broadcast` | images/controlplane/internal/grpc/hub.go:36-51 | stores the snapshot; each empty registered channel holds it afterwards, each full one keeps what it had, and no other channel changes |
| `StreamHub.Reconciler.Reconcile` | images/controlplane/internal/controller/ingress_controller.go:66-73 | an unchanged version changes nothing; a new one is stored, fills every empty channel and leaves every full one as it was |
| `DistributionInvariant.StepKeeps` | images/controlplane/internal/grpc/hub.go:20-51 | every step of hub, servers and data planes keeps the protocol invariant |
| `DistributionInvariant.OfferStream` | images/controlplane/internal/grpc/hub.go:45-50 | a send outside the lock keeps a stream's flow increasing and accounts for the message as buffered or dropped |
| `DistributionInvariant.NextMessage` | images/dataplane/src/grpc.rs:237-244 | the next message of the attached stream is no older than anything the data plane has read |
| `DistributionInvariant.RunKeeps` | images/controlplane/internal/grpc/server.go:95-116 | every run keeps the invariant |
| `DistributionTheorems.StreamDeliversInOrder` | images/controlplane/internal/grpc/server.go:95-116 | in every reachable state each stream has delivered strictly increasing broadcasts, starting with the current one when it was added |
| `DistributionTheorems.NeverBackward` | images/dataplane/src/grpc.rs:197-285 | over any run with any reconnects a data plane's history grows in order and no slot goes back |
| `DistributionTheorems.SlotsAreOrdered` | images/dataplane/src/grpc.rs:237-273 | certificates lag table lags snapshot, all from the newest two messages, and equal whenever the loop waits |
| `DistributionTheorems.RequestSeesOneTable` | images/dataplane/src/proxy.rs:55-87 | all lookups of a request see one table generation |
| `DistributionTheorems.VersionsChange` | images/controlplane/internal/controller/ingress_controller.go:66-73 | no version is empty and none is broadcast twice in a row |
| `DistributionTheorems.NothingElseIsLost` | images/controlplane/internal/grpc/hub.go:36-51 | between broadcasts a live stream holds exactly its first snapshot and the later broadcasts that did not find its channel full |
| `DistributionTheorems.CurrentIffNotDropped` | images/controlplane/internal/grpc/hub.go:45-50 | between broadcasts the newest snapshot of a live stream is the hub's if and only if the latest broadcast was not dropped on its full channel |
| `DistributionTheorems.SettledIsCurrentIff` | images/controlplane/internal/grpc/server.go:99-111 | a data plane with nothing left on its way runs the hub's snapshot in all three slots if and only if the latest broadcast was not dropped on its channel |
| `DistributionProgress.StaleIsReachable` | images/controlplane/internal/grpc/hub.go:45-50 | for every n a data plane settled on the first snapshot while the hub holds the nth is reachable |
| `DistributionTheorems.NextBroadcastRepairs` | images/controlplane/internal/grpc/hub.go:36-51 | a broadcast that finds the channel empty makes any live stream current |
| `DistributionTheorems.BroadcastRun` | images/controlplane/internal/grpc/hub.go:36-51 | an uninterrupted broadcast is a run of the step system, in every channel order |
| `DistributionTheorems.StoppedAndRemoved` | images/controlplane/internal/grpc/server.go:97 | between broadcasts, a call that returns leaves its stream stopped and unregistered, with what it had sent |
| `DistributionTheorems.GoneForGood` | images/controlplane/internal/grpc/server.go:96-97 | whatever happens later, nothing is sent on or offered to such a stream, and its id is not given out again |
| `HubSteps.AddStep` | images/controlplane/internal/grpc/hub.go:20-28 | the hub object takes the accepting step and hands out the snapshot that the stream begins with |
| `HubSteps.RemoveStep` | images/controlplane/internal/grpc/hub.go:30-34 | the hub object takes the removing step |
| `HubSteps.CaptureStep` | images/controlplane/internal/grpc/hub.go:37-43 | the locked part of the broadcast is the reconciling step and lists exactly the channels it then owes, once each |
| `HubSteps.OfferStep` | images/controlplane/internal/grpc/hub.go:45-50 | one send is the offering step: the object drops exactly when the step system does, also on a channel removed in the meantime |
| `HubSteps.TakeStep` | images/controlplane/internal/grpc/server.go:107-108 | one receive is the taking step and yields the snapshot that the step system then sends |
| `HubSteps.BroadcastView` | images/controlplane/internal/grpc/hub.go:36-51 | in the step system an uninterrupted broadcast fills the empty registered channels and leaves the full ones, in every order |
| `HubSteps.ReconcileRun` | images/controlplane/internal/controller/ingress_controller.go:66-73 | the object's uninterrupted reconcile ends in the hub of that run, or changes nothing when the version is the same |
| `HubSteps.Drive` | images/controlplane/internal/grpc/hub.go:9-51 | a hub object taken by its own methods through any run of the step system holds at the end exactly what the last state says: ids, registered channels, their contents and the latest snapshot |
| `DistributionProgress.StepProgresses` | images/controlplane/internal/grpc/server.go:99-111 | between broadcasts and while the stream lasts, whatever requests the data plane takes, every delivering step lowers what is left for it and no other step changes that |
| `DistributionProgress.NotStuck` | images/dataplane/src/grpc.rs:222-285 | a data plane that has not settled has a delivering step to take or a lookup to end that holds up a store |
| `DistributionProgress.RunProgresses` | images/dataplane/src/grpc.rs:222-285 | over every such run the deliveries made and those left never exceed those left at first |
| `DistributionProgress.DeliverySettles` | images/dataplane/src/grpc.rs:222-285 | every such run from a reachable state makes boundedly many deliveries, and when none can be taken and no lookup runs the data plane has settled and is current if and only if the latest broadcast was not dropped |
| `DistributionProgress.SettlingRun` | images/dataplane/src/grpc.rs:222-285 | from every such state a bounded run of deliveries and ends of lookups alone settles the data plane |
| `DistributionProgress.ReconnectRepairs` | images/controlplane/internal/grpc/hub.go:20-28 | from every reachable state after a broadcast, whatever a disconnected data plane is in the middle of: once the running broadcast is finished, three steps attach it and a run of deliveries and ends of lookups brings all its slots to the hub's snapshot |
| `GrpcManager.GrpcManager.Store` | images/dataplane/src/grpc.rs:240-255 | after a message the three slots are functions of that one message |
| `GrpcManager.GrpcManager.ReadStream` | images/dataplane/src/grpc.rs:222-285 | after a stream the slots hold its last message, or are untouched if it had none |
| `GrpcManager.GrpcManager.TakeTurn` | images/dataplane/src/grpc.rs:120-294 | one turn stores its messages, sets readiness only when a stream was established, and sleeps the current backoff, or the first one after a connection, which it then doubles |
| `GrpcManager.GrpcManager.Run` | images/dataplane/src/grpc.rs:116-296 | after any script the slots hold the last message of all streams, readiness is never lost, each sleep follows the backoff law, and the task ends by cancellation alone, keeping what it has read |
| `GrpcManager.BackoffStep` | images/dataplane/src/grpc.rs:181-190 | doubling and capping step by step is capping 500 times a power of two once |
| `GrpcManager.BackoffRange` | images/dataplane/src/grpc.rs:117-118 | the backoff stays between 500 and 10000 |
| `GrpcManager.BackoffTable` | images/dataplane/src/grpc.rs:117-190 | each sleep is 500 ms at first and after an established connection, and otherwise twice the one before up to 10,000 ms |
| `RouteTable.BuildBuckets` | images/dataplane/src/snapshot.rs:245-258 | each lowercased host has exactly its Exact and Prefix rules in snapshot order |
| `RouteTable.SortBuckets` | images/dataplane/src/snapshot.rs:261-272 | every bucket is replaced by a sorted permutation of it that keeps the order of ties |
| `RouteTable.StableIndexIsUnique` | images/dataplane/src/snapshot.rs:261-272 | whatever stable algorithm sorts the buckets, the index is the same |
| `RouteTable.BuildClusters` | images/dataplane/src/snapshot.rs:217-242 | clusters of known policy are filed under lowercased names, a later one replacing an earlier one |
| `RouteTable.New` | images/dataplane/src/snapshot.rs:215-282 | the table is the sorted index of the routes with the cluster map |
| `RouteTable.CandidateIff` | images/dataplane/src/snapshot.rs:304-310 | a kept rule matches if and only if its route is Exact with that very path, or Prefix with a path that the request continues |
| `Sorting.SortedLookupIsBestMatch` | images/dataplane/src/snapshot.rs:305-310 | the first match in the stably sorted list is the best match of the unsorted one |
| `Sorting.BestMatchPosition` | images/dataplane/src/snapshot.rs:261-272 | the best match is the position that nothing beats and that beats every earlier match |
| `RouteTable.IndexedLookupIsScan` | images/dataplane/src/snapshot.rs:285-310 | for every snapshot, host and path the indexed lookup is the unindexed scan by priority, path length, Exact before Prefix and snapshot order, over the routes that are the path or, as a Prefix, begin it |
| `RouteTable.ChosenRouteWins` | images/dataplane/src/snapshot.rs:285-310 | the answer has path, type, cluster and priority of the one route of the host that applies and beats all others that do, otherwise of the one without a host; nothing if and only if no route of either applies |
| `RouteTable.AnyStableIndexIsScan` | images/dataplane/src/snapshot.rs:261-310 | the lookup is the scan for every stable algorithm |
| `Wire.ToInt32` | images/controlplane/internal/grpc/server.go:160 | the result fits `int32` and is the value itself whenever that fits |
| `Precedence.CandidatePriority` | images/controlplane/internal/model/snapshot.go:74-77 | a route that applies to a path is no longer than it, and within the bound its priority survives the conversion to `int32` |
| `Precedence.IntendedPrecedence` | images/controlplane/internal/model/snapshot.go:61-77 | when every route that could apply is within the bound, the choice is an Exact route of the host with that path if there is one, otherwise a longest route path that the request path begins with, and routes without a host only when the host has no match |
| `Precedence.LongPathsLosePrecedence` | images/controlplane/internal/grpc/server.go:160 | for every longer path there are two routes that are answered in the wrong order |
| `Precedence.PrecedenceIff` | images/controlplane/internal/model/snapshot.go:74-77 | the precedence holds for a path if and only if it is within the bound |
| `Precedence.RouteBoundIff` | images/controlplane/internal/model/snapshot.go:74-77 | route paths of at most n bytes keep the precedence for requests of every length if and only if n is within the bound, as 1,000,000 is |
| `Text.LowercaseIsGreatest` | images/controlplane/internal/model/snapshot.go:51-53 | among the case variants of a name the lowercase one sorts last |
| `Text.LowerLetters` | images/dataplane/src/snapshot.rs:227 | lowercasing replaces each of the 26 capitals by its own small letter and nothing else |
| `EndToEnd.ResolvesIff` | images/dataplane/src/snapshot.rs:218-241 | in a sorted cluster list a cluster is found under its own name if and only if the name has no capital letter, and no case variant displaces it |
| `EndToEnd.EntryResolves` | images/dataplane/src/snapshot.rs:313-325 | an entry's cluster name resolves if and only if host and path have no capital letter, and then to a cluster compiled from an entry of that name |
| `EndToEnd.RequestsAreServed` | images/dataplane/src/proxy.rs:55-79 | for every request the decision follows from the targets: the Exact entry of the host, otherwise its longest entry that the path begins with, otherwise the same without a host, forwards to a cluster with the addresses, port and settings of an entry of its cluster name, is refused for a capital letter, or lacks an endpoint if there is no address; otherwise no route is found |
| `EndToEnd.EndpointsAreFound` | images/dataplane/src/proxy.rs:70-79 | when all entries have addresses, as built ones do, a matched request never lacks an endpoint |
| `EndToEnd.OwnClusterServes` | images/controlplane/internal/controller/ingress_controller.go:149-177 | with distinct pairs and no host that extends another by a bar the cluster is the serving entry's own |
| `EndToEnd.CapitalHostMatchesNoHost` | images/dataplane/src/proxy.rs:484-502 | a URI authority with a capital letter, which is not lowercased, matches no route that names a host |
| `Requests.RequestsFollowOneBroadcast` | images/dataplane/src/proxy.rs:55-79 | in every reachable state every finished request that was decided was decided as the targets of one broadcast call for, which the data plane had received, or found no route in the empty first table |
| `Requests.GenerationsNeverFall` | images/dataplane/src/proxy.rs:55-87 | in every reachable state a later finished request saw no older table than an earlier one |
| `Balancer.BuildMap` | images/dataplane/src/snapshot.rs:383-390 | one fresh zero cell for each index, also for repeated address and port pairs, and no shared cell |
| `Balancer.ClusterRule.constructor` | images/dataplane/src/snapshot.rs:223-240 | a new rule has its cursor at zero and counters of its own |
| `Balancer.ClusterRule.CounterForIndex` | images/dataplane/src/snapshot.rs:365-371 | succeeds on exactly the valid indices, with that endpoint's own cell |
| `Balancer.ClusterRule.RoundRobin` | images/dataplane/src/snapshot.rs:328-337 | picks the endpoint of the cursor's residue with its own counter and advances the wrapping cursor; nothing for an empty list |
| `Balancer.ClusterRule.LeastEntry` | images/dataplane/src/snapshot.rs:346-350 | finds a minimal entry in any iteration order, and none only in an empty map |
| `Balancer.ClusterRule.LeastConn` | images/dataplane/src/snapshot.rs:340-361 | picks an endpoint of minimal count with its own counter; the fallback to round robin is never taken, since the cursor does not move |
| `Balancer.ClusterRule.Choose` | images/dataplane/src/snapshot.rs:313-319 | a round-robin cluster yields the endpoint at the cursor, with its own counter, and advances the cursor by one; a least-connections cluster yields a least loaded one and leaves the cursor; without endpoints there is nothing and nothing changes |
| `InFlight.Guard.constructor` | images/dataplane/src/proxy.rs:447-454 | increments the wrapping counter it holds |
| `InFlight.Guard.Drop` | images/dataplane/src/proxy.rs:456-462 | decrements the wrapping counter it holds |
| `InFlight.GuardJoins` | images/dataplane/src/proxy.rs:448-453 | a joining guard keeps the count of holders modulo the word |
| `InFlight.GuardLeaves` | images/dataplane/src/proxy.rs:457-461 | so does a leaving one, whose cell counts at least one holder |
| `InFlight.Proxy.Replace` | images/dataplane/src/grpc.rs:246-251 | a new table starts from zero on cells that no live guard holds, and touches no older cell |
| `InFlight.Proxy.Select` | images/dataplane/src/snapshot.rs:313-319 | selection follows the policy of the named cluster, touches that cluster's cursor alone, changes no counter and yields a cell of the current table |
| `InFlight.Proxy.Begin` | images/dataplane/src/proxy.rs:81-85 | every cell ever allocated still equals its number of live guards modulo 2^64; only the guard's cell changes, and below 2^64 requests it goes up by one |
| `InFlight.Proxy.End` | images/dataplane/src/proxy.rs:456-462 | the same on completion; below 2^64 requests the decrement never underflows |
| `InFlight.CellsCountGuards` | images/dataplane/src/proxy.rs:443-462 | a cell is exactly the number of its live guards, and zero once everything has drained |
| `RoundRobin.WindowRounds` | images/dataplane/src/snapshot.rs:333 | one number of rounds fits all endpoints of a window without wrap |
| `RoundRobin.FairWithoutWrap` | images/dataplane/src/snapshot.rs:328-337 | counts differ by at most one on windows without a wrap |
| `RoundRobin.FairOnWholeRounds` | images/dataplane/src/snapshot.rs:328-337 | and on all windows when the number of endpoints divides the word |
| `RoundRobin.FairAcrossOneWrap` | images/dataplane/src/snapshot.rs:328-337 | and by at most two across one wrap |
| `RoundRobin.PartialRoundIsUnfair` | images/dataplane/src/snapshot.rs:333 | otherwise the wrap hits one endpoint twice before it hits another |
| `RoundRobin.AlwaysFairIff` | images/dataplane/src/snapshot.rs:328-337 | every window is fair to within one if and only if the number of endpoints divides 2^64 |
| `RoundRobin.CallMany` | images/dataplane/src/snapshot.rs:313-337 | after any number of `get_endpoint` calls on a round-robin cluster each endpoint was picked, with its own counter, as often as the drawn tickets hit it: within one of each other without a wrap or on whole rounds, within two across one wrap |
| `RoundRobin.InterleavingsPickTickets` | images/dataplane/src/snapshot.rs:328-337 | in every interleaving of threads, once all have picked, each endpoint was picked as often as the drawn window of tickets hits it |
| `RoundRobin.InterleavingsSpread` | images/dataplane/src/snapshot.rs:328-337 | so every bound on windows of tickets bounds the picks of every interleaving |
| `RoundRobin.ThreadsFairIff` | images/dataplane/src/snapshot.rs:328-337 | every interleaving from every cursor is fair to within one if and only if the number of endpoints divides 2^64 |
| `LeastConn.RunKeepsBound` | images/dataplane/src/snapshot.rs:340-361 | counted plus pending requests stay within the number of slots of every count, over every run |
| `LeastConn.DriftIsBounded` | images/dataplane/src/proxy.rs:76-85 | from fresh counters and without completions, with at most p requests between selection and increment, counts stay within p of each other |
| `LeastConn.DriftIsAttained` | images/dataplane/src/proxy.rs:76-85 | with two endpoints or more some run drives two counts exactly p apart |
| `LeastConn.SelectStep` | images/dataplane/src/snapshot.rs:313-361 | `get_endpoint` on a least-connections cluster is an enabled selection of the step system and changes no count |
| `LeastConn.CountStep` | images/dataplane/src/proxy.rs:81-85 | the guard on the selected counter is the counting step of the step system |
| `LeastConn.StartMany` | images/dataplane/src/proxy.rs:76-85 | after any number of serial starts, each by `get_endpoint` on a least-connections cluster with fresh counters, no two counts are more than one apart |
| `Headers.ApplyHeaderRewrites` | images/dataplane/src/proxy.rs:414-441 | each header ends with the effect of its last effective Set or Remove, or its original values, followed by its later valid Appends in order |
| `Headers.RewrittenByRule` | images/dataplane/src/proxy.rs:415-440 | the closed form rule by rule: another name, a missing or a refused value changes nothing, removing leaves no value, setting its own alone, appending adds its own at the end |
| `Headers.LastResetIsLast` | images/dataplane/src/proxy.rs:415-440 | no rule behind the chosen reset resets the name |
| `Headers.FoldedIsRewritten` | images/dataplane/src/proxy.rs:415-440 | applying the rules one after the other is that closed form |
| `Headers.OnlyOwnRulesMatter` | images/dataplane/src/proxy.rs:414-441 | a header depends on the rules of its own name alone |
| `Headers.InterleavingIsIrrelevant` | images/dataplane/src/proxy.rs:414-441 | two lists with the same rules for each name give the same header map |
| `Headers.DifferentNamesCommute` | images/dataplane/src/proxy.rs:414-441 | exchanging neighbouring rules on different names gives the same header map |
| `Headers.BuildHeaderRewrites` | images/dataplane/src/snapshot.rs:393-425 | the rules are what the items say, in order and without omission: the trimmed name, the mode named set, append or remove in any case, and the value unless it removes |
| `Retry.ForwardToUpstream` | images/dataplane/src/proxy.rs:538-585 | for every outcome stream the initial request goes first and once, replays follow only for a reusable body, attempts stop at the first answer or the limit, and the result is that answer or the literal message of the last attempt, an error or a timeout, with the address |
| `Retry.AttemptsClosedForm` | images/dataplane/src/proxy.rs:550-577 | the number of attempts is the smaller of the limit and the leading failures plus one, and no other |
| `Retry.Forward` | images/dataplane/src/proxy.rs:119-146 | at least one attempt and at most ten under the clamp, exactly one for a body that has not ended, replays that differ from the first request in an emptied body alone, hence not at all if and only if the ended body was empty, and never the default message |
| `Signin.PercentEncode` | images/dataplane/src/proxy.rs:319-331 | encodes byte by byte |
| `Signin.EncodeByteIs` | images/dataplane/src/proxy.rs:319-331 | letters, digits and `-._~` stand for themselves; any other byte is a percent sign and its two uppercase hexadecimal digits |
| `Signin.EncodingRoundTrip` | images/dataplane/src/proxy.rs:319-331 | percent-decoding gives back exactly the original bytes |
| `Signin.EncodedAlphabet` | images/dataplane/src/proxy.rs:320 | only unreserved characters and percent signs come out |
| `Signin.BuildSigninLocation` | images/dataplane/src/proxy.rs:303-317 | on a safe template and an inert host the location is the simultaneous substitution of host, encoded path and query, and scheme, and the inserted URI decodes to the original; otherwise it is the three replacements in order |
| `Signin.SequentialIsSimultaneous` | images/dataplane/src/proxy.rs:313-316 | on a safe template and an inert host three passes are one substitution |
| `Signin.SigninLocation` | images/dataplane/src/proxy.rs:303-317 | the redirect is that substitution and its request URI decodes to the original path and query |
| `Signin.SafeHostIff` | images/dataplane/src/proxy.rs:313-315 | all safe templates are substituted simultaneously if and only if no `$` of the host begins or could begin a later variable |
| `Signin.SafeTemplateIff` | images/dataplane/src/proxy.rs:313-315 | a template is substituted simultaneously for all inert hosts and all paths if and only if it nowhere has a proper beginning of a later variable directly followed by an earlier one |
| `Signin.StrayDollarIsCompleted` | images/dataplane/src/proxy.rs:313-315 | a `$` in front of the host's variable is unsafe: a host that spells the rest of the scheme's variable has it replaced by the scheme |
| `Signin.TheNamesAreProper` | images/dataplane/src/proxy.rs:313-315 | the three variables of the source are among those the theorems hold for |
| `Text.TrimIdempotent` | images/dataplane/src/snapshot.rs:63 | trimming leaves a trimmed string, and leaves a trimmed string alone |
| `Text.TrimCuts` | images/dataplane/src/snapshot.rs:63 | trimming cuts white space off both ends and nothing else |
| `AuthLists.NormalizeList` | images/dataplane/src/snapshot.rs:60-75 | the loop computes the normalised list |
| `AuthLists.NormalizeIsNormal` | images/dataplane/src/snapshot.rs:60-75 | entries are trimmed and not empty, no two agree ignoring case, and every non-empty item is represented |
| `AuthLists.NormalizeKeepsOrder` | images/dataplane/src/snapshot.rs:60-75 | what is kept is the first item of each class, in order |
| `AuthLists.NormalizeHolds` | images/dataplane/src/snapshot.rs:60-75 | the normalised list holds exactly the non-blank items, trimmed, that no earlier item trims to ignoring case |
| `AuthLists.NormalizeIdempotent` | images/dataplane/src/snapshot.rs:60-75 | normalising twice is normalising once |
| `AuthLists.CopyAuthHeaders` | images/dataplane/src/proxy.rs:218-225 | exactly the named headers that the response carries are set, each to the response's first value |
| `AuthLists.ParsesIff` | images/dataplane/src/proxy.rs:220 | a name is accepted if and only if it has 1 to 65,535 characters, all of them token characters |
| `AuthLists.CopiesUnchangedIff` | images/dataplane/src/proxy.rs:218-225 | normalising the names changes the copied headers for no request and no response if and only if every item that trims to a token has a twin, ignoring case, that is one untrimmed |
| `AuthLists.PaddedNameIsCopied` | images/dataplane/src/proxy.rs:218-225 | the list of one padded name is changed |
| `AuthLists.SkipsIff` | images/dataplane/src/proxy.rs:162 | a path is skipped if and only if it continues a listed one |
| `AuthLists.SkipDecisionsKeptIff` | images/dataplane/src/proxy.rs:161-164 | normalising the skip paths changes no decision if and only if every item begins with a kept one and every kept one begins with an item |
| `AuthLists.CaseVariantIsDropped` | images/dataplane/src/proxy.rs:161-164 | of two paths that differ in case alone the second is lost |
| `AuthLists.EmptyItemIsDropped` | images/dataplane/src/proxy.rs:161-164 | an empty item, which skips everything, is lost |
| `AuthLists.ParseCsvList` | images/controlplane/internal/controller/utils.go:284-300 | the loop keeps the trimmed fields that are not empty, each once, in order |
| `AuthLists.UniqueIsClean` | images/controlplane/internal/controller/utils.go:284-300 | what is kept is trimmed, not empty and without duplicates, and every non-blank field is there |
| `AuthLists.FieldsJoin` | images/controlplane/internal/controller/utils.go:285 | the fields joined by commas give back the string |
| `AuthLists.JoinFields` | images/controlplane/internal/controller/utils.go:285 | splitting undoes joining of fields without commas |
| `AuthLists.FieldsIff` | images/controlplane/internal/controller/utils.go:285 | the fields are the only non-empty list of comma-free strings whose joining gives the string |
| `AuthLists.ParsedListsNormalize` | images/dataplane/src/snapshot.rs:77-78 | on a list that the control plane parsed, normalisation changes no copy, and no skip decision if and only if every path begins with the first of its or another class of case variants |
| `AuthLists.CaseVariantIsSentAndDropped` | images/controlplane/internal/controller/utils.go:284-300 | the annotation `/API,/api` is sent as two paths and loses the second |
| `AuthLists.DistinctPathsKeepDecisions` | images/dataplane/src/snapshot.rs:77-78 | in particular no decision when no two parsed paths agree ignoring case |

## Left out

- The Gateway API controller and its snapshot: unfinished in the source, and mostly client calls.
- TLS material: `buildTLSBundle`, PEM, X.509, rustls, secrets and SNI matching; the certificate of an Ingress is an input, and the data plane's certificates are an opaque function of a snapshot.
- The resource versions, GeoIP and policy fields of a snapshot, which the Ingress controller leaves empty.
- The contents of version hashes: they print pointers, so nothing is claimed about their stability.
- Listeners, process wiring, HTTP clients, DNS, Helm charts and end-to-end tests.
- Real time: timeouts and sleeps are outcomes; the gRPC stream is taken to be ordered, and a server goroutine that outlives its client is a stream nobody reads.
- `Watch`: its endless loop has no object form; each of its receive, send, stop and remove steps is an action of `Distribution`.
- Parsing of URIs, authorities, YAML annotations and integers; the auth subrequest itself, its cookie test and the forwarded headers.
- `portProtocol` and `resolveServicePortName`: the protocol never reaches a snapshot, and the port name is an input of the merge.
- The atomicity of the least-connections scan: the counters are read in one step; several readers between selection and increment are modelled.
- The order in which a header map yields different names.
- A nil path type, which the compiler dereferences; Kubernetes requires one.
- Completions are not part of the runs in `LeastConn`: requests that end on one endpoint only can leave any spread behind.
