# A Dafny model of RPaaS v2

RPaaS v2 is a Kubernetes operator and HTTP API that gives applications managed nginx reverse proxies. This
project models the parts of it that hold decisions, as the code makes them, and proves what they guarantee.
`dafny verify dfyconfig.toml` checks everything.

## What is modelled

- **User operations on an instance** (`Mutation.dfy`, on `InstanceSpec.dfy` and `KeyedList.dfy`). The class
  `Mutator` edits slices and maps in place as `mutation.go` does. Every run of it refines put and remove on
  finite maps, keeps the order of other entries, and leaves the spec alone on an error.
- **From spec to servers** (`Servers.dfy`, `ServerProperties.dfy`). `produceServers`, loop by loop, with maps
  visited in any order. One predicate, `Compiled`, describes the whole result; it admits one result, and what
  each server serves is proved of it. The two files compose: whatever a user does, every compiled server
  answers each path with what the same operations leave in a finite map.
- **Validate, then commit** (`Cluster.dfy`, `ValidationController.dfy`, `ValidationManager.dfy`). The API
  server is a state machine over versions, generations and a separate status; of a status write it checks the
  version and nothing else. The controller reads through a cache that may show any version there ever was. That
  its writes are backed by what it read is proved of its code, request by request, in the world each one
  meets, and that is what keeps the invariant. The API side submits a candidate, polls, and then performs the
  call. Other actors' steps come between any two requests, as a schedule that every claim quantifies over.
- **Canary upstreams** (`Upstream.dfy`, `CanaryGraph.dfy`). The five checks of `upstream.go`, the option list
  they guard, and the graph invariant they add up to.
- **State kept over reconciles** (`ConfigHistory.dfy`, `SessionTickets.dfy`). The bounded ConfigMap history and
  the TLS session-ticket slots with their JSON Patch rotation.
- **Certificates** (`CertRequests.dfy`, `CertReconcile.dfy`, `CertProperties.dfy`, `NginxCertificates.dfy`,
  `CertificatePath.dfy`). Grouping of requests, reconciliation of cert-manager certificates in one namespace,
  the list of certificates nginx gets, and the path from a requested DNS name to the server that presents it.
- **Smaller pieces** (`Flavors.dfy`, `Events.dfy`, `Macro.dfy`). Flavor rules over an instance's life, the
  in-place event filter, line-by-line macro expansion. `Ordering.dfy` and `Whitespace.dfy` hold what several
  modules share.

Besides the laws of whole runs, what each operation accepts, stores and answers is stated field by field, in terms of
its inputs only, so that no definition rests on itself.

Errors are kinds, not message texts. `sort.Slice` is represented by a method whose contract says "a sorted
permutation" and nothing about equal elements. Iteration over a Go map is a loop that picks any remaining key.

## What the code does that one might not expect

Each of these is a lemma with a concrete input or a family of inputs, most with an exact condition beside it.

- A default path listed twice shifts the position index, and an override lands on another route
  (`ServerProperties.DuplicateDefaultLosesRoute`). Servers answer as they should exactly when paths are listed
  once (`ServerProperties.LocationsServedIff`), and `mutation.go` sees to that.
- An extending server block is glued to the default block of type `server`, whatever its own type
  (`ServerProperties.ExtensionLosesDefault`, `ServerProperties.ExtendsOwnTypeIff`).
- A validation pod tests the ConfigMap there is when it starts, which may be another spec's
  (`Cluster.VerdictMayBeOnAnotherSpec`; exactly when not, `Cluster.TestedOwnConfigIff`).
- A second client that submits during the wait can turn the answer into one about its own spec
  (`ValidationManager.IntrusionMisleads`; exactly when, `ValidationManager.VerdictGivenOnSpecIff`).
- Going back to the oldest stored configuration with the history over its limit deletes that configuration
  just before nginx is pointed at it (`ConfigHistory.RollbackLosesConfig`).
- The first listed certificate request of a group does not get its default DNS name although
  `DNSNamesDefault` is documented to add it (`CertRequests.ListedDefaultIsIgnored`).
- Issuers that differ by a dot for a dash share one certificate, which every pass then rewrites twice
  (`CertProperties.DottedIssuersDisagree`, `CertProperties.DottedIssuersShareSlug`).
- A pass for one instance can remove or overwrite another's certificate, when the other's certificate is named
  after the first instance or the two full names coincide (`CertProperties.NamesakeIsRemoved`,
  `CertProperties.SiblingIsKeptIff`).
- A certificate made by hand that reads as asked satisfies a pass and is never taken over
  (`CertProperties.HoldoutStays`, `CertProperties.OwnedIsWantedIff`).
- Setting a flavor and later adding one that it excludes is accepted, unless the second also excludes the
  first (`Flavors.LaterAdditionConflicts`).
- Expansion of a text without macros adds a line break, but leaves the text alone when no macro is registered
  (`Macro.PlainTextIsKept`, and the contract of `Macro.ExpandWithOptions`).
- The path pattern of a route is anchored on the left only, so anything may follow the slash, spaces included
  (`Mutation.PathMayHoldAnything`).

## Model

| member | source | states |
|---|---|---|
| `KeyedList.PutIsMapUpdate` | internal/pkg/rpaas/mutation.go:106-110 | Replace-or-append on a list with distinct keys is update of the map it stands for, and leaves every key where it was |
| `KeyedList.RemoveIsMapDelete` | internal/pkg/rpaas/mutation.go:116-124 | Cutting out the first entry of a key is deletion from the map, and keeps the order of the rest |
| `Mutation.Mutator.HasPath` | internal/pkg/rpaas/mutation.go:258-266 | The loop finds the first location of a (server name, path), and reports absence exactly when there is none |
| `Mutation.Mutator.HasServerBlock` | internal/pkg/rpaas/mutation.go:268-276 | Likewise for (server name, type) of server blocks |
| `Mutation.Mutator.UpdateRoute` | internal/pkg/rpaas/mutation.go:88-113 | The in-place edit yields exactly the specified spec or the specified error with the spec untouched |
| `Mutation.Mutator.DeleteRoute` | internal/pkg/rpaas/mutation.go:115-126 | The same for deleting a route |
| `Mutation.Mutator.UpdateBlock` | internal/pkg/rpaas/mutation.go:27-62 | The same for setting a block of the instance or of one server |
| `Mutation.Mutator.DeleteBlock` | internal/pkg/rpaas/mutation.go:64-86 | The same for deleting one |
| `Mutation.Mutator.BindApp` | internal/pkg/rpaas/mutation.go:128-170 | The same for binding: internal hosts for internal binds, `tcp` URLs reduced to their host, `udp` refused, hosts never bound twice |
| `Mutation.Mutator.UnbindApp` | internal/pkg/rpaas/mutation.go:172-193 | The same for unbinding: the first bind of the name goes |
| `Mutation.Mutator.ValidateRoute` | internal/pkg/rpaas/mutation.go:227-256 | Succeeds exactly on the admitted routes |
| `Mutation.Mutator.ValidateBlock` | internal/pkg/rpaas/mutation.go:195-225 | Succeeds exactly on the admitted blocks |
| `Mutation.StepRefines` | internal/pkg/rpaas/mutation.go:22-193 | Every operation on the slices has the result, or the error, of the intended operation on finite maps, and keeps keys distinct |
| `Mutation.RunRefines` | internal/pkg/rpaas/mutation.go:22-193 | So does every run of operations, and every reached spec is well formed |
| `Mutation.RouteOrderIsKept` | internal/pkg/rpaas/mutation.go:27-193 | Under any operation the keys of routes stay in place, one is appended, or one is cut out |
| `Mutation.BlockOrderIsKept` | internal/pkg/rpaas/mutation.go:27-193 | So do the keys of server blocks |
| `Mutation.BindOrderIsKept` | internal/pkg/rpaas/mutation.go:27-193 | And the binds, of which an unbind cuts out the first of the name |
| `Mutation.DeleteUndoesUpdate` | internal/pkg/rpaas/mutation.go:88-126 | Adding a route under a free key and deleting it gives back the spec |
| `Mutation.RouteIsStoredAsGiven` | internal/pkg/rpaas/mutation.go:88-113 | Field by field, which routes are accepted (also lines 227-256) and what is stored for one |
| `Mutation.BlockIsStoredAsGiven` | internal/pkg/rpaas/mutation.go:27-62 | The same for blocks (also lines 195-225) |
| `Mutation.BindIsStoredAsGiven` | internal/pkg/rpaas/mutation.go:128-170 | Which host a bind takes from which list, what it is reduced to, and when it is refused |
| `Mutation.CutIsWithoutFirst` | internal/pkg/rpaas/mutation.go:178-186 | The index loop of an unbind removes the first bind of the name, defined independently by recursion |
| `Servers.NameServers` | internal/pkg/rpaas/nginx/servers.go:56-63 | One bare server per name in the locations |
| `Servers.ApplyServerBlocks` | internal/pkg/rpaas/nginx/servers.go:65-87 | Every named server, old or new, holds the instance's blocks overlaid by its own in order |
| `Servers.SpreadDefaults` | internal/pkg/rpaas/nginx/servers.go:89-100 | Every server gets the default locations in spec order, whatever order the map is visited in, and the index is that of the source |
| `Servers.OverrideLocations` | internal/pkg/rpaas/nginx/servers.go:102-113 | Own locations overwrite at the indexed position or are appended |
| `Servers.CollectWildcards` | internal/pkg/rpaas/nginx/servers.go:115-123 | Exactly the listed wildcard hosts, each with the last certificate listing it |
| `Servers.ApplyTLS` | internal/pkg/rpaas/nginx/servers.go:125-145 | After the certificates, servers exist for all their hosts, each with the last certificate listing it |
| `Servers.ApplyWildcards` | internal/pkg/rpaas/nginx/servers.go:147-161 | In any visiting order, servers without a certificate get that of the one-label wildcard over them, if listed |
| `Servers.Group` | internal/pkg/rpaas/nginx/servers.go:163-175 | Exactly the servers with the mark, names strictly ascending |
| `Servers.CertifiedServers` | internal/pkg/rpaas/nginx/servers.go:48-161 | After all loops the map sends each name to the server described without loops |
| `Servers.ProduceServers` | internal/pkg/rpaas/nginx/servers.go:47-182 | The result is the default server and then one server per distinct name, exact before wildcard, each as described |
| `Servers.InitListenOptions` | internal/pkg/rpaas/nginx/servers.go:184-198 | The first default server and the first TLS server get the options, and nothing else changes |
| `ServerProperties.CompilationIsUnique` | internal/pkg/rpaas/nginx/servers.go:96-182 | The description admits one result, so the order of map iteration cannot show |
| `ServerProperties.IndexIsExactIffPathsDistinct` | internal/pkg/rpaas/nginx/servers.go:89-100 | The position index is right exactly when no default path is listed twice |
| `ServerProperties.MisplacedOverride` | internal/pkg/rpaas/nginx/servers.go:94-108 | With a path listed twice, an override of the last route replaces the one before it |
| `ServerProperties.DuplicateDefaultLosesRoute` | internal/pkg/rpaas/nginx/servers.go:94-108 | The route before it is then not served at all: the family that fails the condition of `LocationsServedIff` by one repeated default |
| `ServerProperties.MisplacedOverrideExample` | internal/pkg/rpaas/nginx/servers.go:94-108 | A concrete spec whose override lands on the wrong route |
| `ServerProperties.OverrideServes` | internal/pkg/rpaas/nginx/servers.go:102-113 | Overriding keeps paths distinct and default positions, and looks up own locations, the last of a path, before default ones |
| `ServerProperties.LocationsServedIff` | internal/pkg/rpaas/nginx/servers.go:89-113 | For any list: a server answers each path with its own location, else the default one, and each path once, exactly when no default path is listed twice and no extra own path is; then defaults keep spec order |
| `ServerProperties.DistinctRoutesAreListedOnce` | internal/pkg/rpaas/nginx/servers.go:89-113 | Unique (server name, path) pairs are enough for that |
| `ServerProperties.BlocksServed` | internal/pkg/rpaas/nginx/servers.go:65-87 | For any list, a server's block of a type is the last contribution under its name, else the instance's |
| `ServerProperties.BlockTextServed` | internal/pkg/rpaas/nginx/servers.go:78-85 | The text of the block listed last: as given, or glued to the default block of type `server` |
| `ServerProperties.ExtendsOwnTypeIff` | internal/pkg/rpaas/nginx/servers.go:78-82 | An extending block is glued to the default of its own type exactly when that type is `server` or the texts coincide |
| `ServerProperties.ExtensionLosesDefault` | internal/pkg/rpaas/nginx/servers.go:78-82 | The family that fails it: another type, its default not empty and none for `server`; the default is lost |
| `ServerProperties.LastListingIsLast` | internal/pkg/rpaas/nginx/servers.go:141-145 | A host's certificate is the last one listing it, and it has one exactly when listed |
| `ServerProperties.CertificateServed` | internal/pkg/rpaas/nginx/servers.go:115-161 | TLS exactly when the name or its one-label wildcard is listed; which secret; `Wildcard` exactly for TLS servers with a wildcard name |
| `ServerProperties.ListedNameHasTLS` | internal/pkg/rpaas/nginx/servers.go:141-145 | A name some certificate lists has TLS, with the secret of the last one listing it |
| `ServerProperties.WildcardCoversOneLabel` | internal/pkg/rpaas/nginx/servers.go:147-161 | A name none lists, its first label cut off, has TLS exactly when the wildcard over the rest is listed, with the secret of the last certificate listing that |
| `ServerProperties.DotlessNameHasNone` | internal/pkg/rpaas/nginx/servers.go:152-154 | A name without a dot that none lists has no TLS |
| `ServerProperties.CompiledNames` | internal/pkg/rpaas/nginx/servers.go:56-145 | Exactly the names of locations, server blocks and certificates are compiled |
| `ServerProperties.CompiledMarks` | internal/pkg/rpaas/nginx/servers.go:48-51 | Only the first server is the default one, with the instance's blocks; wildcard servers are those with TLS and a name beginning with an asterisk and a dot (line 137) |
| `ServerProperties.CompiledOrder` | internal/pkg/rpaas/nginx/servers.go:163-204 | Wildcard servers come last, each kind in the order of the first differing character of names |
| `ServerProperties.EveryReachedSpecIsServed` | internal/pkg/rpaas/nginx/servers.go:47-182 | After any run of user operations, every compiled server, the default one included, serves what the same operations leave in finite maps |
| `Cluster.StepKeepsConsistent` | controllers/validation_controller.go:56-221 | Every step of any actor, status writes being backed by two reads, keeps: versions name contents, and a settled verdict is that of a pod made for the version's own spec |
| `Cluster.RunKeepsConsistent` | controllers/validation_controller.go:56-221 | So does every interleaving |
| `Cluster.UnbackedWriteBreaksConsistent` | controllers/validation_controller.go:163-167 | One status write that is not backed breaks it, so it rests on the controller's own checks |
| `Cluster.VerdictIsFinal` | controllers/validation_controller.go:56-58 | Once settled, a generation keeps its verdict through every later write |
| `Cluster.LastTakenIsHeld` | internal/pkg/rpaas/validation/manager.go:332-351 | The spec held after a run is that of the last submission the server took |
| `Cluster.StatusKeepsConsistent` | controllers/validation_controller.go:194-210 | A backed write from stale reads meets the very version that was read, or is refused |
| `Cluster.VerdictIsPhaseAndCode` | controllers/validation_controller.go:169-192 | There is a verdict exactly on phase Succeeded with exit code 0 and on phase Failed with another, the first valid and the second not |
| `Cluster.TestedOwnConfigIff` | controllers/validation_controller.go:108-148 | Every pod that started in a run mounted its own spec's configuration exactly when the ConfigMap in place at each start was of the starting pod's spec |
| `Cluster.SettledVerdictWasTested` | controllers/validation_controller.go:108-221 | In such runs every settled verdict was given after nginx read that spec's configuration |
| `Cluster.VerdictMayBeOnAnotherSpec` | controllers/validation_controller.go:108-148 | In others it need not be: a run, every write backed by current reads, that records another spec's result |
| `ValidationController.Pass` | controllers/validation_controller.go:42-157 | A pass acts only on an unsettled read; its requests and answer follow from its reads of the pod and the server's replies; it gives the history of the pass as an ordered interleaving, its own writes backed where they are made |
| `ValidationController.Judge` | controllers/validation_controller.go:169-192 | The verdict and message found from the pod's status |
| `ValidationController.FinishValidation` | controllers/validation_controller.go:159-221 | The verdict of an ended pod with the wanted hash is written and, if taken, the pod deleted |
| `ValidationController.StatusWrittenIff` | controllers/validation_controller.go:159-221 | A pass writes a status exactly on those phases and exit codes of a pod with the wanted hash: which verdict, which message, which generation |
| `ValidationController.ReconcilePod` | controllers/validation_controller.go:381-409 | The pod is created, one in the way being deleted first unless it derives from the wanted one |
| `ValidationController.AllBackedIsHonest` | controllers/validation_controller.go:42-221 | If others back their status writes too, the whole interleaved history is honest |
| `ValidationController.PassesAreHonest` | controllers/validation_controller.go:42-221 | A run every status write of which is a step of some pass is honest, however passes overlap |
| `ValidationController.Reconcile` | controllers/validation_controller.go:42-221 | A pass keeps the invariant whatever it read and whoever moved in between, if others back their writes too |
| `ValidationManager.WaitController` | internal/pkg/rpaas/validation/manager.go:325-377 | Submit and poll give the specified answer and world for every schedule, and the answer owed |
| `ValidationManager.PollAnswersAsOwed` | internal/pkg/rpaas/validation/manager.go:354-376 | The first of 60 reads that finds the resource gone or with a verdict decides, an invalid one by its error; a timeout comes exactly when there is none |
| `ValidationManager.WaitAnswersAsOwed` | internal/pkg/rpaas/validation/manager.go:325-377 | So too with a verdict that was there already, and a refusal if the resource changed before the submission |
| `ValidationManager.WaitIsRun` | internal/pkg/rpaas/validation/manager.go:325-377 | A wait is a run of the others' steps and its one submission |
| `ValidationManager.WaitIsAboutHeldSpec` | internal/pkg/rpaas/validation/manager.go:356-377 | A verdict that ends a wait is about the spec the resource holds then |
| `ValidationManager.VerdictGivenOnSpecIff` | internal/pkg/rpaas/validation/manager.go:325-377 | A verdict that ends a wait was given on the spec asked for exactly when the last submission taken before it was read was of that spec |
| `ValidationManager.WaitIsTruthful` | internal/pkg/rpaas/validation/manager.go:325-377 | Then "valid" means a pod made for it ended Succeeded with exit code 0, and "invalid" that one failed with this message |
| `ValidationManager.WaitAmongPassesIsTruthful` | internal/pkg/rpaas/validation/manager.go:325-377 | Both hold where every status write there ever was is a step of a pass of the controller |
| `ValidationManager.UndisputedWaitIsTruthful` | internal/pkg/rpaas/validation/manager.go:325-377 | It is enough that nobody else submits another spec after this one is in; earlier submissions are shut out by the version |
| `ValidationManager.IntrusionMisleads` | internal/pkg/rpaas/validation/manager.go:363-368 | The family that fails it: a later submission of another spec is taken, and the wait ends "valid" for a spec no pod was made for |
| `ValidationManager.CallDirectly` | internal/pkg/rpaas/k8s.go:1257-1270 | The unvalidated call stores the mutated spec or leaves the instance |
| `ValidationManager.Call` | internal/pkg/rpaas/validation/manager.go:231-306 | The validated call follows its specification for every schedule |
| `ValidationManager.OnlySuccessChangesInstance` | internal/pkg/rpaas/validation/manager.go:231-306 | If the instance does not change between the two reads, only a call whose wait ended "valid" changes it, and stores exactly its candidate, whatever else others do |
| `ValidationManager.CallRepliesAsOwed` | internal/pkg/rpaas/validation/manager.go:231-306 | A call fails where reading or changing the instance does, or with what the wait owes, and else succeeds |
| `ValidationManager.InternalBindIff` | api/v1alpha1/rpaasinstance.go:160-168 | A bind is internal exactly when the cluster label is there, not empty, and the app's |
| `ValidationManager.ValidatedCallStoresOnlyValidSpecs` | internal/pkg/rpaas/validation/manager.go:231-306 | The verdict a successful call went by was given on the spec it stored exactly when the last submission taken was of that spec; and then a pod had ended well for it |
| `Upstream.UpstreamManager.EnsureUpstreamOptions` | internal/pkg/rpaas/upstream.go:78-197 | The call is refused or stores the normalised option, exactly as the specification says |
| `Upstream.UpstreamManager.DeleteUpstreamOptions` | internal/pkg/rpaas/upstream.go:199-241 | The primary goes, and so does every reference to it as a canary |
| `Upstream.UpstreamManager.ValidateCanaryBinds` | internal/pkg/rpaas/upstream.go:345-396 | Succeeds exactly when every canary is another option's primary, has no canaries and is nobody else's, and at most one of those given has a weight |
| `Upstream.UpstreamManager.ValidateCanaryWeightRule` | internal/pkg/rpaas/upstream.go:243-297 | Fails exactly when the weight is positive and another canary of the same parent has one |
| `Upstream.UpstreamManager.ValidateTrafficShapingOptions` | internal/pkg/rpaas/upstream.go:399-420 | Succeeds exactly on the allowed shaping settings |
| `Upstream.UpstreamManager.ValidateLoadBalanceOptions` | internal/pkg/rpaas/upstream.go:423-456 | Succeeds exactly on known algorithms with a hash key exactly for `chash` |
| `CanaryGraph.AcceptedIffGraphKept` | internal/pkg/rpaas/upstream.go:84-156 | In a sound state the checks accept exactly the calls whose own settings are allowed and that keep the graph a depth-one matching |
| `CanaryGraph.AcceptedIff` | internal/pkg/rpaas/upstream.go:84-165 | Field by field, which calls are accepted in a sound state: binds, graph, shaping, headers, algorithm |
| `CanaryGraph.StoredAsGiven` | internal/pkg/rpaas/upstream.go:167-194 | Field by field, what is stored for one, and that other options are left |
| `Whitespace.BlankIff` | internal/pkg/rpaas/upstream.go:314-318 | What trimming leaves nothing of, by code point |
| `CanaryGraph.EnsureKeepsSound` | internal/pkg/rpaas/upstream.go:78-197 | An accepted call keeps the state sound |
| `CanaryGraph.LookupInDropped` | internal/pkg/rpaas/upstream.go:215-234 | A deletion takes the primary out of the map and out of every canary list |
| `CanaryGraph.DeleteKeepsSound` | internal/pkg/rpaas/upstream.go:199-241 | A deletion keeps the state sound and leaves no reference behind |
| `CanaryGraph.EveryReachedStateIsSound` | internal/pkg/rpaas/upstream.go:78-241 | Every state reached by sequential calls is sound, binds changing freely in between |
| `CanaryGraph.CanariesExcludeShaping` | internal/pkg/rpaas/upstream.go:399-403 | In every reached state an upstream with canaries has no weight, header or cookie |
| `CanaryGraph.DroppedKeepsOrder` | internal/pkg/rpaas/upstream.go:211-239 | A deletion keeps the order of the other options |
| `CanaryGraph.WeightTakenIff` | internal/pkg/rpaas/upstream.go:243-297 | When the weight rule would stand in the way, option by option |
| `CanaryGraph.WeightRuleNeverFails` | internal/pkg/rpaas/upstream.go:243-297 | In a sound state the weight rule has nothing to reject |
| `CanaryGraph.ReferencedHasOption` | internal/pkg/rpaas/upstream.go:115-131 | A bind referenced as a canary already has its own option |
| `CanaryGraph.WeightRuleNeverRejects` | internal/pkg/rpaas/upstream.go:150-159 | So in every reachable state the "add" case and the rule's error cannot occur |
| `ConfigHistory.Reconciler.Reconcile` | controllers/rpaasinstance_controller.go:179-208 | Write, trim against the live configuration, then switch nginx |
| `ConfigHistory.Reconciler.DeleteOldConfig` | controllers/controller.go:1062-1082 | An oldest ConfigMap is deleted unless nginx uses it |
| `ConfigHistory.PassKeepsBound` | controllers/rpaasinstance_controller.go:179-208 | A pass keeps: at most L+1 stored, and at L+1 the oldest is not the live one |
| `ConfigHistory.StoredAfterPassIff` | controllers/rpaasinstance_controller.go:179-208 | Name by name, what a pass leaves: all there was and the new one, but for the oldest, which goes exactly over the limit, ten by default, and if not live |
| `ConfigHistory.HistoryIsBounded` | controllers/rpaasinstance_controller.go:179-208 | From nothing stored, never more than L+1 remain after a pass |
| `ConfigHistory.HistoryStaysBounded` | controllers/controller.go:1565-1577 | From any start, never more than one over the start or one over the limit |
| `ConfigHistory.LiveConfigIsNeverTrimmed` | controllers/controller.go:1068-1076 | What nginx uses when the pass begins is kept |
| `ConfigHistory.NewConfigSurvivesIff` | controllers/rpaasinstance_controller.go:179-208 | What nginx is switched to is stored exactly unless it was the oldest, not live, with the history over its limit |
| `ConfigHistory.RollbackLosesConfig` | controllers/rpaasinstance_controller.go:179-208 | A run from nothing stored after which nginx names a deleted ConfigMap |
| `SessionTickets.JsonPatchPayload` | controllers/controller.go:101-120 | The script's loop emits copies from the last slot down, then the replacement |
| `SessionTickets.RotationSucceedsIff` | controllers/controller.go:101-126 | The patch, applied in order, succeeds exactly when slot 0 and the sources are there, and shifts every slot by one |
| `SessionTickets.NewSessionTicketData` | controllers/controller.go:530-547 | Both loops together keep held slots, fill missing ones and drop the rest |
| `SessionTickets.TicketReconciler.ReconcileSecret` | controllers/controller.go:250-300 | The Secret after a pass, and whether it changed |
| `SessionTickets.RunKeepsAligned` | controllers/controller.go:250-300 | Over any run of passes and rotations the slots are exactly 0 to n-1 |
| `SessionTickets.SlotsAreTheLatestKeys` | controllers/controller.go:101-126 | For a fixed n, the slots in order are the keys rotated in, newest first, then the original ones, cut to n; passes change nothing |
| `SessionTickets.ResizeKeepsSurvivors` | controllers/controller.go:509-547 | Asking for another number of keys keeps the slots both numbers have |
| `SessionTickets.PassGivesSlots` | controllers/controller.go:468-515 | Asking to keep so many old keys gives that many slots and one more, held ones kept and missing ones drawn; asking for none removes the Secret |
| `SessionTickets.RepeatedPassIsIdle` | controllers/controller.go:288-300 | A repeated pass changes nothing although it draws fresh keys |
| `CertRequests.CertManagerRequests` | api/v1alpha1/rpaasinstance.go:67-126 | One request per non-empty name and one per issuer among unnamed ones, strictly ordered by name and issuer |
| `CertRequests.ArrangementIsUnique` | api/v1alpha1/rpaasinstance.go:108-124 | The order of the two maps cannot show |
| `CertRequests.GroupIsItsMembers` | api/v1alpha1/rpaasinstance.go:76-106 | A group's addresses are its members' concatenated in input order, its names likewise but for the first listed default, its other fields the first member's |
| `CertRequests.GroupHasAllNamesIff` | api/v1alpha1/rpaasinstance.go:92-105 | All names asked for are there exactly when the first member is not a listed one asking for the default name |
| `CertRequests.DefaultNameIsInZone` | api/v1alpha1/rpaasinstance.go:128-139 | The default name is the instance's in its zone, after the names listed |
| `CertRequests.InputsAndRequestsMatch` | api/v1alpha1/rpaasinstance.go:67-126 | Every input has its request in the result, by name or for lack of one by issuer, and every request an input |
| `CertRequests.RequestsAreOrdered` | api/v1alpha1/rpaasinstance.go:108-124 | No two are alike, and they come by name, then by issuer |
| `CertRequests.ListedDefaultIsIgnored` | api/v1alpha1/rpaasinstance.go:92-105 | A concrete request whose default name is dropped |
| `CertReconcile.Namespace.RemoveOldCertificates` | internal/controllers/certificates/cert_manager.go:105-143 | Exactly the instance's unrequested certificates go, with their secrets, and those labelled with its own name |
| `CertReconcile.Namespace.TakeOverPreviousSecret` | internal/controllers/certificates/cert_manager.go:145-183 | An earlier secret of the same certificate is copied exactly if it is the only one and the new name is free; two of them are an error |
| `CertReconcile.Namespace.ReconcileRequest` | internal/controllers/certificates/cert_manager.go:38-74 | One request, exactly: which error or certificate it answers with, and the certificates and secrets it leaves |
| `CertReconcile.Namespace.ReconcileCertManager` | internal/controllers/certificates/cert_manager.go:29-78 | A pass succeeds exactly when every requested certificate was already there and ready; then the state is as specified, else it stopped with the turn of the first that was not |
| `CertReconcile.UpsertsKeepServed` | internal/controllers/certificates/cert_manager.go:49-71 | Updates keep names and readiness |
| `CertProperties.UpsertsAt` | internal/controllers/certificates/cert_manager.go:38-74 | What a pass makes of one certificate: the last request's spec, and the instance's ownership exactly if some request differed |
| `CertProperties.CertificateSays` | internal/controllers/certificates/cert_manager.go:216-270 | Field by field, what the certificate of a requested name says after a successful pass: what the last request of that name does |
| `CertProperties.CertificateSaysGroup` | internal/controllers/certificates/cert_manager.go:216-270 | For a group that shares the name with no other, that is all its inputs ask for, in order |
| `CertProperties.CertificateIsNamed` | internal/controllers/certificates/cert_manager.go:362-364 | How a certificate is named, character by character |
| `CertProperties.TakenOverIff` | internal/controllers/certificates/cert_manager.go:145-183 | A new certificate's secret is a copy of the only one its instance had for it; none, several and others as they should be |
| `CertProperties.RequestedIsNeverRemoved` | internal/controllers/certificates/cert_manager.go:38-118 | No turn of a pass, whatever it answers, has lost a requested certificate |
| `CertProperties.OwnedIsWantedIff` | internal/controllers/certificates/cert_manager.go:29-78 | After a successful pass the owned certificates are the requested ones exactly when nobody else holds one that already reads as asked |
| `CertProperties.NothingStaleAfter` | internal/controllers/certificates/cert_manager.go:105-143 | A successful pass leaves nothing to remove |
| `CertProperties.SecondPassIsIdleIff` | internal/controllers/certificates/cert_manager.go:49-68 | A second pass writes nothing exactly when requests sharing a name want the same |
| `CertProperties.DottedIssuersDisagree` | api/v1alpha1/rpaasinstance_types.go:204-209 | An instance with two unnamed requests whose issuers share a name: they disagree, and every pass writes the certificate twice |
| `CertProperties.PairIsRewrittenTwice` | internal/controllers/certificates/cert_manager.go:62-68 | Two requests that share a certificate and disagree cost two writes a pass |
| `CertProperties.SiblingIsKeptIff` | internal/controllers/certificates/cert_manager.go:185-214 | Another instance's certificate is left alone exactly when it is not labelled with this instance's name and no full names coincide |
| `CertProperties.NamesakeIsRemoved` | internal/controllers/certificates/cert_manager.go:185-192 | An instance without requests removes the certificate that another's request, named after it, was served with |
| `CertProperties.HoldoutStays` | internal/controllers/certificates/cert_manager.go:49-68 | A certificate made by hand as asked satisfies a pass and is not taken over |
| `CertProperties.SurvivorKeepsSecretIff` | internal/controllers/certificates/cert_manager.go:120-140 | A certificate that stays keeps its secret exactly when no removed one names the same |
| `CertProperties.SurvivorsKeepSecrets` | internal/controllers/certificates/cert_manager.go:120-140 | Which is so while secrets bear their certificate's name |
| `CertProperties.SharedSecretIsLost` | internal/controllers/certificates/cert_manager.go:120-140 | The family that fails it: a certificate made by hand over the secret of one no longer asked for |
| `NginxCertificates.NewNginxTLS` | controllers/controller.go:1270-1334 | Each kept entry once per certificate name, in order of secret names |
| `NginxCertificates.KeptIsLast` | controllers/controller.go:1286-1315 | A name's entry is the last cert-manager certificate's, else the last user entry's |
| `NginxCertificates.LabelIsLastGiven` | controllers/controller.go:1274-1282 | A secret's label is the last one given under its name |
| `NginxCertificates.ListedInOrder` | controllers/controller.go:1327-1331 | Entries come in the order of their secrets' names |
| `NginxCertificates.OneListIff` | controllers/controller.go:1323-1331 | The order of the map cannot show exactly when names that kept entries of one secret kept equal entries |
| `NginxCertificates.SharedSecretShowsOrder` | controllers/controller.go:1286-1331 | The family that fails it: a certificate labelled otherwise than its secret, which a user entry names too |
| `NginxCertificates.ConsistentIsDetermined` | controllers/controller.go:1270-1334 | For certificates named and labelled as reconciliation does, there is one result |
| `CertificatePath.FoundIsConsistent` | internal/controllers/certificates/cert_manager.go:49-74 | Which is what a pass that finds everything as asked returns |
| `CertificatePath.IssuedRequestIsIdle` | internal/controllers/certificates/cert_manager.go:38-74 | There are such passes: one request whose certificate was issued as asked |
| `CertificatePath.FoundIsListed` | controllers/controller.go:1301-1321 | Every certificate a successful pass found is among what nginx gets, if labels tell certificates apart |
| `CertificatePath.FoundNamesAreServed` | internal/pkg/rpaas/nginx/servers.go:115-161 | And every DNS name it has then has a server with TLS, with the secret of a certificate found for it, or of one the user gave for the same name |
| `CertificatePath.RequestedNamesAreServed` | internal/pkg/rpaas/nginx/servers.go:115-161 | After a pass that finds everything as asked, these are the requested names and the secrets of requested certificates |
| `CertificatePath.SecondPassFindsAsAsked` | internal/controllers/certificates/cert_manager.go:29-78 | After any successful pass whose requests agree, the next one is such a pass |
| `CertificatePath.ServedFromSecondPass` | internal/controllers/certificates/cert_manager.go:29-78 | So from the second pass on every requested name is served |
| `Flavors.DiffFlavors` | internal/pkg/rpaas/k8s.go:1480-1494 | Added and removed flavors, exactly |
| `Flavors.CheckForIncompatibleFlavors` | internal/pkg/rpaas/k8s.go:1496-1508 | Finds a listed flavor exactly when there is one |
| `Flavors.ValidateFlavors` | internal/pkg/rpaas/k8s.go:1428-1478 | Succeeds exactly on acceptable lists, and every complaint is true |
| `Flavors.AcceptableIff` | internal/pkg/rpaas/k8s.go:1428-1508 | Flavor by flavor, which lists are acceptable in a catalogue without equal names |
| `Flavors.Manager.CreateInstance` | internal/pkg/rpaas/k8s.go:1395-1412 | A refused creation leaves nothing |
| `Flavors.Manager.UpdateInstance` | internal/pkg/rpaas/k8s.go:613-652 | A refused update leaves the list as it was |
| `Flavors.RunKeepsCreationOnly` | internal/pkg/rpaas/k8s.go:1428-1478 | Over any run, flavors are known and not repeated, and the creation-only ones are those of the creation |
| `Flavors.LaterAdditionConflicts` | internal/pkg/rpaas/k8s.go:1460-1463 | The family of two-call runs that ends with incompatible flavors |
| `Flavors.NeverConflictsIff` | internal/pkg/rpaas/k8s.go:1428-1508 | No run ends with incompatible flavors exactly when the lists are mutual for flavors that can be added later |
| `Events.KeepMatching` | internal/pkg/rpaas/k8s.go:1605-1613 | The swap-and-remove loop ends, leaving what the pure sieve leaves |
| `Events.SieveKeepsMatching` | internal/pkg/rpaas/k8s.go:1605-1613 | The sieve keeps exactly the matching events, each as often as listed |
| `Events.NewestComesFirst` | internal/pkg/rpaas/k8s.go:1615-1617 | No event is older than one after it |
| `Events.EventsForObject` | internal/pkg/rpaas/k8s.go:1604-1619 | The events of a kind and UID, newest first |
| `Events.EventsForObjectName` | internal/pkg/rpaas/k8s.go:1644-1659 | The events of a kind and name, newest first |
| `Events.ListingOrderIsForgotten` | internal/pkg/rpaas/k8s.go:1604-1619 | The order the API listed them in shows only among events of one instant |
| `Macro.IndentBlock` | pkg/macro/macro.go:150-171 | The loop's text is every line indented and rejoined, blank lines emptied |
| `Macro.IndentTwice` | pkg/macro/macro.go:150-171 | Indenting twice is indenting once by both |
| `Macro.IndentedLines` | pkg/macro/macro.go:150-171 | Line by line: empty if it is white space only, else with the indentation before it |
| `Macro.ExpandWithOptions` | pkg/macro/macro.go:70-124 | Lenient mode always gives the lines' texts; strict mode does unless a line errs, and then reports the first |
| `Macro.LineIsReplaced` | pkg/macro/macro.go:85-120 | A line that calls a macro with success becomes the indented block, any other is copied |
| `Macro.ExpansionDistributes` | pkg/macro/macro.go:70-124 | Expanding two texts joined by a line break is expanding each |
| `Macro.PlainTextIsKept` | pkg/macro/macro.go:86-92 | Text in which nothing expands is copied, with one more line break |
| `Macro.StrictAgreesWithLenient` | pkg/macro/macro.go:60-124 | Strict mode refuses exactly when some line has bad syntax or fails, reporting the first, and otherwise agrees with lenient mode |

## Left out

- Liveness of validation: a pod left from another spec with an equal pod spec is not replaced (controllers/validation_controller.go:394), so only safety is claimed.
- Concurrent writers of one instance: patches carry no resourceVersion, so run invariants are about sequential calls, and a patch stores the updated spec (section 2 of RFC 7396).
- Pointers between Go values: server structs, routes and requests are values in maps and slices here. A server struct is reachable from one map entry only; a location's content may be shared between servers (internal/pkg/rpaas/nginx/servers.go:97), but nothing writes through it.
- Nil and empty maps or slices are one value, so a spec comparison that tells them apart is not captured.
- Strings are sequences of code points: lengths and ordering of names outside ASCII, and letter case outside ASCII, follow that and not bytes.
- Error texts, logging, metrics and events written by the controllers.
- Libraries: URL parsing, DNS-1123 names, deny patterns and issuer resolution are parameters; the spec hash is taken as injective; derivation of pod specs is a parameter relation.
- Failures of the API server outside the validation protocol: a failed request ends the call before any claim about its result.
- In `reconcileCertManager` an error of the first read other than "not found" is not modelled; the source goes on with an empty certificate.
- Merging of plans and flavors, and nginx template text: decided by mergo and text/template.
- Macro lookup, parsing and execution: what a line expands to is a parameter, `createStructOnTheFly` included.
- Extra files with their validation wrappers and temporary ConfigMaps, certificate upload by users, AllowedUpstreams, and purge: storage and network calls with single-branch decisions.
- Pod annotations with certificate hashes, labels other than those looked up by, revision annotations: field copying.
- HPA, KEDA, PDB, cron job and Nginx object building, the HTTP handlers and the command-line client.
- `CanaryGraph.EveryReachedStateIsSound`: does not say that an option names an existing bind, because `UnbindApp` does not touch options; nor that a caller's `weightTotal` exceeds the weight, because no check reads it.
- `ConfigHistory.HistoryIsBounded`: for distinct creation times, passes without a failed step, no ConfigMap deleted from outside, and a list of ConfigMaps that is current, although the controller lists through a cache (controllers/controller.go:1050-1060).
- `SessionTickets.SlotsAreTheLatestKeys`: slots are numbered, the names `ticket.N.key` standing for them; how long keys are is not modelled.
- `Cluster.RunKeepsConsistent`: says a pod made for the spec ended with the verdict, which is less than nginx having read that spec's configuration; `Cluster.SettledVerdictWasTested` says when it had.
- `CertificatePath.ServedFromSecondPass`: for certificates that carry the label they were made with; a pass compares specs only, and does not restore a label changed from outside. A pass that writes hands nginx the certificates as it found them, so what it wrote shows from the next one on.
