# Cloud SQL Auth Proxy operator: a verified model

The operator watches `AuthProxyWorkload` resources. A pod admission webhook finds the resources
that apply to a new pod and adds one proxy container for each; a reconciler keeps the status of
every resource and uses a finalizer to see it deleted in order. This project models both, and the
naming scheme they share, and proves what they promise.

## How it is organised

| files | what they model |
|---|---|
| `Prelude`, `Numerals`, `Api` | shared types, `%d` and `%x` numerals, the Kubernetes values that are read and written |
| `Names` | FNV-1a and the name shortener |
| `PortTable`, `PortRuns`, `PortOrders` | the port table of one pod: one request, whole runs of requests, and what their order decides |
| `EnvVars` | the operator's environment table, and what it does to a container's list |
| `InstanceArgs` | the `connection?key=value&...` argument of one instance |
| `Configuration` | what configuring one pod computes, as functions on values |
| `PodGuarantees`, `PodErrors`, `PodHealth`, `PodContainers` | what a configured pod promises from end to end; exactly when a pod is refused, and what the errors say; health-check ports; the containers field by field |
| `UpdateState` | the configurator as it is written: a class with heap-allocated tables that changes containers in place, proved against `Configuration` |
| `Matching`, `PodAdmission` | owners, selectors, deduplication, and the webhook that puts them together |
| `Status` | conditions and workload statuses, as array methods and as folds |
| `Protocol`, `ProtocolSafety` | the reconciler as a state machine, one API call a step, interleaved with users, other keys and restarts; what holds in every run |
| `Convergence`, `Reconciler` | one whole reconcile and where repeated ones lead; the reconciler's classes, proved against the undisturbed run |

## Reading notes

- A Go string is a byte sequence: one `char` stands for one byte. Lower-casing is ASCII.
- Ports and port counters are `int32`. A counter that passes the largest value wraps, as in Go
  (`PortTable.Hop`), so both port searches end exactly because a table cannot hold every `int32`;
  the configurator's methods ask for fewer than 2^32 ports and instances in one pod.
- A slice append that reallocates is a new array, or a new sequence in a field.
- API answers, the clock and map iteration order are inputs: `Cluster` and `listing` for the
  webhook, `Choice` for the reconciler, an arbitrary pick from a set for a map. What a listing
  returns is constrained only by what the API server guarantees (`Matching.IsListing`).
- `PodGuarantees.WellNamed` is what the API server guarantees of the matches, together with: no
  connection string occurs twice in one resource. The last part is needed.
  `PortRuns.HeldIffNeverRewritten` says when printed arguments and the port table agree, and
  `PodErrors.RepeatedInstanceSharesAPort` shows a pod in which two instances get one port without
  an error being reported.
- Health-check ports are not registered. `PodHealth.HealthPortGivenAway` shows an ordinary pod in
  which an instance gets its own proxy's health-check port, `PodHealth.TwoProxiesOnePort` one in
  which two proxies have the same; `PodHealth.HealthPortTakenIff` and
  `PodHealth.HealthPortsEqualIff` say exactly when.
- The documentation of `SafePrefixedName` promises names within 63 characters. The code keeps that
  promise exactly under the condition of `Names.FitsExactlyWhen`, and it panics exactly under that
  of `Names.PanicsExactlyWhen` (`Names.LongPrefixesFail` has inputs); the operator's own prefix is on
  the safe side of both. The documentation also promises that shortened names stay unique;
  `Names.ContainerNamesCoincideIff` says exactly when two container names coincide, and
  `Names.OverLongNamesHaveTwins` that they can without equal hashes.
- The documentation of the selection says that a pod with an owner is ignored. The code selects
  for the pod and for its owners, and the model follows the code.
- `Reconcile` reports any failure to load a resource as quiet when the key is marked as recently
  deleted, not only a not-found answer; `ProtocolSafety.MissingIsQuietIff` follows the code, and
  `ProtocolSafety.LiveObjectMissed` is a run in which a live object is missed that way.

## Model

| member | source | states |
|---|---|---|
| Names.HashIsFnv1a | internal/workload/names.go:84-94 | The hash is FNV-1a, 32 bits, as section 2 of draft-eastlake-fnv has it: offset basis 2166136261; each byte first changes the low eight bits, bit by bit as an exclusive or; then the multiplication with 16777619 modulo 2^32. |
| Names.HashOfA | internal/workload/names.go:84-94 | The published value 0xe40c292c for "a". |
| Names.HashStepInjectiveInState | internal/workload/names.go:85-94 | One FNV-1a step (32 bit) never merges two states that read the same byte, because the prime is invertible modulo 2^32. |
| Names.HashStepInjectiveInByte | internal/workload/names.go:85-94 | One FNV-1a step never sends two different bytes from one state to the same state. |
| Names.OneByteChangesHash | internal/workload/names.go:85-94 | Texts of any length that differ in exactly one byte have different checksums. |
| Names.PanicsExactlyWhen | internal/workload/names.go:62-82 | The shortener's slicing goes out of range if and only if the name is over-long and prefix and hash suffix together take at least 65 bytes. |
| Names.FitsExactlyWhen | internal/workload/names.go:62-82 | A returned name has at most 63 bytes if and only if nothing was cut or prefix and hash suffix fit 63 bytes on their own. |
| Names.LongPrefixesFail | internal/workload/names.go:62-82 | Inputs that fail both: a prefix of 64 bytes panics whatever the name, and a prefix one byte too long for its hash suffix gives 64 bytes for every over-long name. |
| Names.ShortenedIs | internal/workload/names.go:65-79 | An over-long name becomes prefix, head and tail of equal length in lower case, a hyphen, and the hash in lower-case hexadecimal without padding, as long as 63 bytes allow. |
| Names.SafeNamesAreLabels | internal/workload/names.go:36-82 | From label text, with a prefix of at most 54 bytes, comes a DNS label that keeps its prefix; a shortened one has 62 or 63 bytes and its kept head and tail do not overlap. |
| Names.CollisionNeedsEqualHash | internal/workload/names.go:53-82 | Two over-long names share a shortened name only if their hashes, the kept lengths and the lower-cased kept heads and tails are equal. |
| Names.OneByteChangesName | internal/workload/names.go:53-82 | Changing exactly one byte of an over-long name always changes the shortened name. |
| Names.ContainerName | internal/workload/names.go:36-44 | For every namespace and name the shortener does not panic, the result has at most 63 bytes, and it starts with "csql-". |
| Names.ShortContainerName | internal/workload/names.go:36-44 | If they fit, the name spells out "csql-", namespace and resource in lower case. |
| Names.LongContainerName | internal/workload/names.go:36-44 | Otherwise it is "csql-", the first and the last t bytes of both in lower case, a hyphen and the hash of both in hexadecimal, 62 or 63 bytes in all. |
| Names.VolumeNamesAreLabels | internal/workload/names.go:46-51 | Volume names of connection strings made of label text and colons are DNS labels. |
| Names.VolumeNameSpells | internal/workload/names.go:46-51 | A short volume name spells out namespace, resource, mount type and connection string, in lower case and with hyphens for colons. |
| Names.LowerLaws | internal/workload/names.go:77-81 | Lower-casing changes exactly the 26 ASCII capitals, each to its small letter. |
| Names.OverLongCollideIff | internal/workload/names.go:53-82 | Two over-long names share a shortened name if and only if their hashes and the lower-cased text kept of them are equal. |
| Names.ShortCollideIff | internal/workload/names.go:53-82 | A short name and any other get the same name if and only if, up to case, the short one spells out what the other becomes. |
| Names.ContainerNamesCoincideIff | internal/workload/names.go:36-44 | Exactly when two resources of one namespace get the same container name: same short name up to case; both over-long with equal hash, head and tail; or one short and spelling out the other's shortened form. |
| Names.OverLongNamesHaveTwins | internal/workload/names.go:36-44 | Without any hash collision, every over-long resource of a namespace of at most 23 bytes has a twin with a shorter name and the same container name. |
| Numerals.DecimalReadsBack | internal/workload/podspec_updates.go:451-461 | A port printed in an argument or a variable reads back as the same number. |
| Numerals.DecimalText | internal/workload/podspec_updates.go:451-461 | It is printed with ASCII digits, without padding, and with a sign only below zero. |
| PortTable.StretchFits | internal/workload/podspec_updates.go:247-254 | Pigeonhole: a stretch of n ports in use, with wrap-around, needs n entries. |
| PortTable.FirstFreeIsLeast | internal/workload/podspec_updates.go:285-293 | Below the int32 limit the search loop returns the least unregistered port from its start on, at most the table's size above it. |
| PortRuns.RegisterFacts | internal/workload/podspec_updates.go:384-389 | Registering the containers' ports files each declared port exactly once, under the empty key. |
| PortRuns.DeclaredPortsRemembered | internal/workload/podspec_updates.go:307-328 | The entry of a declared port remembers every application container that declared it. |
| PortRuns.HeldIffNeverRewritten | internal/workload/podspec_updates.go:257-305 | In a run without conflict, every port ever handed out still belongs to its instance at the end if and only if no request took the branch that changes an instance's port. |
| PortRuns.RewriteSharesAPort | internal/workload/podspec_updates.go:272-283 | Counterexample to own ports under a repeated key: three requests after which two instances were given the same port and no conflict was reported. |
| PortRuns.TablePortsExact | internal/workload/podspec_updates.go:242-328 | The ports in the table are exactly the declared ones and all those ever handed out. |
| PortRuns.PortsConserved | internal/workload/podspec_updates.go:242-328 | With a key for each request, table entries plus PortConflict errors equal distinct application ports plus requests. |
| PortRuns.OwnPorts | internal/workload/podspec_updates.go:257-305 | In a run without conflict and rewriting, two requests have the same port if and only if they are for the same instance, and none has an application port. |
| PortRuns.RepeatChangesNothing | internal/workload/podspec_updates.go:263-283 | Asking again for an instance, with its port or with none, returns its port, reports nothing and leaves the state as it was. |
| PortRuns.CursorRefines | internal/workload/podspec_updates.go:285-294 | Whenever everything the cursor has passed is in use, searching from the cursor finds what a search from 5000 finds. |
| PortRuns.CursorSwept | internal/workload/podspec_updates.go:285-304 | In every run without rewriting, all ports from 5000 up to the cursor are in use. |
| PortRuns.AutomaticPortIsLeast | internal/workload/podspec_updates.go:285-304 | An automatic port is the least free port from 5000 on, never conflicts, and is a TCP port for up to 60535 declared ports and requests. |
| PortRuns.HealthPortIsLeast | internal/workload/podspec_updates.go:552-556 | The health-check port is the least unregistered port from 9801 on, with a bound in the size of the pod. |
| PortRuns.HealthPortsCoincideIff | internal/workload/podspec_updates.go:552-556 | The search finds the same health-check port in a table and in a larger one if and only if the larger one lacks that port. |
| PortOrders.AutomaticOrderIrrelevant | internal/workload/podspec_updates.go:285-304 | If all ports are automatic, any two orders of the requests end without conflict and with the same ports in use. |
| PortOrders.GrantedAt | internal/workload/podspec_updates.go:285-304 | What each request of a run gets: its explicit port, or the least port from 5000 on that is neither declared nor handed out before; and exactly when it conflicts. |
| PortOrders.ConflictFreeIff | internal/workload/podspec_updates.go:257-305 | For every sequence of requests, explicit and automatic mixed: no conflict is reported if and only if explicit ports are distinct and undeclared, and below each one from 5000 on as many ports are free as automatic requests come before it. |
| PortOrders.NoOrderConflictsIff | internal/workload/podspec_updates.go:257-305 | No order of a set of requests conflicts if and only if explicit ports are distinct and undeclared, and below each one from 5000 on as many ports are free as there are automatic requests. |
| PortOrders.ExplicitConflictIff | internal/workload/podspec_updates.go:257-305 | If all ports are explicit, a conflict is reported if and only if two requests share a port or one asks for an application port; the condition does not mention the order. |
| PortOrders.NoConflictFrom | internal/workload/podspec_updates.go:257-305 | Mixed requests whose explicit ports are distinct, not declared and outside the n ports from 5000 on never conflict, and each gets what it asked for. |
| EnvVars.EnvConflictIff | internal/workload/podspec_updates.go:330-348 | EnvVarConflict is reported if and only if two requests of the whole run share a name but not a value. |
| EnvVars.RequestsHonoured | internal/workload/podspec_updates.go:330-348 | Without a conflict the final table answers every request ever made with its value. |
| EnvVars.LookupOverride | internal/workload/podspec_updates.go:532-549 | Under last-wins lookup the new environment is the old one overridden by the operator's table. |
| EnvVars.OverrideShape | internal/workload/podspec_updates.go:532-549 | Entries keep their place; every occurrence of an operator name is overwritten, others keep their value; only missing names are appended, each once. |
| EnvVars.OverrideIdempotent | internal/workload/podspec_updates.go:532-549 | Applying the table a second time changes nothing. |
| InstanceArgs.SortedUnique | internal/workload/podspec_updates.go:485-487 | A list of texts has only one sorted rearrangement, so the argument does not depend on map iteration. |
| InstanceArgs.FormatInstance | internal/workload/podspec_updates.go:446-493 | Whatever order the map yields its pairs in, the argument is the canonical one. |
| InstanceArgs.InstanceArgSpells | internal/workload/podspec_updates.go:446-493 | The argument letter by letter: connection string, "?", auto-iam-authn if given, port, private-ip if given. |
| InstanceArgs.ArgReadsBackIff | internal/workload/podspec_updates.go:446-493 | Splitting the argument at '?', '&' and '=' recovers connection string, port and both optional flags if and only if the connection string has no '?'. |
| PodGuarantees.NoErrorsIff | internal/workload/podspec_updates.go:407-411 | A pod is configured without error if and only if no port request conflicted and all variables asked for agree name by name. |
| PodGuarantees.EnvProjection | internal/workload/podspec_updates.go:444-463 | The environment table is that of all variables asked for in turn, each instance's address before its port; errors are counted by their code. |
| PodGuarantees.ErrorsReported | internal/workload/podspec_updates.go:85-96 | There is one PortConflict detail for each conflicting port request, and an EnvVarConflict detail if and only if two variables asked for disagree. |
| PodGuarantees.WellNamedKeysFresh | internal/workload/podspec_updates.go:257-270 | Named resources with names of their own, and no connection string twice in one, make every instance's key its own and none the empty key. |
| PodGuarantees.AppPortsAre | internal/workload/podspec_updates.go:377-389 | The ports registered first are exactly those declared by containers whose name lacks the proxy prefix. |
| PodGuarantees.ArgumentCarriesPort | internal/workload/podspec_updates.go:443-496 | Each instance's argument, at its place among the last arguments of the match's container, carries the port that instance was given. |
| PodGuarantees.EnvironmentAgrees | internal/workload/podspec_updates.go:400-405 | Without errors every container of the pod, old and new, finds the instance's port and 127.0.0.1 under the names the instance asks for. |
| PodGuarantees.EveryInstanceReachable | internal/workload/podspec_updates.go:369-416 | End to end, without errors: every instance of a match that is not overridden has a port unlike every other instance's and every application port, equal to its explicit port if it has one, carried by its argument and by every container's environment. |
| PodErrors.AgreeIff | internal/workload/podspec_updates.go:452-463 | If every instance has a port of its own, the variables asked for agree if and only if no port variable has the name of another variable. |
| PodErrors.ErrorFreeIff | internal/workload/podspec_updates.go:407-411 | A pod is configured without error if and only if no port request conflicts and no port variable has the name of another variable. |
| PodErrors.ConfiguresIff | internal/workload/podspec_updates.go:369-416 | The same with everything decided before the run: from the declared ports, the instances and their order alone. |
| PodErrors.ErrorsJustified | internal/workload/podspec_updates.go:275-300 | Every error is about some instance: its text names that instance's port and connection string, or a variable it asks for, and it is filed under that instance's resource. |
| PodErrors.PortConflictsReported | internal/workload/podspec_updates.go:296-300 | Every port request that conflicts is reported with its port, its connection string and its resource. |
| PodErrors.RepeatedInstanceSharesAPort | internal/workload/podspec_updates.go:272-283 | A pod in which a connection string occurs twice in one resource: three instances, no error, and the first and the third have the same port. |
| PodHealth.HealthCheckAgrees | internal/workload/podspec_updates.go:551-585 | A proxy's probes and its --http-port argument name one port, no application port and no port of an instance of an earlier match. |
| PodHealth.HealthPortTakenIff | internal/workload/podspec_updates.go:552-556 | In a pod of at most 4801 declared ports and instances, an instance has a proxy's health-check port if and only if it asks for that port. |
| PodHealth.HealthPortGivenAway | internal/workload/podspec_updates.go:552-556 | One resource whose instance asks for port 9801: its proxy's probes and the instance get 9801 and no error is reported. |
| PodHealth.HealthPortsSafe | internal/workload/podspec_updates.go:552-556 | If no instance asks for one of the n ports from 9801 on, n being the size of the pod, no proxy shares its health-check port with an instance. |
| PodHealth.HealthPortsEqualIff | internal/workload/podspec_updates.go:552-556 | Two proxies of a pod have the same health-check port if and only if no instance of a match from the first up to the second has it. |
| PodHealth.DefaultHealthPortIff | internal/workload/podspec_updates.go:552-556 | A proxy of such a pod has port 9801 if and only if no application container declares it and no instance of an earlier match asks for it. |
| PodHealth.TwoProxiesOnePort | internal/workload/podspec_updates.go:552-556 | Two resources with one automatic instance each: no error, and both proxies have health-check port 9801. |
| PodContainers.ContainersKept | internal/workload/podspec_updates.go:400-405 | Containers that were there keep their place and everything but Env, and in Env the order and all values the operator does not manage. |
| PodContainers.OverriddenKept | internal/workload/podspec_updates.go:422-427 | A container that the user gives in full is taken over but for its name and the operator's variables. |
| PodContainers.FirstArguments | internal/workload/podspec_updates.go:579-583 | The texts of the five arguments every built proxy starts with. |
| PodContainers.ConnectionsFlagIff | internal/workload/podspec_updates.go:520-523 | "--max-connections=" with n is among the arguments if and only if that maximum is set to n and n is not zero. |
| PodContainers.SigtermFlagIff | internal/workload/podspec_updates.go:524-527 | "--max-sigterm-delay=" with n is among the arguments if and only if that delay is set to n and n is not zero. |
| PodContainers.EndpointFlagIff | internal/workload/podspec_updates.go:517-519 | "--sqladmin-api-endpoint=" with a text stands before the instances' arguments if and only if that text is the endpoint set and not empty. |
| PodContainers.ImageAndResources | internal/workload/podspec_updates.go:501-515 | Image and resources are the user's when given and the defaults otherwise. |
| UpdateState.UpdateState.IsPortInUse | internal/workload/podspec_updates.go:246-254 | True if and only if some entry of the table has the port. |
| UpdateState.UpdateState.AddPort | internal/workload/podspec_updates.go:307-328 | The heap table afterwards is the specification's table: filed under the key if the port is new, the declaring container remembered otherwise. |
| UpdateState.UpdateState.AddInUsePort | internal/workload/podspec_updates.go:242-244 | Files an application port under the empty key. |
| UpdateState.UpdateState.UseInstancePort | internal/workload/podspec_updates.go:256-305 | Returned port, table, cursor and error list are those of the specification, in the new, repeated and rewriting cases. |
| UpdateState.UpdateState.AddWorkloadEnvVar | internal/workload/podspec_updates.go:330-348 | Environment table and error list are those of the specification; the port table stays. |
| UpdateState.UpdateState.AddHealthCheck | internal/workload/podspec_updates.go:551-585 | Probes and arguments carry the specified health-check port; the search ends. |
| UpdateState.UpdateState.ApplyContainerSpec | internal/workload/podspec_updates.go:499-530 | Image, resources and optional flags, with their defaults and the rule that zero adds no flag. |
| UpdateState.UpdateState.UpdateContainer | internal/workload/podspec_updates.go:418-497 | The container is exactly the specified one, overridden or built, and the state moves on by the match's instances. |
| UpdateState.UpdateState.UpdateContainerEnv | internal/workload/podspec_updates.go:532-549 | Overwriting in place yields the specified override of the old list. |
| UpdateState.UpdateState.Update | internal/workload/podspec_updates.go:369-416 | An error if and only if the specified run has one, with exactly its details and the old container list; otherwise the pod is the specified one and its old containers come first. |
| UpdateState.ConfigureWorkload | internal/workload/podspec_updates.go:176-189 | The same of a call with fresh state. |
| Matching.SupportedKinds | internal/workload/workload.go:144-165 | The kinds that count are the seven named, each with or without a group after a dot. |
| Matching.OwnerRequested | internal/controller/pod_controller.go:131-145 | An owner is looked up by name in the namespace of the object it owns, under the API version of its kind or, for other kinds, the one the reference gives. |
| Matching.OwnedByStep | internal/controller/pod_controller.go:125-169 | The transitive owners of supported kinds are the direct ones and the owners' own, through found owners of any kind. |
| Matching.BoundedIffAcyclic | internal/controller/pod_controller.go:125-169 | The recursion over owners has a depth bound if and only if no chain of owners meets an object twice. |
| Matching.ListOwners | internal/controller/pod_controller.go:125-169 | Fails if and only if some transitive owner cannot be read for a reason other than not existing; otherwise lists exactly the found transitive owners of supported kinds, and empty stand-ins for missing ones. |
| Matching.MissingOwnersNeverMatch | internal/workload/workload.go:168-188 | The empty stand-in for a missing owner matches no resource that lives in a namespace. |
| Matching.RequirementLaws | internal/workload/workload.go:179-185 | In and NotIn, Exists and DoesNotExist are complements; a label is in a set if and only if its value is, and a missing one is in none. |
| Matching.SelectorLaws | internal/workload/workload.go:179-185 | An absent selector matches all labels, a malformed one none, and a further requirement narrows by just what it demands. |
| Matching.FilterMatching | internal/workload/podspec_updates.go:153-174 | Exactly the resources that are listed, not pending deletion, in the workload's namespace, and name no other kind, no other name and no labels it lacks. |
| Matching.FindMatching | internal/workload/podspec_updates.go:130-151 | Exactly the listed resources, not pending deletion, that agree in namespace, kind, name and labels with the pod or a listed owner, each once, in an undetermined order. |
| PodAdmission.Handle | internal/controller/pod_controller.go:48-123 | Errored, unchanged or patched exactly when the listing, the owners, the selection and the configuration say so; a patched pod is the configuration of exactly the resources that apply. |
| PodAdmission.AdmittedPodServes | internal/controller/pod_controller.go:79-95 | In an admitted pod every instance of every resource that applies, through the pod or a transitive owner, has its named proxy container and a port of its own: the explicit one if given, unlike every other instance's, unused by the application, and in every container's environment. |
| PodAdmission.MatchOrderIrrelevant | internal/workload/podspec_updates.go:140-150 | If all ports are explicit or all are automatic, a pod is configured without error in every order of its selection or in none, and likewise for port conflicts; automatic ports never conflict and are the same in every order. |
| PodAdmission.MixedOrderIrrelevant | internal/workload/podspec_updates.go:140-150 | In the mixed case, if explicit ports are distinct, undeclared and leave room for all automatic ones, no order of the selection has a port conflict, and every order is accepted or none, as the names of variables decide. |
| PodAdmission.HealthPortsSafeInAnyOrder | internal/workload/podspec_updates.go:552-556 | If no instance asks for one of the n ports from 9801 on, no order of the selection lets an instance share a proxy's health-check port. |
| Status.ReplaceCondition | internal/controller/authproxyworkload_controller.go:364-385 | The returned slice is the specified replacement; the old one is changed in place only if the type was there. |
| Status.ReplacedFrame | internal/controller/authproxyworkload_controller.go:364-385 | Types stay unique, other conditions keep their value and place, and the type's condition is the new one but for its transition time. |
| Status.TransitionTimeIsTrue | internal/controller/authproxyworkload_controller.go:364-385 | After any sequence of calls a type's transition time is that of the call that started its trailing run of equal statuses. |
| Status.ReplaceStatus | internal/controller/authproxyworkload_controller.go:334-353 | Every entry of the identity is overwritten in place; if there is none the new entry is appended. |
| Status.StatusLoopIsUpsert | internal/controller/authproxyworkload_controller.go:310-332 | Identities stay unique and are the old and the listed ones; a listed entry has one condition, WorkloadUpToDate True with reason UpToDate, of the current generation and since a listing of that workload; others keep content and order. |
| ProtocolSafety.GenerationNeverAhead | internal/controller/authproxyworkload_controller.go:191-304 | In no run, with users, deletion, re-creation, failures and restarts in between, does a stored condition observe a later generation than its object has. |
| ProtocolSafety.PatchReachesItsObject | internal/controller/authproxyworkload_controller.go:291-304 | When the status patch is about to be sent the stored object is the very one that was read, at the same or a later generation. |
| ProtocolSafety.FinalizerHoldsUntilListed | internal/controller/authproxyworkload_controller.go:169-189 | In every run an object loses this controller's finalizer, and so leaves the store, only by a reconcile of its own key just after a successful listing, and the key is then marked. |
| ProtocolSafety.ReconcileTouchesOnlyItsOwn | internal/controller/authproxyworkload_controller.go:169-289 | In every run a step of a reconcile leaves all other finalizers, the specification, generation, identity and deletion mark of every object as they were, and an object that leaves the store in it had this controller's finalizer as its only one. |
| ProtocolSafety.AdvanceIsLocal | internal/controller/authproxyworkload_controller.go:126-189 | A step for one key leaves every other key's object and mark alone. |
| ProtocolSafety.MissingIsQuietIff | internal/controller/authproxyworkload_controller.go:132-144 | A reconcile that cannot load its object ends quietly if and only if the key's last mark since the last restart was for a deleted object; otherwise it fails and is retried after a delay. |
| ProtocolSafety.QuietAfterDeletion | internal/controller/authproxyworkload_controller.go:132-159 | After an object was let go, reconciles that find it missing stay quiet until a live object of the key is reconciled or the operator restarts. |
| ProtocolSafety.DeletedBeforeReconciled | internal/controller/authproxyworkload_controller.go:132-144 | An object deleted before its first reconcile leaves no mark, so the reconcile that misses it fails. |
| ProtocolSafety.LiveObjectMissed | internal/controller/authproxyworkload_controller.go:132-144 | A run in which a key is deleted, created again, and the load of the live object fails: the reconcile ends quietly and is not retried. |
| Convergence.DriveIsRun | internal/controller/authproxyworkload_controller.go:126-167 | A whole reconcile is a run of the state machine, of at most five steps, with the same end and outcome. |
| Convergence.TwoReconcilesSettle | internal/controller/authproxyworkload_controller.go:191-289 | Undisturbed, two reconciles bring any live object to finalizer present, UpToDate true for its generation, and the reason set by whether a workload matched; one does if the finalizer is there. |
| Convergence.SettledIsStable | internal/controller/authproxyworkload_controller.go:191-289 | Further reconciles that list the same workloads change nothing but the resource version and workload transition times. |
| Convergence.QuietMeansDone | internal/controller/authproxyworkload_controller.go:126-289 | Whatever calls could have failed, a reconcile that found its object and ends quietly has removed the finalizer of a deleted object or settled a live one. |
| Convergence.ReconcileOutcome | internal/controller/authproxyworkload_controller.go:126-289 | How a whole reconcile ends, from what was stored and which calls succeed: quiet, at once or after a delay, with or without an error; and that a failed write changes nothing. |
| Reconciler.RecentlyDeletedCache.Set | internal/controller/authproxyworkload_controller.go:50-57 | Sets this key's mark and no other. |
| Reconciler.RecentlyDeletedCache.Get | internal/controller/authproxyworkload_controller.go:59-67 | The mark, and false for a key never set. |
| Reconciler.Resource.UpdateWorkloadStatus | internal/controller/authproxyworkload_controller.go:310-332 | The loop over a listing yields the specified fold of upserts and touches nothing else. |
| Reconciler.Resource.SetUpToDate | internal/controller/authproxyworkload_controller.go:236-261 | The UpToDate condition with reason and message for an empty or a non-empty listing. |
| Reconciler.AuthProxyWorkloadReconciler.Reconcile | internal/controller/authproxyworkload_controller.go:126-167 | Server, cache and outcome are those of the undisturbed run of the state machine, for every choice of failures. |
| Reconciler.AuthProxyWorkloadReconciler.DoDelete | internal/controller/authproxyworkload_controller.go:169-189 | The deletion half of that run. |
| Reconciler.AuthProxyWorkloadReconciler.DoCreateUpdate | internal/controller/authproxyworkload_controller.go:191-248 | The create and update half of that run. |
| Reconciler.AuthProxyWorkloadReconciler.ApplyFinalizer | internal/controller/authproxyworkload_controller.go:271-289 | The state that adds the finalizer and asks to run again at once. |
| Reconciler.AuthProxyWorkloadReconciler.PatchStatusOf | internal/controller/authproxyworkload_controller.go:291-304 | The patch against the copy that was read, and the read after it. |

## Left out

- UpdateState.UpdateState.Update: on error only the container list is promised, because the containers' Env lists are overwritten in place before errors are checked.
- PodHealth.HealthPortTakenIff: for pods with more than 4801 declared ports and instances, automatic ports can reach the health-check range; which of them do is left to PortOrders.GrantedAt.
- PodAdmission.MixedOrderIrrelevant: sufficient for orders of whole resources, which keep each resource's own instances in place; the exact condition is stated for a given order (PodErrors.ConfiguresIff) and for all orders of requests (PortOrders.NoOrderConflictsIff).
- PodAdmission.Handle: decoding the request and marshalling the pod are not modelled; a cyclic owner graph, on which the code does not end, is excluded.
- ProtocolSafety.GenerationNeverAhead: third parties do not strip this controller's finalizer or write the status, and Get returns the current object or fails; stale informer reads are not modelled.
- Reconciler.AuthProxyWorkloadReconciler.Reconcile: the class is proved for a reconcile that nothing interrupts; interleavings are the subject of the state machine.
- Matching.ListOwners: a fetched owner is assumed to carry its kind.
- The listing of a resource's workloads (by name or by label selector) is a parameter of the reconciler's steps.
- Label selectors are lists of In, NotIn, Exists and DoesNotExist requirements, or malformed; the library's parser is not modelled.
- Images, resources, probe timings and paths, pull policy and the user agent are carried along unread or left out.
- The list of instances built at the start of an update, OriginalValues of environment variables, volume entries and the workload identity in error details: written but never read.
- Shared backing arrays of Env lists between the decoded pod and its copy.
- The lock of the recently-deleted cache: its operations are single steps.
- Accessors of the workload kinds, list wrappers, generated copies, validation and defaulting webhooks, manager set-up, logging: nothing to prove.
- Lower-casing of non-ASCII text.
