# Model of the Argo CD operator

The operator keeps the resources of ArgoCD instances on a Kubernetes cluster in the state their
specs ask for. This project models the parts of it that are state machines or algorithms and
proves what they keep over whole runs, where they settle, and where exactly they fall short of
what comments and documentation promise.

How the model is laid out:

- A reconciler that mutates the cluster is a class; the cluster objects it touches are maps in
  its fields, and namespaced objects live inside their namespace. Loops of the source are loops
  here, proved against functions that say where each object ends.
- A request to the API server may fail: `Request` chooses freely. The field
  `failures` counts the failed ones, so a pass "without failed requests" is one that leaves it
  unchanged. Contracts without that condition hold whatever fails. Where the exact effect of a
  failure matters (`Redis`, `TlsRollout`, claims and releases in `SourceNamespaces`) the refused
  requests are an input instead.
- A namespace is a value inside the cluster map, and the steps within one namespace are methods
  on that value; the loops over namespaces update the map.
- One reconciliation is one atomic step of a run. Runs interleave reconciliations of any number
  of instances with edits from outside.
- The glob match of namespace names, SHA-256, pod templates, policy rules and other constant data
  are parameters or opaque values compared for equality. Go strings are octet sequences where
  their length matters (`Hostname`) and code point sequences elsewhere.

Modules: `SourceNamespaces` and `SourceNamespaceRuns` (claims on source namespaces),
`ApplicationSets` (the same for ApplicationSets), `ManagedNamespaces` (permissions in managed
namespaces), `ClusterRoles` (cluster roles and their modes), `ActiveInstances` (metrics),
`Hostname`, `ClusterSecret` and `ClusterSecretRuns` (namespace list of the cluster secret),
`Environment` (merging variables), `ControllerStatefulSet`, `Sharding`, `Redis`, `TlsRollout`,
`TlsOwners`, `Conversion` and `Sso`; `Api`, `Lists`, `Ordering` and `Sweeps` are shared.

Where the code differs from its comments or documentation, the model follows the code, and a
lemma gives a concrete input together with the exact condition under which the promise is met:

- a shortened host name may exceed 253 octets (`OverlongResult`, `FitsIff`);
- a source namespace held by another instance still gets a role binding, to a role that does not
  exist there, and keeps it when the spec stops matching (`DanglingBindingExists`,
  `DanglingBindingStays`, `DanglingBindingIff`, `LeftoversPersist`);
- a claimed source namespace with an empty managed-by label is never bound (`ClaimedUnbound`,
  `ClaimedIsBoundIff`);
- a failed role deletion during a release leaves a role no later pass removes (`RoleLeaks`,
  `ReleaseSeparatesIff`, `RoleFollowsIff`), and a failed binding deletion a binding without role
  (`ReleaseDanglesIff`);
- the finalizer of one instance can release the namespaces of another one and keep its own
  (`FinalizerReleasesOthers`, `FinalizerSparesOthersIff`, `FinalizerReleasesOwnIff`);
- a pass for ApplicationSets can take the label of another instance away (`PassReleasesOthers`,
  `SparesOthersIff`), keeps its label next to a managed-by label (`BothLabelsKept`,
  `BothLabelsIff`), and deletes a binding it means to replace (`BindingLost`, `BindingWantedIff`);
- a namespace that is no longer allowed may keep a cluster role binding without role
  (`BindingLeftBehind`, `BindingFollowsRoleIff`);
- the namespace list of the cluster secret gets an empty entry after a time in cluster
  configuration mode (`EmptyEntryAppears`, `EmptyNameIff`), and its last entry cannot be removed
  (`LastEntryStays`, `RemoveExact`); it is as promised at every moment exactly when neither happens
  (`AlwaysAsPromisedIff`);
- the gauges of active instances can become negative (`NegativeGauges`, `GaugesAgreeIff`);
- a failed restart after a certificate change is not retried, although the comment expects a missed
  restart only when the status cannot be updated (`RestartMissed`, `RestartedIff`,
  `RestartedOnceIff`);
- a failed write while switching Redis can leave both servers (`BothServers`, `CoexistIff`);
- the strict TLS flag of the application controller is appended without the test for repeated
  flags (`StrictTLSTwice`, `StrictTLSTwiceIff`);
- more clusters than documented may share a shard (`SharesFallShort`, `SharesSufficeIff`);
- the conversion drops four fields of grafana that both API versions have (`GrafanaForgotten`,
  `AlphaSurvivesIff`) and the env of the dex block (`DexEnvForgotten`, `BetaSurvivesIff`), and
  writes to its input (`InputWritten`; `ConvertToSSO` states exactly when).

## Model

| member | source | states |
|---|---|---|
| `SourceNamespaces.Reconciler.Reconcile` | controllers/argocd/argocd_controller.go:203-218 | The source namespace part of a reconciliation, the bindings being reconciled twice: whatever requests fail, every namespace changes only in ways that respect other instances; without failures every namespace ends exactly where Settled says, and the managed set is the set of claimed namespaces |
| `SourceNamespaces.Reconciler.ReconcileRoles` | controllers/argocd/role.go:84-98 | Claiming followed by removal: the same for the labels and roles |
| `SourceNamespaces.Reconciler.ReconcileRoleForApplicationSourceNamespaces` | controllers/argocd/role.go:190-281 | The loop over matching namespaces handles each one on its own, stops at an error without having harmed any, and keeps the managed set equal to the claimed namespaces when nothing fails |
| `SourceNamespaces.Reconciler.ReconcileSourceRole` | controllers/argocd/role.go:198-278 | One turn: a managed-by label takes precedence and releases an own claim, a foreign claim is left alone, anything else is claimed |
| `SourceNamespaces.Reconciler.ClaimNamespace` | controllers/argocd/role.go:226-277 | Role with the wanted rules, label of the instance and tracking; for any refused requests exactly the part of these that AfterClaim gives, and tracking exactly when no request but the label update fails |
| `SourceNamespaces.ClaimSteps` | controllers/argocd/role.go:226-277 | The requests of a claim in order, for any refused ones: a missing role is created before the label is set, and a refused label update does not stop the rest |
| `SourceNamespaces.Reconciler.GetSourceNamespaces` | controllers/argocd/util.go:1421-1436 | Exactly the existing namespaces whose name matches, each once |
| `SourceNamespaces.Reconciler.SetManagedSourceNamespaces` | controllers/argocd/util.go:1438-1455 | The managed set is rebuilt from the labels, and is empty when listing fails |
| `SourceNamespaces.Reconciler.RemoveUnmanaged` | controllers/argocd/util.go:1459-1485 | Touches only tracked namespaces that no longer match, or all tracked ones under deletion, and even with failures only takes parts of the release away; without failures these are released and no longer tracked, and the rest stays tracked |
| `SourceNamespaces.Reconciler.RemoveIfUnmanaged` | controllers/argocd/util.go:1461-1482 | One tracked namespace: no other one is touched, an entitled one never, and with failures only a part of the release is done |
| `SourceNamespaces.Reconciler.CleanupUnmanaged` | controllers/argocd/util.go:1487-1528 | Takes label, role and binding away; a missing namespace is fine; for any refused requests exactly the part that AfterRelease gives, the binding only after the role |
| `SourceNamespaces.Reconciler.ReconcileSourceBinding` | controllers/argocd/rolebinding.go:227-309 | One matching namespace: respects other instances whatever fails; without failures the binding ends as wanted, deleted and recreated when it refers to another role, unless one exists in a namespace that is not claimed |
| `SourceNamespaces.BindSteps` | controllers/argocd/rolebinding.go:253-309 | The requests for one binding: one that exists in a namespace that is not claimed is left alone whatever fails |
| `SourceNamespaces.Reconciler.ReconcileSourceBindings` | controllers/argocd/rolebinding.go:219-310 | The loop over matching namespaces, each handled on its own, without touching what belongs to other instances |
| `SourceNamespaces.Reconciler.ReconcileBindingsTwice` | controllers/argocd/util.go:757-767 | The two binding phases of a pass together do what one does |
| `SourceNamespaces.BindingTwice` | controllers/argocd/rolebinding.go:227-309 | The second binding phase finds nothing to change |
| `SourceNamespaces.Reconciler.Finalize` | controllers/argocd/argocd_controller.go:173-175 | Whatever fails only namespaces left in the managed set change, each by a part of a release; without failures exactly these are released and the set is emptied |
| `SourceNamespaces.RespectsTransitive` | controllers/argocd/role.go:190-281 | Respecting other instances is preserved by composing phases and passes |
| `SourceNamespaces.PhasesSettle` | controllers/argocd/role.go:84-98 | Role, removal and binding phase together lead to the settled state of a namespace |
| `SourceNamespaceRuns.FirstClaimerKeeps` | controllers/argocd/role.go:218-222 | In every run of passes of any instances that are not being deleted, with any failures, and of outside edits that leave the claim label alone, a claim changes only through a pass of the claimant itself that releases the namespace for lack of entitlement |
| `SourceNamespaceRuns.StepKeepsClaim` | controllers/argocd/role.go:203-222 | No single step changes the claim of a namespace, except a pass of the claimant itself that is no longer entitled |
| `SourceNamespaceRuns.ClaimedIff` | controllers/argocd/role.go:203-260 | After a pass a namespace is labelled for the instance exactly when it matches, has no non-empty managed-by label and was free or its own; others keep label and roles |
| `SourceNamespaceRuns.ClaimedRules` | controllers/argocd/role.go:231-234 | The role of a claimed namespace has the application rules, and the applicationset rules exactly where the spec lists the namespace for ApplicationSets |
| `SourceNamespaceRuns.ClaimCutShort` | controllers/argocd/role.go:236-270 | For any refused requests, which of role, label and corrected rules a claim leaves |
| `SourceNamespaceRuns.BindingAfterPass` | controllers/argocd/rolebinding.go:235-309 | The binding after a pass from any state: as wanted in a matching namespace that is free, held or without binding, gone with a claim given up, and otherwise untouched |
| `SourceNamespaceRuns.SettledTwice` | controllers/argocd/role.go:264-270 | A second pass changes nothing |
| `SourceNamespaceRuns.RolesFollowClaims` | controllers/argocd/util.go:1501-1513 | In every state of every run without failures from a clean cluster, with distinct instances, an instance has its role in a namespace exactly when it holds the claim |
| `SourceNamespaceRuns.RoleFollowsIff` | controllers/argocd/role.go:203-270 | From any state, a pass without failures ends with the role exactly when it ends with the claim, except for a role in a namespace the instance neither holds nor is entitled to |
| `SourceNamespaceRuns.ReleaseSeparatesIff` | controllers/argocd/util.go:1496-1513 | A release separates role and claim exactly when it finds the namespace and one of the label update and the role deletion is refused and the other is not |
| `SourceNamespaceRuns.ClaimSeparatesIff` | controllers/argocd/role.go:226-260 | A claim separates them exactly when it creates the role and the label update, or the lookup before it, is refused |
| `SourceNamespaceRuns.RoleLeaks` | controllers/argocd/util.go:1496-1513 | A release with a failed role deletion leaves a role that the next pass does not touch |
| `SourceNamespaceRuns.PassKeepsRolesFollowing` | controllers/argocd/role.go:226-270 | One pass of one instance keeps this for all instances of the fleet |
| `SourceNamespaceRuns.RoleNameInjective` | controllers/argocd/rolebinding.go:326-328 | Within a namespace the role name identifies the instance |
| `SourceNamespaceRuns.ClaimedIsBoundIff` | controllers/argocd/rolebinding.go:235-309 | A claimed namespace has the role; it has the binding of both service accounts to it exactly when it has no managed-by label, not even an empty one, or had that binding before |
| `SourceNamespaceRuns.ClaimedUnbound` | controllers/argocd/rolebinding.go:235-239 | A claimed namespace with an empty managed-by label that a pass leaves without binding |
| `SourceNamespaceRuns.ReleaseDanglesIff` | controllers/argocd/util.go:1502-1526 | The exact condition, on the refused requests and the namespace before, under which a release leaves a binding without role |
| `SourceNamespaceRuns.DanglingBindingIff` | controllers/argocd/rolebinding.go:235-309 | From any state, a pass ends with a binding without role exactly in a namespace that had no such role, that the instance neither holds nor is entitled to, and that either matches without managed-by label or had the binding before |
| `SourceNamespaceRuns.DanglingBindingExists` | controllers/argocd/rolebinding.go:284-309 | A concrete such namespace |
| `SourceNamespaceRuns.DanglingBindingStays` | controllers/argocd/rolebinding.go:219-226 | Two passes: the binding stays when the spec stops matching the namespace |
| `SourceNamespaceRuns.LeftoversPersist` | controllers/argocd/util.go:1438-1485 | In every run of passes of instances with distinct names and namespaces, with any failures, and of outside edits that leave claims, roles and bindings alone, a role or binding an instance left in a namespace it does not hold stays the same until the instance is entitled to the namespace again |
| `SourceNamespaceRuns.StepLeavesAlone` | controllers/argocd/util.go:1438-1485 | The same for a single step |
| `SourceNamespaceRuns.FinalizerSparesOthersIff` | controllers/argocd/util.go:1459-1485 | The finalizer leaves all foreign claims alone exactly when no foreign namespace is in the managed set |
| `SourceNamespaceRuns.FinalizerReleasesOwnIff` | controllers/argocd/util.go:1459-1485 | It releases all own claims exactly when they are all in that set |
| `SourceNamespaceRuns.FinalizerReleasesOthers` | controllers/argocd/argocd_controller.go:152-175 | Deleting one instance after a pass of another one releases the namespace of the other and keeps its own |
| `ApplicationSets.Reconciler.Reconcile` | controllers/argocd/applicationset.go:147-157 | Whatever fails, a pass touches only served, tracked or own namespaces, changes nothing there but its label, role and binding, labels only free namespaces and never relabels another; without failures it leads to the state Settle gives, tracked set included |
| `ApplicationSets.Reconciler.SetManaged` | controllers/argocd/applicationset.go:942-961 | Labelled namespaces are added to the tracked set, which is never reset |
| `ApplicationSets.Reconciler.ReconcileSourceNamespaces` | controllers/argocd/applicationset.go:556-669 | Every namespace takes as many turns as it is listed, if it exists and matches, and none otherwise; a failed request affects only the turns of its own namespace, so at most as many namespaces are affected as requests fail, unless the failure ends the loop; other namespaces are never touched |
| `ApplicationSets.Reconciler.TakeTurn` | controllers/argocd/applicationset.go:566-666 | One position of the list keeps this |
| `ApplicationSets.Reconciler.ReconcileListed` | controllers/argocd/applicationset.go:566-666 | One turn touches only its own namespace and there only label, role and binding, whatever fails; without failures: label if there is none, role, binding and tracking, or cleanup next to a managed-by label |
| `ApplicationSets.ReconcileRole` | controllers/argocd/applicationset.go:964-998 | The roles are as before on failure, and otherwise have the role with the controller rules and are the same elsewhere |
| `ApplicationSets.ReconcileBinding` | controllers/argocd/applicationset.go:1001-1041 | On failure the bindings are as before; otherwise a missing one is created, subjects are corrected, and a binding to another role is deleted |
| `ApplicationSets.ServeSteps` | controllers/argocd/applicationset.go:602-652 | Label, role and binding of a namespace without managed-by label; a label is only added where there is none |
| `ApplicationSets.Reconciler.RemoveUnmanaged` | controllers/argocd/applicationset.go:862-889 | Whatever fails only tracked namespaces that are not served change, by the first requests of a cleanup; without failures exactly these are cleaned and no longer tracked |
| `ApplicationSets.Reconciler.RemoveIfUnserved` | controllers/argocd/applicationset.go:864-886 | The same for one tracked namespace |
| `ApplicationSets.Reconciler.Cleanup` | controllers/argocd/applicationset.go:892-938 | No other namespace changes, and this one by the first requests of the cleanup; without failures role, binding and label are gone, whoever the label names |
| `ApplicationSets.CleanSteps` | controllers/argocd/applicationset.go:901-935 | Role, binding and label go in this order, up to the first failure |
| `ApplicationSets.CleaningOrder` | controllers/argocd/applicationset.go:901-935 | A cleanup cut short has taken the label only after role and binding, and the binding only after the role |
| `ApplicationSets.Reconciler.NamespacesArgument` | controllers/argocd/applicationset.go:66-81 | The --applicationset-namespaces argument, read back, is exactly the set of served namespaces; when the namespaces can be listed it is left out exactly when none is served |
| `ApplicationSets.OnlyServedRemain` | controllers/argocd/applicationset.go:862-961 | After a pass every namespace labelled for the instance and every tracked one is served, that is, in the set passed to the controller |
| `ApplicationSets.NothingLeft` | controllers/argocd/applicationset.go:892-938 | After a pass a namespace known to the instance and not listed or matched, or one next to a managed-by label that another instance holds, has neither role, binding nor label of it, and is otherwise as before |
| `ApplicationSets.LeftAlone` | controllers/argocd/applicationset.go:587-600 | A namespace it has nothing to do with, or serves next to a managed-by label without another holder, is as before |
| `ApplicationSets.ServedGets` | controllers/argocd/applicationset.go:602-664 | Any other served namespace has label, role with the controller rules and, unless one to another role was just deleted, the binding of the controller's service account |
| `ApplicationSets.SettledAfterOneIff` | controllers/argocd/applicationset.go:1024-1028 | A second pass changes nothing exactly when the first one does not delete a binding to replace it |
| `ApplicationSets.SettledAfterTwo` | controllers/argocd/applicationset.go:556-669 | From any state a third pass changes nothing, tracked set included |
| `ApplicationSets.SparesOthersIff` | controllers/argocd/applicationset.go:587-600 | A pass keeps the labels of all other instances exactly under a condition on the tracked set and the managed-by labels before it |
| `ApplicationSets.PassReleasesOthers` | controllers/argocd/applicationset.go:942-945 | A pass of one instance after a pass of another takes the other's label away |
| `ApplicationSets.BothLabelsIff` | controllers/argocd/applicationset.go:587-600 | Next to a managed-by label the label of the instance survives a pass exactly when it was there and the namespace is served |
| `ApplicationSets.BothLabelsKept` | controllers/argocd/applicationset.go:587-600 | A namespace with both labels that a pass does not change |
| `ApplicationSets.BindingWantedIff` | controllers/argocd/applicationset.go:1024-1028 | A served namespace ends with the wanted binding unless it had one to another role and is listed once |
| `ApplicationSets.BindingLost` | controllers/argocd/applicationset.go:1024-1028 | A served namespace that a pass leaves without binding |
| `ManagedNamespaces.Reconciler.ReconcileRoleBinding` | controllers/argocd/rolebinding.go:100-217 | Service account, roles, bindings: whatever fails only the account, role and binding of the component change, only in listed live namespaces it concerns, and labels only of terminating ones; without failures every live namespace ends settled and every terminating one loses its label, from any earlier state |
| `ManagedNamespaces.Reconciler.ReconcileRole` | controllers/argocd/role.go:102-188 | The same for the roles alone |
| `ManagedNamespaces.Reconciler.ReconcileRoleIn` | controllers/argocd/role.go:107-185 | One namespace: its roles are as before or as wanted, and as wanted without failures; a terminating one only loses its label |
| `ManagedNamespaces.RoleSteps` | controllers/argocd/role.go:117-185 | The role is absent with a custom role or unused dex and has the given rules otherwise; a failure leaves the roles as they were |
| `ManagedNamespaces.Reconciler.ReconcileBindingIn` | controllers/argocd/rolebinding.go:112-216 | One namespace: its bindings are as before, as wanted, or lack the one being replaced, and as wanted without failures |
| `ManagedNamespaces.BindingSteps` | controllers/argocd/rolebinding.go:123-216 | The binding ends as wanted in one pass, although an update never changes what a binding refers to |
| `ManagedNamespaces.UpdateBinding` | controllers/argocd/rolebinding.go:194-203 | Updates are only asked for with the reference unchanged, as the API server demands |
| `ManagedNamespaces.Reconciler.DropLabel` | controllers/argocd/rolebinding.go:113-121 | A terminating namespace loses the managed-by label and nothing else |
| `ManagedNamespaces.BindingRefersToRole` | controllers/argocd/rolebinding.go:164-204 | After a pass a binding refers to the custom cluster role or to an existing role with the right rules and names an existing service account, and no role is without binding |
| `ManagedNamespaces.PermissionsGranted` | controllers/argocd/role.go:124-128 | Controller and server get role and binding in every live managed namespace, other components only where an instance runs or in the own namespace, the dex server only with dex; what they are is spelled out, and everything else is as before |
| `ManagedNamespaces.EarlierSettingForgotten` | controllers/argocd/rolebinding.go:189-216 | Earlier custom role or dex settings leave no trace |
| `ClusterRoles.Reconciler.Reconcile` | controllers/argocd/service_account.go:60-94 | A completed pass provides all four service accounts; whatever fails each of the four cluster roles and bindings is as before or where RoleAfter and BindingAfter say, without failures the latter, and no other name is touched |
| `ClusterRoles.Reconciler.ReconcileRoles` | controllers/argocd/role.go:76-82 | The first sweep over the components, the same for the roles |
| `ClusterRoles.Reconciler.ReconcileServiceAccounts` | controllers/argocd/service_account.go:69-75 | The second sweep, with service accounts and bindings |
| `Api.ReconcileServiceAccount` | controllers/argocd/service_account.go:100-135 | The account exists exactly when it is wanted, unless a request fails |
| `ClusterRoles.Reconciler.ReconcileServiceAccountClusterPermissions` | controllers/argocd/service_account.go:80-94 | Service account, role and binding of one component, after those before it: each as before or as wanted, and as wanted without failures |
| `ClusterRoles.Reconciler.ReconcileRoleAndBinding` | controllers/argocd/service_account.go:89-93 | Role and binding consistent with each other |
| `ClusterRoles.Reconciler.ReconcileClusterRole` | controllers/argocd/role.go:283-374 | One component: all or nothing on failure, and one write exactly when the role changes |
| `ClusterRoles.Reconciler.ReconcileUncustomised` | controllers/argocd/role.go:304-374 | Outside custom mode: one write exactly when the role changes, none on failure |
| `ClusterRoles.Reconciler.EnsureClusterRole` | controllers/argocd/role.go:337-374 | Creation, correction or deletion of an expected role |
| `ClusterRoles.Reconciler.CheckCustomClusterRoleMode` | controllers/argocd/role.go:386-410 | Custom mode is recognised exactly when allowed and set, and removes the default role |
| `ClusterRoles.Reconciler.ReconcileClusterRoleBinding` | controllers/argocd/rolebinding.go:341-414 | Binding of one component for the role it is given |
| `ClusterRoles.ConfigureAggregatedClusterRole` | controllers/argocd/role.go:413-450 | Turns a new role into the aggregated one of its component |
| `ClusterRoles.MatchAggregatedClusterRoleFields` | controllers/argocd/role.go:453-499 | Brings the compared fields in line, keeps rules filled in by aggregation, and reports a change exactly when there is one |
| `ClusterRoles.MatchDefaultClusterRoleFields` | controllers/argocd/role.go:502-525 | The same for default mode |
| `ClusterRoles.RoleAfterTwice` | controllers/argocd/role.go:358-373 | A second pass in the same mode finds nothing to change, from any state |
| `ClusterRoles.RoleExistsIff` | controllers/argocd/role.go:308-353 | From any state, which of the four roles exist after a pass, by mode; the refused combination changes nothing |
| `ClusterRoles.RoleHolds` | controllers/argocd/role.go:413-525 | What an existing role holds, by mode and component, in terms of policy, selectors, labels and annotations, from any state |
| `ClusterRoles.HistoryForgotten` | controllers/argocd/role.go:283-374 | After any sequence of mode changes, any of whose passes may fail, a role is what a first pass in the last mode that took effect creates, up to aggregated rules; the refused combination changes nothing |
| `ClusterRoles.HistoriesAgree` | controllers/argocd/role.go:283-374 | Two such histories with the same last effective mode agree, exactly so outside aggregated mode |
| `ClusterRoles.PassForgets` | controllers/argocd/role.go:452-525 | One pass forgets the mode before it |
| `ClusterRoles.BindingFollowsRole` | controllers/argocd/rolebinding.go:347-413 | Outside custom with aggregated, from any state, the binding exists exactly when the role does, which is when allowed and not custom, and refers to it |
| `ClusterRoles.BindingGrants` | controllers/argocd/rolebinding.go:388-399 | A binding grants the role of its component to the service account of its component, which a completed pass has provided |
| `ClusterRoles.PassGrants` | controllers/argocd/service_account.go:80-94 | After a completed pass over all components, controller and server have role and binding exactly when allowed and not custom, and the binding grants that role to an existing account |
| `ClusterRoles.BindingFollowsRoleIff` | controllers/argocd/rolebinding.go:347-350 | The exact condition for this over all modes |
| `ClusterRoles.BindingLeftBehind` | controllers/argocd/rolebinding.go:347-350 | Two passes after which a binding refers to a role that is gone |
| `ClusterRoles.RoleNameInjective` | controllers/argocd/role.go:51-53 | The components of an instance have different role names |
| `ActiveInstances.Accounting.Reconcile` | controllers/argocd/argocd_controller.go:128-160 | The step by step bookkeeping of map and gauges amounts to Account |
| `ActiveInstances.RunBalances` | controllers/argocd/argocd_controller.go:128-160 | Conservation over every run: total gauge and every phase gauge equal what the map counts, less the missed deletions |
| `ActiveInstances.MapFollowsEvents` | controllers/argocd/argocd_controller.go:128-153 | Over every run the map has for each namespace the phase it was last seen with, until it is deleted |
| `ActiveInstances.AccountBalances` | controllers/argocd/argocd_controller.go:128-160 | One reconciliation keeps this, and misses exactly deletions of untracked instances without phase |
| `ActiveInstances.GaugesAgreeIff` | controllers/argocd/argocd_controller.go:128-160 | From the start, gauges and map agree exactly when there was no such deletion |
| `ActiveInstances.NegativeGauges` | controllers/argocd/argocd_controller.go:152-158 | One such deletion makes both gauges negative |
| `ActiveInstances.RetriedDeletion` | controllers/argocd/argocd_controller.go:152-165 | A retried deletion of an instance with a phase counts once |
| `Hostname.ShortenHostname` | controllers/argocd/route.go:393-435 | The loops compute the closed form Shortened for every input |
| `Hostname.TrimFirst` | controllers/argocd/route.go:418-428 | The loop stops at the first length that fits or at 20, whichever comes first |
| `Hostname.ShortenedOutcome` | controllers/argocd/route.go:406-432 | Errors exactly for an over-long later label or a first label under 20 octets; otherwise only the first label changes, to a prefix of 20 to 63 octets |
| `Hostname.FitsIff` | controllers/argocd/route.go:390-392 | The limit of 253 is met exactly when at most 233 octets follow the first label |
| `Hostname.LongestFit` | controllers/argocd/route.go:421-427 | When it fits, no longer prefix of the first label would |
| `Hostname.ShortenTwice` | controllers/argocd/route.go:399-434 | Shortening is idempotent, also on results over the limit |
| `Hostname.OverlongResult` | controllers/argocd/route.go:424-432 | A name with legal labels that is returned with 276 octets |
| `Lists.JoinOfSplit` | controllers/argocd/route.go:404-419 | Joining the parts of a split gives the string back, and no part contains the separator |
| `Lists.SplitOfJoin` | controllers/argocd/route.go:404-419 | Splitting joined parts without separators gives them back |
| `Ordering.LessIff` | controllers/argocd/secret.go:405 | The order strings are sorted in: after a common prefix the smaller one ends or has the smaller character |
| `ClusterSecret.Store.ReconcileClusterPermissionsSecret` | controllers/argocd/secret.go:397-453 | With any number of cluster secrets the first one for the default server is reconciled or one is created; on failure none changes |
| `ClusterSecret.Store.DeleteManagedNamespace` | controllers/argocd/util.go:1337-1360 | All secrets for the default server are handled in turn, up to the first failure |
| `ClusterSecret.ReconciledView` | controllers/argocd/secret.go:419-453 | Among several secrets, the first one for the default server behaves like a single one under reconciliations |
| `ClusterSecret.RemovedView` | controllers/argocd/util.go:1337-1360 | And under removals, which cut short amount to a removal or to nothing |
| `ClusterSecret.OthersKept` | controllers/argocd/secret.go:419-441 | A reconciliation leaves secrets for other servers, and all but the first for the default server, alone |
| `ClusterSecret.RemovedEach` | controllers/argocd/util.go:1337-1360 | A removal handles every secret for the default server that has a list, and no other |
| `ClusterSecret.WithoutNamespace` | controllers/argocd/util.go:1341-1353 | Sorting and storing inside the loop is the same as once at the end, and stores nothing when nothing is kept |
| `ClusterSecret.AppendMissing` | controllers/argocd/secret.go:432-437 | Appends the names not yet in the list |
| `ClusterSecret.ContainsString` | controllers/argocd/util.go:1192-1199 | Finds a name exactly when some entry, trimmed, is equal to it |
| `ClusterSecret.TrimmedTwice` | controllers/argocd/util.go:1347-1350 | Trimming is idempotent and adds no character |
| `ClusterSecret.TrimmedExactly` | controllers/argocd/util.go:1347-1350 | Trimming takes spaces away at both ends, and all of them there |
| `ClusterSecretRuns.RunRefines` | controllers/argocd/secret.go:397-441 | Over every sequence of reconciliations and label removals from before the secret exists, the stored string is the sorted list of the set that AbstractRun computes; that set holds an empty name after a time in cluster configuration mode, see RunMeetsPromise |
| `ClusterSecretRuns.StoreRunRefines` | controllers/argocd/secret.go:397-453 | With failing requests and any number of secrets, the stored string is the sorted list of the set that a subsequence of the events amounts to |
| `ClusterSecretRuns.AlwaysAsPromisedIff` | controllers/argocd/secret.go:397-441 | Over every run the list is, at every moment, the managed namespaces and the owner less those whose label was removed, exactly when no removal meets a list with that entry alone and no reconciliation meets a secret that lost its list |
| `ClusterSecretRuns.RunMeetsPromise` | controllers/argocd/secret.go:424-441 | Over every run that leaves the owner's own label alone the list holds exactly the promised names and, once the instance was in cluster configuration mode after the secret was created, an empty one |
| `ClusterSecretRuns.EmptyNameIff` | controllers/argocd/secret.go:424-431 | The list holds an empty name exactly when the instance was in that mode after the secret was created |
| `ClusterSecretRuns.EmptyEntryAppears` | controllers/argocd/secret.go:424-431 | Three reconciliations after which the stored string starts with an empty entry |
| `ClusterSecretRuns.LastEntryStays` | controllers/argocd/util.go:1345-1353 | Removing the only entry changes nothing |
| `ClusterSecretRuns.RepresentsUnique` | controllers/argocd/secret.go:438-439 | That string is unique for the set |
| `ClusterSecretRuns.RemovalsTakeEffect` | controllers/argocd/util.go:1341-1353 | While the owner's own label is left alone, the owner stays listed and every removal removes exactly its namespace |
| `ClusterSecretRuns.ReconcileUnions` | controllers/argocd/secret.go:397-441 | From any earlier value a reconciliation unions managed namespaces and owner into the list and stores it sorted; a missing list counts as one empty name, so an empty name is listed exactly after a missing list or an empty name |
| `ClusterSecretRuns.ReconcileTwice` | controllers/argocd/secret.go:432-440 | Reconciling again is the identity |
| `ClusterSecretRuns.RemoveExact` | controllers/argocd/util.go:1341-1353 | From any value, a removal removes exactly the namespace if another entry is left, and otherwise nothing |
| `Environment.EnvMerge` | controllers/argoutil/env.go:12-39 | For every iteration order of the map: strictly sorted by name, and exactly the entries the override flag asks for |
| `Environment.Drain` | controllers/argoutil/env.go:28-30 | All values of the map, each once, in any order |
| `Environment.MergedUnique` | controllers/argoutil/env.go:28-36 | The result does not depend on that order |
| `Environment.MergedLookup` | controllers/argoutil/env.go:15-26 | Looking a name up in the result gives the last or first entry as the flag asks |
| `Environment.MergeTwice` | controllers/argoutil/env.go:15-36 | Merging the same list again changes nothing |
| `Environment.SwapIff` | controllers/argoutil/env.go:15-36 | Overriding a with b equals completing b from a exactly when names of a that b does not set are unambiguous in a |
| `Environment.SwapWithoutRepeats` | controllers/argoutil/env.go:15-36 | In particular without repeated names |
| `ControllerStatefulSet.Reconciler.ReconcileApplicationControllerStatefulSet` | controllers/argocd/statefulset.go:559-801 | A completed pass leads to After with the merged environment, and writes exactly when the set changes; with a broken pod it always writes; a pass that fails leaves the set as before, or without it when it was broken |
| `ControllerStatefulSet.UpdateFields` | controllers/argocd/statefulset.go:727-777 | All compared fields end as desired, and a change is reported exactly when there is one |
| `ControllerStatefulSet.GetArgoApplicationControllerCommand` | controllers/argocd/util.go:137-186 | The appending steps amount to the operator's own arguments followed by all extra arguments or by none |
| `ControllerStatefulSet.IsMergable` | controllers/argocd/deployment.go:338-351 | Accepts extra arguments exactly when none of their flags is already on the command line |
| `ControllerStatefulSet.RefusedIff` | controllers/argocd/deployment.go:338-351 | Extra arguments are refused exactly for an argument of two dashes and a name that is already there |
| `ControllerStatefulSet.OwnArguments` | controllers/argocd/util.go:137-175 | Which arguments the operator's own command line has, each when it applies, and that it has no others |
| `ControllerStatefulSet.ExtraArgsComeLast` | controllers/argocd/util.go:177-185 | In the command line of the create path the operator's own arguments come first and unchanged, and appended arguments repeat none of its flags |
| `ControllerStatefulSet.StrictTLSTwiceIff` | controllers/argocd/statefulset.go:735-738 | In that of the update path the strict TLS flag comes last, and is there twice exactly when it was among the arguments already |
| `ControllerStatefulSet.StrictTLSTwice` | controllers/argocd/statefulset.go:735-738 | A spec with that flag as extra argument gets it twice |
| `ControllerStatefulSet.EnvUnique` | controllers/argocd/statefulset.go:565-569 | All passes compute the same environment |
| `ControllerStatefulSet.EnvLookup` | controllers/argocd/statefulset.go:565-569 | A variable has the operator's value, else the one of the spec, and only without either the one of the proxy settings |
| `ControllerStatefulSet.UpgradeStamped` | controllers/argocd/statefulset.go:727-734 | The time of the pass is recorded exactly when it changes the image of an existing set |
| `ControllerStatefulSet.FixedAfterTwo` | controllers/argocd/statefulset.go:720-800 | From any state two passes reach the set the spec asks for, strict TLS flag and merged environment included, and a third one, at any later time, finds nothing to change |
| `ControllerStatefulSet.FixedAfterOneIff` | controllers/argocd/statefulset.go:735-743 | One pass is enough exactly unless it creates the set with strict TLS towards the repo server |
| `Sharding.GetApplicationControllerReplicaCount` | controllers/argocd/statefulset.go:509-557 | Replica count in dynamic, fixed and failing cases |
| `Sharding.OneMoreCluster` | controllers/argocd/statefulset.go:540-548 | One more cluster adds no or one shard, within the corrected bounds |
| `Sharding.ShardsMonotone` | controllers/argocd/statefulset.go:540-548 | The count is monotone and moves no more than the number of clusters |
| `Sharding.ShardsClamped` | controllers/argocd/statefulset.go:517-548 | The count is the number of full shards, moved into the bounds as little as needed |
| `Sharding.SettingsCorrected` | controllers/argocd/statefulset.go:517-531 | Bounds and divisor are at least one and in order, and each is the setting itself where that is possible |
| `Sharding.SharesSufficeIff` | controllers/argocd/statefulset.go:540-548 | The shards can take all clusters at the documented maximum exactly when the lower bound applies or the division is even within the upper bound |
| `Sharding.SharesFallShort` | controllers/argocd/statefulset.go:540 | A case in which they cannot, below the upper bound |
| `Redis.Reconciler.ReconcileWorkloads` | controllers/argocd/deployment.go:418-433 | For any refused writes the three workloads end where Passed says: handled in order up to the first failure; nothing is written exactly when nothing changes |
| `Redis.Reconciler.ReconcileRedisDeployment` | controllers/argocd/deployment.go:529-588 | The standalone deployment: created, corrected or deleted, in one write or none |
| `Redis.Reconciler.ReconcileRedisHAProxyDeployment` | controllers/argocd/deployment.go:789-829 | The proxy likewise |
| `Redis.RefreshStandalone` | controllers/argocd/deployment.go:541-566 | The compared fields end as desired, and a change is reported exactly when there is one |
| `Redis.RefreshProxy` | controllers/argocd/deployment.go:795-817 | The same for the proxy |
| `Redis.Reconciler.ReconcileRedisStatefulSet` | controllers/argocd/statefulset.go:417-469 | The highly available server likewise, container by container; a set with more containers than the spec knows fails without a change |
| `Redis.RefreshServer` | controllers/argocd/statefulset.go:423-446 | All containers end with the wanted image and resources, and a change is reported exactly when there is one |
| `Redis.Reconciler.ReconcileRedisService` | controllers/argocd/service.go:263-302 | The service; an annotation change ends the pass |
| `Redis.EnsureAutoTLSAnnotation` | controllers/argocd/service.go:312-348 | The annotation is set or removed as asked, not requested when the secret exists already, and a change is reported exactly when there is one |
| `Redis.AnnotationRequested` | controllers/argocd/service.go:312-348 | The annotation asks for the Redis secret exactly when enabled on a platform with routes, unless the secret exists without it having been asked for; all other annotations are kept |
| `Redis.OnePassSettles` | controllers/argocd/deployment.go:529-588 | From any state a completed pass leaves a deployment exactly when the spec asks for it, given no remote endpoint, with every compared field as desired, all others as before and the time of the pass on it exactly after a new image; later passes change nothing |
| `Redis.ServerSettles` | controllers/argocd/statefulset.go:417-469 | The same for the highly available server, which keeps the number of its containers |
| `Redis.OneServer` | controllers/argocd/statefulset.go:417-469 | Standalone and highly available server never coexist after a completed pass, and one exists when Redis is enabled and local |
| `Redis.CoexistIff` | controllers/argocd/deployment.go:418-433 | The exact condition, on the refused writes and the workloads before, under which any pass leaves both |
| `Redis.NoServerIff` | controllers/argocd/deployment.go:418-433 | The exact condition under which any pass for an enabled local Redis leaves none |
| `Redis.BothServers` | controllers/argocd/deployment.go:529-588 | A refused deletion of the proxy leaves both servers |
| `Redis.ServiceSettles` | controllers/argocd/service.go:263-302 | The service reaches its target within two passes and stays |
| `Redis.ServiceLingersIff` | controllers/argocd/service.go:270-275 | One pass is not enough exactly when a highly available setup still has the annotation to change |
| `TlsRollout.Reconciler.ReconcileTLSSecret` | controllers/argocd/secret.go:460-522 | For any refused requests: nothing changes, or the checksum of certificate followed by key (empty for a missing or incomplete secret) is stored and then the workloads up to the first refused one are restarted; a secret of another type changes nothing; an error is returned exactly when a request that is reached is refused |
| `TlsRollout.RestartedIff` | controllers/argocd/secret.go:499-518 | A workload is restarted, once, exactly when it is present and no present workload at or before it is refused |
| `TlsRollout.RestartsBounded` | controllers/argocd/secret.go:489-519 | Over every run with any failures a workload is restarted at most once per change of the secret |
| `TlsRollout.RestartedOnceIff` | controllers/argocd/secret.go:489-519 | Between two changes of the secret, however many reconciliations there are: one restart if the first reconciliation that stores the checksum reaches the workload, and none otherwise |
| `TlsRollout.RenewalRestarts` | controllers/argocd/secret.go:478-519 | A pass over a certificate and key with another checksum restarts every reached workload once more |
| `TlsRollout.RolloutOrder` | controllers/argocd/secret.go:499-518 | With everything present and granted, the workloads each protocol restarts, in order |
| `TlsRollout.StoredIsFinal` | controllers/argocd/secret.go:489-490 | Once the checksum is stored nothing is restarted, and nothing missed is made up for, until the secret changes |
| `TlsRollout.AtMostOneRestart` | controllers/argocd/secret.go:490-497 | So between two changes at most one restart each |
| `TlsRollout.RestartMissed` | controllers/argocd/secret.go:490-504 | A restart that is refused after the checksum is stored is not made up for by any sequence of later reconciliations |
| `TlsRollout.ActionsDistinct` | controllers/argocd/secret.go:567-620 | Neither the repo server nor the Redis protocol restarts a workload twice in a pass |
| `TlsOwners.RedisShouldUseTLS` | controllers/argocd/util.go:687-734 | TLS is used exactly when an ArgoCD resource stands behind the secret |
| `TlsOwners.TlsSecretMapper` | controllers/argocd/custommapper.go:70-128 | At most one request, for the resource behind a secret of interest |
| `TlsOwners.InterestIff` | controllers/argocd/custommapper.go:42-66 | Which owners and secrets are of interest, by kind and ending of the name |
| `TlsOwners.BehindIff` | controllers/argocd/custommapper.go:70-128 | The resource behind a secret is the first ArgoCD owner of the first service of interest that has one, all before it being there, or the one in the annotation |
| `TlsOwners.RedisTLSIsWatched` | controllers/argocd/custommapper.go:70-128 | Redis uses TLS exactly when a change of its secret is mapped to exactly one request |
| `Conversion.ConvertToSSO` | api/v1alpha1/argocd_conversion.go:25-52 | The converted block is as ForwardSSO says, shares the keycloak block with the input, and changes the input exactly when deprecated settings differ from that block |
| `Conversion.ConvertList` | api/v1alpha1/argocd_conversion.go:372-382 | List converters keep all elements in order and turn an empty list into an absent one |
| `Conversion.FieldsKeepTheirNames` | api/v1alpha1/argocd_conversion.go:55-100 | Every field goes to the field of the same name, in both directions |
| `Conversion.DeprecatedWin` | api/v1alpha1/argocd_conversion.go:25-52 | Single sign-on field by field: deprecated keycloak settings win together over the block, and an active deprecated dex block over provider and dex block |
| `Conversion.NothingDeprecated` | api/v1alpha1/argocd_conversion.go:115-119 | Back again single sign-on is field by field the same and nothing is deprecated |
| `Conversion.RoundTrips` | api/v1alpha1/argocd_conversion.go:15-172 | Forward, back and forward again equals forward, and the other way round, for every object |
| `Conversion.AlphaSurvivesIff` | api/v1alpha1/argocd_conversion.go:15-172 | A v1alpha1 object survives a round trip exactly when it uses nothing deprecated, no dropped field and no empty list |
| `Conversion.GrafanaForgotten` | api/v1alpha1/argocd_conversion.go:260-271 | Every object with one of the four dropped fields of grafana set is changed by a round trip |
| `Conversion.DexEnvForgotten` | api/v1alpha1/argocd_conversion.go:115-119 | Every v1beta1 object with an env in its dex block is changed by a round trip |
| `Conversion.InputWritten` | api/v1alpha1/argocd_conversion.go:30-41 | A conversion that writes to the keycloak block of its input |
| `Conversion.BetaSurvivesIff` | api/v1alpha1/argocd_conversion.go:15-172 | A v1beta1 object survives exactly when it uses nothing v1alpha1 lacks |
| `Conversion.ConvertAgain` | api/v1alpha1/argocd_conversion.go:30-41 | An input written to by an earlier conversion converts to the same |
| `Conversion.DeprecatedDexLegalIff` | api/v1alpha1/argocd_conversion.go:43-52 | An active deprecated dex block becomes a legal setup exactly without keycloak block and without deprecated keycloak setting |
| `Sso.Classify` | controllers/argocd/sso.go:68-170 | The cascade accepts exactly the setups that name one of the two providers without the block of the other; dex also needs a configuration, keycloak needs no block |
| `Sso.IllegalIff` | controllers/argocd/sso.go:86-166 | All the ways in which a setup that names dex or keycloak, in any case of letters, is illegal |

## Left out

- Cleanup of cluster resources, managed-by labels and ApplicationSet namespaces on deletion, and the finalizer list itself.
- Ownership of ApplicationSet namespaces across instances: it is not kept even without failures, see PassReleasesOthers.
- Runs that mix deletions with other passes: the finalizer works on a set shared by all instances, and its effect is stated call by call instead.
- ApplicationSets.Reconciler.NamespacesArgument: the namespaces served have no comma in their name, as the API server demands of every namespace.
- Sharding.GetApplicationControllerReplicaCount: the cast of the number of secrets to 32 bits is not modelled beyond that range.
- ManagedNamespaces.Reconciler.ReconcileRoleBinding: the list of managed namespaces is not changed when a label is dropped.
- Redis.Reconciler.ReconcileWorkloads: lookups succeed; the source takes a failed lookup of a workload for its absence.
- ControllerStatefulSet.Reconciler.ReconcileApplicationControllerStatefulSet: the same.
- Hooks that change resources on the way are taken to be absent.
- Redis HA announce services: the loop returns at the first service it finds, so there is nothing to converge to.
- Notifications, Keycloak, Dex, Prometheus, routes, ingresses, config maps, network policies and exports: they build resources from templates or call foreign services.
- Defaulting, conflicts and concurrency of the API server: a reconciliation is atomic.
- Plain getters for images, log levels, addresses and resources: each is settled by reading one branch.
