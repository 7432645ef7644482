# Verified model of the tenancy operator

A Dafny model of the operator that manages `Organization`, `OrganizationProfile`,
`OrganizationProject` and `MaaSConfiguration` objects: the four validating webhooks with their
shared hierarchical authorizer, and the organization, project and MaaS controllers. The whole
project is checked by `dafny verify dfyconfig.toml`.

## What is modelled

| file | contents |
|---|---|
| `Objects.dfy` | stored objects; `Reader`, what the reads of one request return, including failing reads |
| `Hierarchy.dfy` | the unbounded parent relation and the bounded walk to the root |
| `Authz.dfy` | identities, admin lists, the bounded ancestor walk against unbounded inheritance |
| `Webhooks.dfy` | which creates, updates and deletes are admitted, and why others are not |
| `Operator.dfy` | webhooks and controllers as one state machine over a shared store, with stale reads |
| `Confinement.dfy` | authority never crosses into a part of the hierarchy that lists no outsider |
| `RootStability.dfy` | resolved roots are true and final, and so are the namespace labels copied from them |
| `Naming.dfy` | names agree with references; the MaaS finalizer's last write against its own webhook |
| `Quota.dfy` | the project quota as a check-then-commit protocol with lagging reads |
| `NetworkPolicies.dfy` | what policies permit, and what may be permitted while they are being replaced |
| `OrganizationController.dfy`, `ProjectController.dfy` | the controllers' actions, call by call, with failing calls |
| `Rendering.dfy` | rendering a configuration into the unstructured AITenant |
| `MaasProtocol.dfy`, `MaasController.dfy` | the finalizer protocol in small steps with a lagging cache of the configuration; the code as runs of it |

Code that loops or writes is modelled by methods and classes; each is proved equal to a
specification function or directly against the property, and the theorems are about those
functions. Code that only decides is modelled by functions.

### Assumptions

- The API server stores organizations under their own non-empty names, gives a configuration a uid
  not used before under its name, drops status on create and update, keeps an object with finalizers
  until the last one is gone, lets nobody add finalizers to a deleted object, and rejects a write that
  carries an old version.
- Reads of the runs in `Operator.dfy` may be stale: each read returns what some state of the run so
  far held under that name, or misses, or fails. The profile a quota check reads may be as old, and
  its listing may miss a bounded number of stored projects. In the MaaS protocol the controller's
  cache of the configuration may lag, but never goes back; reads of the AITenant, an unstructured
  object that the default client does not cache, are current.
- A read that fails in a webhook request fails each time that request repeats it.
- Only the controllers write status and the MaaS finalizer, and nobody else makes a
  MaaSConfiguration the controller of an AITenant. Reconciles of one name are serial.
- The role reference of a stored RoleBinding is immutable: an update with another one is refused.
- Action pipelines stop at the first error. Setting a controller reference fails when another
  controller is already set.

### Where the code differs from its documentation

- Profile updates: ancestors are documented not to inherit configuration rights. An ancestor admin
  may nevertheless change any configuration together with the admin list. `ConfigurationRightsExact`
  gives the exact condition.
- A failed read of the profile silently turns an organization default of `strict` or `none` into
  `tenant` for that reconcile; `FailedReadChangesIngressExactly` says for which traffic this makes a
  difference.
- Unlike policies, role bindings of others are not protected: an unwanted `tenant-<role>` binding is
  deleted whoever controls it, and a wanted one without controller is overwritten
  (`OthersMayLoseBindings`). `OthersKeptExactly` says when nothing of others is lost.
- Cleanup checks the control of the AITenant and then deletes by name, so a foreign AITenant that
  takes the name in between is deleted; `DeletionHitsOwnExactly` gives the exact condition.
- Writing the preset before deleting is what keeps the transition safe
  (`DeletingFirstOpensTheNamespace`); writing the deny policy before the allow policy is not needed
  for it, since every policy of a preset applies to every pod.

## Model

| member | source | states |
|---|---|---|
| Authz.IsTrusted | internal/webhook/v1alpha1/authz.go:74-85 | trusted iff some group is the operator's service-account group or a configured cluster-admin group |
| Authz.TrustedExactly | internal/webhook/v1alpha1/authz.go:74-85 | trusted exactly with the literal operator group among the groups, or any configured cluster-admin group |
| Authz.ServiceAccountEncodingExact | internal/webhook/v1alpha1/authz.go:88-98 | against arbitrary subject strings, the encoded username of a colon-free namespace and name matches exactly that namespace and name |
| Authz.ServiceAccountAdmins | internal/webhook/v1alpha1/authz.go:88-116 | a service account is self admin iff some listed subject names it, one of its groups, or its full username |
| Authz.SelfAdmin | internal/webhook/v1alpha1/authz.go:102-116 | the early-return loop answers yes iff some listed admin matches, no on a missing profile, error on a failed read |
| Authz.SelfAdminExactly | internal/webhook/v1alpha1/authz.go:88-116 | from the stored list alone, for every kind of subject and every requester: yes iff a User, Group or ServiceAccount entry names the requester; error iff the read fails |
| Authz.AncestorAdmin | internal/webhook/v1alpha1/authz.go:120-143 | the loop is the recursive three-step walk, with its error and end-of-chain cases |
| Authz.AncestorAdminExactly | internal/webhook/v1alpha1/authz.go:120-143 | under any failing reads: yes iff one of the first three names lists the requester and every read up to it succeeds |
| Authz.WalkGrantsOnlyInherited | internal/webhook/v1alpha1/authz.go:120-143 | whatever reads fail, a yes means a real admin entry on the organization or an ancestor, within the bound and read without failure |
| Authz.BoundedWalkIsTruncation | internal/webhook/v1alpha1/authz.go:120-143 | without failing reads the walk is exactly unbounded inheritance cut to three names |
| Authz.BoundedWalkRefinesInheritance | internal/webhook/v1alpha1/authz.go:118-143 | wherever the root controller resolves the organization, the walk equals unbounded inheritance |
| Authz.BoundIsHarmlessExactly | internal/webhook/v1alpha1/authz.go:35-38 | the walk equals unbounded inheritance for all users and admin lists iff the fourth name on the chain is empty or repeats one of the first three |
| Hierarchy.ComputeRootWalk | internal/controller/organization/organization_controller_actions.go:77-90 | the loop is the recursive three-step walk |
| Hierarchy.WalkIsSound | internal/controller/organization/organization_controller_actions.go:77-90 | a reported root is the top of the unbounded parent chain, whatever reads fail |
| Hierarchy.RootWalkExact | internal/controller/organization/organization_controller_actions.go:59-90 | under any failing reads, the walk succeeds iff a parentless organization lies within two existing parent links whose reads succeed |
| Hierarchy.TooDeepExactly | internal/controller/organization/organization_controller_actions.go:77-90 | it gives up for depth iff three parent links in a row can be read |
| Hierarchy.CyclesAreRefused | internal/controller/organization/organization_controller_actions.go:77-90 | an organization whose chain repeats a name is always an error |
| Hierarchy.DanglingParentsAreRefused | internal/controller/organization/organization_controller_actions.go:83-86 | a chain into a missing organization is always an error |
| Hierarchy.FourthLevelIsRefused | internal/controller/organization/organization_controller_actions.go:79-89 | success means that the whole chain has at most three organizations |
| Webhooks.RootsNeedTrust | internal/webhook/v1alpha1/organization_webhook.go:56-62 | a root is admitted iff the requester is trusted |
| Webhooks.HierarchyRequestsNeedAuthority | internal/webhook/v1alpha1/organization_webhook.go:58-71 | fail closed: untrusted organization requests and profile creates are admitted only with inherited authority, unchanged parent and matching name |
| Webhooks.OwnedRequestsNeedAuthority | internal/webhook/v1alpha1/organizationproject_webhook.go:60-78 | the same for project requests and profile updates, whose references never change |
| Webhooks.InheritedAuthorityIsEnough | internal/webhook/v1alpha1/authz.go:145-163 | over a resolved organization and without failing reads, inherited authority admits child creates, updates iff they keep the parent or the reference, and project creates iff below the limit |
| Webhooks.InheritedAuthorityOverProfiles | internal/webhook/v1alpha1/organizationprofile_webhook.go:58-80 | inherited authority admits profile creates iff the name matches, and updates iff they keep the reference and either change the admin list or come from a self admin or a trusted requester |
| Webhooks.HierarchyAdmissionExact | internal/webhook/v1alpha1/organization_webhook.go:56-71 | exactly which organization and profile requests are admitted, by whom and under which failing reads, trusted requesters included |
| Webhooks.ProjectAdmissionExact | internal/webhook/v1alpha1/organizationproject_webhook.go:60-110 | exactly which project requests are admitted: authority, readable profile and listing, and the organization's projects below its limit |
| Webhooks.ConfigurationAdmissionExact | internal/webhook/v1alpha1/maasconfiguration_webhook.go:25-73 | exactly which configuration creates, updates and deletes are admitted: name, stored root, no other configuration, and a trusted or self-admin requester |
| Webhooks.FaultsOnlyRefuse | internal/webhook/v1alpha1/authz.go:145-183 | fail closed for all nine verbs: what is admitted under failing reads is admitted without |
| Webhooks.ConfigurationRightsExact | internal/webhook/v1alpha1/organizationprofile_webhook.go:67-80 | over every fault-free reader that holds the stored profile and resolves its organization: only self admins can make a profile change iff the change leaves the admin list alone |
| Webhooks.AncestorAdminEditsProfile | internal/webhook/v1alpha1/organizationprofile_webhook.go:72-76 | the failing case, for every change of the admin list: an admin of the stored root above, not listed on the profile, is admitted |
| Webhooks.CountProjects | internal/webhook/v1alpha1/organizationproject_webhook.go:97-105 | in any list order the counting loop gives the number of the organization's projects as a 32-bit counter shows it |
| Webhooks.CheckProjectQuota | internal/webhook/v1alpha1/organizationproject_webhook.go:86-110 | the verdict (error, missing profile, limit reached, admitted) is the one of the true count iff the counter has not wrapped below a limit already reached, which takes 2^31 projects |
| Webhooks.Validate | internal/webhook/v1alpha1/maasconfiguration_webhook.go:41-73 | the configuration checks in their order, with the duplicate scan as a search over all stored configurations |
| Confinement.AuthorityIsConfined | internal/webhook/v1alpha1/authz.go:102-183 | for organizations closed under parent and users listed on none of them, every state of every run of these users' requests, the three controllers' writes (any configuration update that keeps the spec among them) and outside deletions, over stale reads, lists none of them inside and keeps every inside spec, with no new project, configuration or child; only a configuration already being deleted may go |
| Confinement.NobodyGainsAuthority | internal/webhook/v1alpha1/authz.go:145-183 | in such a run no webhook ever takes one of the users for an admin inside |
| Confinement.NotAdminInside | internal/webhook/v1alpha1/authz.go:120-143 | over any mixture of old reads the walk never answers yes inside |
| Confinement.NoNamespaceJoins | internal/controller/organizationproject/organizationproject_controller_namespace.go:26-33 | in every state of every such run, a namespace labelled with an inside organization was so labelled, or belonged to an inside project, at the start |
| Confinement.TenantIngressIsConfined | internal/controller/organizationproject/organizationproject_controller_netpol.go:115-131 | so whatever the users do, the `tenant` preset of an inside organization permits only namespaces that were inside at the start |
| OrganizationController.Request.ComputeRoot | internal/controller/organization/organization_controller_actions.go:62-75 | status.root becomes the walked root and nothing else changes; on error the instance stays as it was |
| OrganizationController.WithRootExactly | internal/controller/organization/organization_controller_actions.go:62-90 | the root written is the top of the parent chain |
| OrganizationController.Request.EnsureProfile | internal/controller/organization/organization_controller_actions.go:22-57 | after success on a missing profile the default one is stored under the name and every other name keeps its profile; an existing one is never overwritten; succeeds iff the profile is there or can be created |
| OrganizationController.DefaultProfileExactly | internal/controller/organization/organization_controller_actions.go:34-56 | the default profile by value: no admins, `tenant`, zero projects, both labels, controlled by the organization |
| OrganizationController.WithProfileExactly | internal/controller/organization/organization_controller_actions.go:22-57 | the profiles afterwards, name by name |
| OrganizationController.Request.Reconcile | internal/controller/organization/organization_controller.go:36-43 | root first; succeeds iff the root resolves and the profile is there or can be created; then the true root is in status and a missing profile is stored as the default one; otherwise no profile is written |
| OrganizationController.DefaultProfileIsRestrictive | internal/controller/organization/organization_controller_actions.go:34-50 | under the default profile nobody is self admin and nobody, trusted or not, is admitted a project |
| RootStability.RootsAreTrueAndStable | internal/controller/organization/organization_controller_actions.go:62-90 | in every run without Organization deletions, over stale reads, a non-empty root is the top of a chain of at most three, roots and parents never change, and controlled namespaces carry an organization and its true root |
| RootStability.ResolvedRootIsTrue | internal/controller/organization/organization_controller_actions.go:77-90 | a root computed from stale reads is the root in the current hierarchy |
| RootStability.UnresolvedHasNoNamespace | internal/controller/organizationproject/organizationproject_controller_actions.go:38-56 | in such a run an organization the walk refuses has no provisioned namespace |
| Naming.NamesAlwaysAgree | internal/webhook/v1alpha1/organizationprofile_webhook.go:58-80 | in every reachable state profiles and configurations are named after the organization they reference |
| Naming.DuplicateScanNeverDecides | internal/webhook/v1alpha1/maasconfiguration_webhook.go:61-69 | no two configurations share an organization, and the duplicate scan is never what rejects a request, even over stale listings |
| Naming.FinalizerRemovalExact | internal/webhook/v1alpha1/maasconfiguration_webhook.go:29-73 | in every reachable state the operator's finalizer-removing update is admitted iff the organization still exists and is a root |
| Naming.OneWriteClearsTheFinalizer | internal/controller/maasconfiguration/maasconfiguration_controller_actions.go:147-150 | where admitted, that one write removes the finalizer, and a deleted configuration with no other finalizer is gone |
| Naming.CleanupIsNeverRefused | QUAY_DEMO.md:158-160 | in every run without Organization deletions, the operator's finalizer-removing update of every stored configuration is admitted |
| Naming.ReachableFromEmpty | internal/webhook/v1alpha1/maasconfiguration_webhook.go:29-73 | the invariants on names, roots, labels and configurations hold of everything reachable from the empty store |
| Operator.ConfigurationWrites | internal/webhook/v1alpha1/maasconfiguration_webhook.go:25-73 | a configuration request that changes the store had self-admin authority and, unless a delete, named an existing root |
| Operator.EnsuredNamespaceExact | internal/controller/organizationproject/organizationproject_controller_namespace.go:26-33 | refused iff another controller owns the namespace; otherwise two labels and the controller are set and all else is kept |
| Operator.OrganizationReconcileTakesEffect | internal/controller/organization/organization_controller_actions.go:22-90 | in the shared store, a reconcile whose writes go through leaves the top of the chain in status and the default profile where none was |
| Operator.ProjectReconcileTakesEffect | internal/controller/organizationproject/organizationproject_controller_namespace.go:15-47 | in the shared store, a reconcile of a project of a resolved organization leaves its namespace labelled and controlled, and every other one as it was |
| Operator.AdmittedCreatesAreStored | internal/webhook/v1alpha1/organizationproject_webhook.go:60-66 | an admitted create of a new name is stored as sent, without status |
| Operator.AdmittedUpdatesAreStored | internal/webhook/v1alpha1/organizationproject_webhook.go:69-78 | an admitted update replaces the spec and keeps uid and status |
| Operator.AdmittedDeletesTakeEffect | internal/webhook/v1alpha1/maasconfiguration_webhook.go:36-39 | an admitted delete removes the configuration, or marks it while it has finalizers |
| Quota.QuotaBound | internal/webhook/v1alpha1/organizationproject_webhook.go:60-110 | with at most c uncommitted creates, profile reads as old as the run and listings that miss at most d projects, committed plus pending projects never exceed the highest limit ever set plus c - 1 + d |
| Quota.MoveIsBounded | internal/webhook/v1alpha1/organizationproject_webhook.go:69-110 | only an admitted check for the organization increases what it owns, and only below the limit that check read plus d; commits, updates, deletes and profile changes never do |
| Quota.QuotaBoundIsReached | internal/webhook/v1alpha1/organizationproject_webhook.go:91-108 | from any state below the limit plus d, c creates checked together all commit, with at most c uncommitted and the limit unchanged; at limit - 1 + d this ends exactly at the bound |
| Quota.QuotaBoundIsTight | internal/webhook/v1alpha1/organizationproject_webhook.go:86-110 | for every positive limit, c and d, a run from a store without projects ends exactly at the bound of QuotaBound; with d > 0 this exceeds the bound for complete listings |
| NetworkPolicies.TransitionSafety | internal/controller/organizationproject/organizationproject_controller_netpol.go:44-87 | in every state on the way, with any foreign policies, permitted ingress is within what the start or the target permits |
| NetworkPolicies.DeletingFirstOpensTheNamespace | internal/controller/organizationproject/organizationproject_controller_netpol.go:46-87 | deleting before writing breaks that containment |
| NetworkPolicies.TargetIsFixed | internal/controller/organizationproject/organizationproject_controller_netpol.go:32-90 | reconciling the policies twice equals reconciling them once |
| NetworkPolicies.TargetExactly | internal/controller/organizationproject/organizationproject_controller_netpol.go:26-90 | by value: foreign, differently named and other namespaces' policies are unchanged; under the three managed names stand exactly the preset's policies |
| NetworkPolicies.TargetIsTargetAt | internal/controller/organizationproject/organizationproject_controller_netpol.go:26-90 | the target holds exactly the preset under the managed names nobody else controls, and every other policy unchanged |
| NetworkPolicies.DesiredPolicies | internal/controller/organizationproject/organizationproject_controller_netpol.go:93-147 | every preset policy applies to all pods, under distinct managed names |
| NetworkPolicies.PresetNames | internal/controller/organizationproject/organizationproject_controller_netpol.go:93-113 | the names of each preset's policies, deny first |
| NetworkPolicies.TenantOnly | internal/controller/organizationproject/organizationproject_controller_netpol.go:115-131 | with only managed policies, `tenant` (and any unknown preset) permits exactly sources from namespaces labelled with the organization |
| NetworkPolicies.StrictOnly | internal/controller/organizationproject/organizationproject_controller_netpol.go:133-147 | with only managed policies, `strict` permits exactly the same namespace |
| NetworkPolicies.NoneOnly | internal/controller/organizationproject/organizationproject_controller_netpol.go:95-96 | with only managed policies, `none` permits everything |
| ProjectController.Client.WritePreset | internal/controller/organizationproject/organizationproject_controller_netpol.go:46-64 | preset policies are written in order unless a foreign one is met; wherever it stops, the stored policies are on the way to the target and every state stored is contained |
| ProjectController.Client.PruneManaged | internal/controller/organizationproject/organizationproject_controller_netpol.go:66-90 | unwanted own policies are deleted; success is exactly the target; wherever it stops, the stored policies are on the way to it and every state stored is contained |
| ProjectController.Request.EnsureNetworkPolicies | internal/controller/organizationproject/organizationproject_controller_netpol.go:32-90 | whichever calls fail, the policies left behind are on the way to the target and every state stored is contained; success leaves exactly the target; without API errors it succeeds iff no preset name is foreign |
| ProjectController.TracedMeansContained | internal/controller/organizationproject/organizationproject_controller_netpol.go:44-87 | containment holds of each single write of a reconcile, the last of which is what is stored |
| ProjectController.SubjectsForRole | internal/controller/organizationproject/organizationproject_controller_rbac.go:54-69 | the loop is the filter-and-convert function |
| ProjectController.SubjectsKeepOrder | internal/controller/organizationproject/organizationproject_controller_rbac.go:54-69 | the subjects are exactly the role's users, in order, none twice and none missing, each with its user's kind and name, and its namespace or the API group by kind |
| ProjectController.RolesPartitionUsers | internal/controller/organizationproject/organizationproject_controller_rbac.go:25-26 | with roles edit and view the two lists together conserve the number of users |
| ProjectController.BindingsExact | internal/controller/organizationproject/organizationproject_controller_rbac.go:25-48 | each binding exists iff its list is non-empty and holds exactly it; no other binding changes |
| ProjectController.BindingsByName | internal/controller/organizationproject/organizationproject_controller_rbac.go:25-48 | `tenant-edit` and `tenant-view` exist iff the role has users and are bound to the cluster role of that name; no other binding changes |
| ProjectController.BindingsRefusedExactly | internal/controller/organizationproject/organizationproject_controller_rbac.go:36-47 | binding is refused iff, for a role with users, the binding of that name is held by another controller or refers to another role |
| ProjectController.OthersKeptExactly | internal/controller/organizationproject/organizationproject_controller_rbac.go:25-48 | wherever binding stops, all bindings the namespace does not control are kept iff none of them held one of the names written |
| ProjectController.OthersMayLoseBindings | internal/controller/organizationproject/organizationproject_controller_rbac.go:29-45 | the two failing cases: another controller's binding is deleted, an uncontrolled one is overwritten |
| ProjectController.Request.EnsureRbac | internal/controller/organizationproject/organizationproject_controller_rbac.go:16-51 | success leaves exactly the specified bindings; wherever it stops, the bindings are those after some number of roles |
| ProjectController.ReadFailureHarmlessExactly | internal/controller/organizationproject/organizationproject_controller_actions.go:71-82 | the silent fallback on a failed read chooses the same preset iff the project sets its own or the default is empty or `tenant` |
| ProjectController.FailedReadChangesIngressExactly | internal/controller/organizationproject/organizationproject_controller_actions.go:71-82 | after a reconcile whose profile read failed, ingress is what the organization default documents exactly where that default and `tenant` agree about the two projects |
| ProjectController.FailedReadOpensStrict | internal/controller/organizationproject/organizationproject_controller_actions.go:71-82 | the failing case: under a `strict` default every other project of the organization is let in |
| ProjectController.Request.ValidateParentOrganization | internal/controller/organizationproject/organizationproject_controller_actions.go:38-56 | passes iff the organization is readable and resolved, and records it in the shared state |
| ProjectController.Request.ComputeEffectiveIsolation | internal/controller/organizationproject/organizationproject_controller_actions.go:59-82 | records the project's preset, else the organization default, else `tenant`; never empty |
| ProjectController.TheDocumentedPresetIsInForce | internal/controller/organizationproject/organizationproject_controller_actions.go:59-82 | on traffic, for every outcome of the profile read: the project's own preset rules if it sets one, else the organization's default, else `tenant` |
| ProjectController.Request.EnsureNamespace | internal/controller/organizationproject/organizationproject_controller_namespace.go:15-47 | labels and controls the namespace, records it in the shared state and in status |
| ProjectController.Request.Reconcile | internal/controller/organizationproject/organizationproject_controller.go:47-58 | the missing-state errors are unreachable; success is exactly the provisioned world; without API errors success iff provisioning is possible; wherever it stops, the store is unchanged or holds the namespace, some of the bindings and policies on the way; every policy state stored is contained |
| ProjectController.PartwayTouchesOneNamespace | internal/controller/organizationproject/organizationproject_controller.go:47-58 | wherever a reconcile stops, no namespace, binding or policy outside the project's own namespace has changed |
| ProjectController.PartwayIsContained | internal/controller/organizationproject/organizationproject_controller_netpol.go:44-87 | wherever a reconcile stops, ingress into its namespace is within what the start or the target permits |
| ProjectController.ProvisionExactly | internal/controller/organizationproject/organizationproject_controller.go:47-58 | by value: provisioning succeeds iff nobody else controls the namespace, binding is possible and no preset name is foreign; then bindings and policies are those specified |
| ProjectController.ProvisionIsFixed | internal/controller/organizationproject/organizationproject_controller.go:50-54 | repeating a successful reconcile leaves the store unchanged |
| ProjectController.ProvisionLabels | internal/controller/organizationproject/organizationproject_controller_namespace.go:26-33 | the project's namespace carries its organization and root; other namespaces are untouched |
| ProjectController.ProvisionEstablishes | internal/controller/organizationproject/organizationproject_controller.go:50-54 | a successful reconcile leaves the namespace labelled, controlled and under exactly the preset |
| ProjectController.OtherJobsPreserve | internal/controller/organizationproject/organizationproject_controller.go:50-54 | a reconcile of one project, finished or stopped anywhere, leaves every other provisioned project provisioned |
| ProjectController.RepeatedJobsPreserve | internal/controller/organizationproject/organizationproject_controller.go:50-54 | so does another reconcile of the project itself with the same preset, finished or stopped anywhere |
| ProjectController.LastReconcileStands | internal/controller/organizationproject/organizationproject_controller.go:47-58 | after any series of reconciles of any projects, finished or stopped anywhere, a project is provisioned as its last finished one left it, unless a later one aims at something else |
| ProjectController.PresetsMeanWhatTheySay | internal/controller/organizationproject/organizationproject_controller_netpol.go:26-31 | between any two provisioned projects of one store, with only managed policies in the target, `tenant` ingress holds iff both name the same organization, `strict` iff same namespace, `none` always |
| ProjectController.TenantIngressIsEquivalence | internal/controller/organizationproject/organizationproject_controller_netpol.go:115-131 | among projects under `tenant`, reaching each other is reflexive, symmetric and transitive |
| ProjectController.StrictIsWithinTenant | internal/controller/organizationproject/organizationproject_controller_netpol.go:26-31 | because namespaces are labelled first, `strict` is contained in `tenant` |
| Rendering.Unstructured.Render | internal/controller/maasconfiguration/maasconfiguration_controller_actions.go:168-217 | the in-place rendering is the specified sequence of field writes and removals |
| Rendering.RenderIsLastWriteWins | internal/controller/maasconfiguration/maasconfiguration_controller_actions.go:168-217 | the four managed fields depend only on the current configuration and profile, stale fields and subkeys vanish, all else is kept |
| Rendering.RenderedExactly | internal/controller/maasconfiguration/maasconfiguration_controller_actions.go:168-217 | by value: what each of the four fields holds afterwards, read off the configuration and the profile; every other field and everything outside the spec is kept |
| Rendering.RenderIsIdempotent | internal/controller/maasconfiguration/maasconfiguration_controller_actions.go:168-217 | rendering twice equals rendering once |
| Rendering.EarlierRenderingLeavesNoTraceExactly | internal/controller/maasconfiguration/maasconfiguration_controller_actions.go:168-217 | rendering over an earlier rendering equals rendering directly, except exactly when an empty spec is left behind |
| Rendering.RenderFailsExactly | internal/controller/maasconfiguration/maasconfiguration_controller_actions.go:179-215 | rendering fails iff the spec is present, no object, and the configuration or profile sets something; a document it cannot use is otherwise left alone |
| MaasProtocol.NoOrphanedTenant | internal/controller/maasconfiguration/maasconfiguration_controller_actions.go:38-152 | in every interleaving of user, environment and controller steps, with a lagging cache of the configuration and stops anywhere, a live AITenant controlled by a configuration implies that it is stored with its finalizer |
| MaasProtocol.DeletionHitsOwnExactly | internal/controller/maasconfiguration/maasconfiguration_controller_actions.go:133-145 | in every run, cleanup's deletion hits the configuration's own AITenant iff the environment has not touched the name since the check or last left it under the same control, and hits somebody else's iff that is what it last left there |
| MaasProtocol.CleanupMayDeleteForeignTenant | internal/controller/maasconfiguration/maasconfiguration_controller_actions.go:137-145 | a run from the empty system in which a foreign AITenant takes the name between check and delete and is deleted |
| MaasController.Client.CleanupMaaS | internal/controller/maasconfiguration/maasconfiguration_controller_actions.go:133-152 | deletes only an own AITenant, then clears the finalizer; wherever it stops, nothing under any other name has changed; without API errors it ends iff the organization exists as a root |
| MaasController.Client.WriteTenant | internal/controller/maasconfiguration/maasconfiguration_controller_actions.go:81-121 | writes exactly the desired AITenant, over nothing or over one it controls, never over a foreign one |
| MaasController.Client.ReconcileMaaS | internal/controller/maasconfiguration/maasconfiguration_controller_actions.go:38-131 | whichever calls fail, the objects under its name are at a stopping point of the protocol and those under every other name unchanged; without API errors the outcome of each check, in order |
| MaasController.DesiredExactly | internal/controller/maasconfiguration/maasconfiguration_controller_actions.go:90-119 | the AITenant written, by value: both owner references on a new one, both labels, everything else kept, and the rendered document |
| MaasController.EditsReachTheTenant | internal/controller/maasconfiguration/maasconfiguration_controller_actions.go:104-119 | after a provisioning reconcile the stored AITenant carries the configuration's label and quotas, whatever it held before |
| MaasController.ClearedExactly | internal/controller/maasconfiguration/maasconfiguration_controller_actions.go:133-152 | after cleanup the configuration is gone iff that was the last finalizer of a deleted object, and an own AITenant is gone or being deleted |
| MaasController.ReconcileIsProtocolRun | internal/controller/maasconfiguration/maasconfiguration_controller_actions.go:38-152 | from any store reached by a run of the system, a reconcile that stops anywhere ends in a store that a longer run reaches, and orphans no AITenant of any name |
| MaasController.ReconcileIsTrace | internal/controller/maasconfiguration/maasconfiguration_controller_actions.go:38-152 | from any slot whose controller is idle, wherever the reconcile stops, its writes are steps of the protocol |
| MaasController.OthersKept | internal/controller/maasconfiguration/maasconfiguration_controller_actions.go:84-121 | no AITenant but an own one under its name is changed or deleted by a reconcile |
| MaasController.MapAITenant | internal/controller/maasconfiguration/maasconfiguration_controller_actions.go:249-256 | the loop finds the first controlling configuration |
| MaasController.EventsFollowTheController | internal/controller/maasconfiguration/maasconfiguration_controller_actions.go:249-256 | with a single controller, events go to it if it is a configuration and nowhere else |
| MaasController.CreatedTenantMapsBack | internal/controller/maasconfiguration/maasconfiguration_controller_actions.go:90-96 | an AITenant the controller creates, with both owner references, maps back to exactly its configuration |

## Left out

- Process start-up, flags, manager wiring, reconciler builders and webhook registration.
- The reconciler framework: conditions, phases, requeue timing, dynamic watches, and its own handling of the finalizer; condition marks appear only as outcomes.
- `ready`, which only chooses a condition mark for the AITenant, and the watch predicate.
- Authorization of Organization, profile and project deletion, which the webhooks do not enforce: such deletions are environment steps.
- `networkGrants`, declared in the API but read by no controller here.
- Reading trusted groups and the operator namespace from the environment; they are parameters.
- Error texts, logging, annotations and other metadata no code here reads.
- Egress rules, named ports and protocols of foreign NetworkPolicies.
- ProjectController.ProvisionIsFixed: is about repeating with the same isolation preset; a reconcile whose profile read fails may use another one.
- MaasController.Client.ReconcileMaaS: takes one reconcile without interference; interleavings are the subject of MaasProtocol.NoOrphanedTenant.
