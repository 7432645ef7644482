/** The project controller: five actions over one request, stopping at the first error. */
module ProjectController {
  import opened Objects
  import opened NetworkPolicies
  import O = Operator

  datatype Outcome =
    | Done
    | OrganizationUnreadable | NotYetReconciled
    | NotInState
    | ApiError | NotManaged | OwnedByAnother

  // ---------------------------------------------------------------- role bindings

  datatype RbacSubject = RbacSubject(kind: string, apiGroup: string, name: string, namespace: string)
  datatype RoleRef = RoleRef(apiGroup: string, kind: string, name: string)
  datatype RoleBinding = RoleBinding(roleRef: RoleRef, subjects: seq<RbacSubject>, controller: Option<nat>)
  type Bindings = map<Key, RoleBinding>

  const RBAC_GROUP := "rbac.authorization.k8s.io"
  const ROLES := ["edit", "view"]

  function ClusterRole(role: string): RoleRef {
    RoleRef(RBAC_GROUP, "ClusterRole", role)
  }

  function SubjectFor(u: ProjectUser): RbacSubject {
    if u.kind == "ServiceAccount" then RbacSubject(u.kind, "", u.name, u.namespace)
    else RbacSubject(u.kind, RBAC_GROUP, u.name, "")
  }

  function SubjectsFor(users: seq<ProjectUser>, role: string): seq<RbacSubject> {
    if users == [] then []
    else
      var rest := SubjectsFor(users[..|users| - 1], role);
      if users[|users| - 1].role == role then rest + [SubjectFor(users[|users| - 1])] else rest
  }

  method SubjectsForRole(users: seq<ProjectUser>, role: string) returns (subjects: seq<RbacSubject>)
    ensures subjects == SubjectsFor(users, role)
  {
    subjects := [];
    for i := 0 to |users|
      invariant subjects == SubjectsFor(users[..i], role)
    {
      assert users[..i + 1][..i] == users[..i];
      if users[i].role == role { subjects := subjects + [SubjectFor(users[i])]; }
    }
    assert users[..|users|] == users;
  }

  /** The positions of a role's users. */
  ghost function PositionsFor(users: seq<ProjectUser>, role: string): seq<nat> {
    if users == [] then []
    else
      var rest := PositionsFor(users[..|users| - 1], role);
      if users[|users| - 1].role == role then rest + [|users| - 1] else rest
  }

  lemma {:induction false} PositionsMatch(users: seq<ProjectUser>, role: string, j: nat)
    requires j < |PositionsFor(users, role)|
    ensures |PositionsFor(users, role)| == |SubjectsFor(users, role)|
    ensures var i := PositionsFor(users, role)[j];
            i < |users| && users[i].role == role && SubjectsFor(users, role)[j] == SubjectFor(users[i])
  {
    var before := users[..|users| - 1];
    PositionsConserve(before, role);
    if j < |PositionsFor(before, role)| { PositionsMatch(before, role, j); }
  }

  lemma {:induction false} PositionsConserve(users: seq<ProjectUser>, role: string)
    ensures |PositionsFor(users, role)| == |SubjectsFor(users, role)|
  {
    if users != [] { PositionsConserve(users[..|users| - 1], role); }
  }

  lemma {:induction false} PositionsIncrease(users: seq<ProjectUser>, role: string, i: nat, j: nat)
    requires i < j < |PositionsFor(users, role)|
    ensures PositionsFor(users, role)[i] < PositionsFor(users, role)[j]
  {
    var before := users[..|users| - 1];
    if j < |PositionsFor(before, role)| {
      PositionsIncrease(before, role, i, j);
    } else {
      PositionsMatch(before, role, i);
    }
  }

  lemma {:induction false} PositionsAreComplete(users: seq<ProjectUser>, role: string, i: nat)
    requires i < |users| && users[i].role == role
    ensures i in PositionsFor(users, role)
  {
    if i < |users| - 1 { PositionsAreComplete(users[..|users| - 1], role, i); }
  }

  /** The subjects of a role are exactly its users, in their order, none twice and none missing. */
  lemma SubjectsKeepOrder(users: seq<ProjectUser>, role: string) returns (at: seq<nat>)
    ensures |at| == |SubjectsFor(users, role)|
    ensures forall j :: 0 <= j < |at| ==>
              && at[j] < |users| && users[at[j]].role == role
              && var s, u := SubjectsFor(users, role)[j], users[at[j]];
                 && s.kind == u.kind && s.name == u.name
                 && (if u.kind == "ServiceAccount" then s.namespace == u.namespace && s.apiGroup == ""
                     else s.namespace == "" && s.apiGroup == "rbac.authorization.k8s.io")
    ensures forall i, j :: 0 <= i < j < |at| ==> at[i] < at[j]
    ensures forall i :: 0 <= i < |users| && users[i].role == role ==> i in at
  {
    at := PositionsFor(users, role);
    PositionsConserve(users, role);
    forall j | 0 <= j < |at|
      ensures at[j] < |users| && users[at[j]].role == role && SubjectsFor(users, role)[j] == SubjectFor(users[at[j]])
    {
      PositionsMatch(users, role, j);
    }
    forall i, j | 0 <= i < j < |at| ensures at[i] < at[j] { PositionsIncrease(users, role, i, j); }
    forall i | 0 <= i < |users| && users[i].role == role ensures i in at { PositionsAreComplete(users, role, i); }
  }

  /** With the two roles of the API, every user lands in exactly one list. */
  lemma {:induction false} RolesPartitionUsers(users: seq<ProjectUser>)
    requires forall i :: 0 <= i < |users| ==> users[i].role in ROLES
    ensures |SubjectsFor(users, "edit")| + |SubjectsFor(users, "view")| == |users|
  {
    if users != [] {
      assert users[|users| - 1].role == "edit" || users[|users| - 1].role == "view";
      RolesPartitionUsers(users[..|users| - 1]);
    }
  }

  function BindingKey(ns: NamespaceRef, role: string): Key {
    Key(ns.name, "tenant-" + role)
  }

  /** Another controller holds the binding, or it refers to another role, which the API never lets an update change. */
  predicate Refuses(b: Bindings, k: Key, ns: NamespaceRef, role: string) {
    k in b && ((b[k].controller.Some? && b[k].controller.value != ns.uid) || b[k].roleRef != ClusterRole(role))
  }

  /** An empty list removes the binding, whoever controls it; None where a wanted binding refuses the update. */
  function BindRole(b: Bindings, ns: NamespaceRef, users: seq<ProjectUser>, role: string): Option<Bindings> {
    var k := BindingKey(ns, role);
    var subjects := SubjectsFor(users, role);
    if subjects == [] then Some(b - {k})
    else if Refuses(b, k, ns, role) then None
    else Some(b[k := RoleBinding(ClusterRole(role), subjects, Some(ns.uid))])
  }

  function BindRoles(b: Bindings, ns: NamespaceRef, users: seq<ProjectUser>, n: nat): Option<Bindings>
    requires n <= |ROLES|
  {
    if n == 0 then Some(b)
    else
      var before := BindRoles(b, ns, users, n - 1);
      if before.None? then None else BindRole(before.value, ns, users, ROLES[n - 1])
  }

  /** Each binding exists iff its list is non-empty, holds exactly that list, and nothing else is touched. */
  lemma BindingsExact(b: Bindings, ns: NamespaceRef, users: seq<ProjectUser>, b': Bindings)
    requires BindRoles(b, ns, users, |ROLES|) == Some(b')
    ensures forall role :: role in ROLES ==>
              if SubjectsFor(users, role) == [] then BindingKey(ns, role) !in b'
              else BindingKey(ns, role) in b'
                   && b'[BindingKey(ns, role)] == RoleBinding(ClusterRole(role), SubjectsFor(users, role), Some(ns.uid))
    ensures forall k :: k != BindingKey(ns, "edit") && k != BindingKey(ns, "view") ==>
            (k in b <==> k in b') && (k in b ==> b'[k] == b[k])
  {
    BindRolesUnfold(b, ns, users);
    KeysDiffer(ns);
  }

  ghost predicate HasUsers(users: seq<ProjectUser>, role: string) {
    exists i :: 0 <= i < |users| && users[i].role == role
  }

  lemma SubjectsIffUsers(users: seq<ProjectUser>, role: string)
    ensures SubjectsFor(users, role) != [] <==> HasUsers(users, role)
  {
    var at := SubjectsKeepOrder(users, role);
    if at != [] { assert users[at[0]].role == role; }
  }

  /** One binding by value: there exactly when the role has users, and bound to the cluster role of that name. */
  ghost predicate BoundTo(b: Bindings, k: Key, ns: NamespaceRef, users: seq<ProjectUser>, role: string) {
    && (k in b <==> HasUsers(users, role))
    && (k in b ==>
          && b[k].roleRef.apiGroup == "rbac.authorization.k8s.io" && b[k].roleRef.kind == "ClusterRole"
          && b[k].roleRef.name == role && b[k].controller == Some(ns.uid) && b[k].subjects == SubjectsFor(users, role))
  }

  /** After binding, the two names hold the two roles, and every other binding is as it was. */
  lemma BindingsByName(b: Bindings, ns: NamespaceRef, users: seq<ProjectUser>, b': Bindings)
    requires BindRoles(b, ns, users, |ROLES|) == Some(b')
    ensures BoundTo(b', Key(ns.name, "tenant-edit"), ns, users, "edit")
    ensures BoundTo(b', Key(ns.name, "tenant-view"), ns, users, "view")
    ensures forall k :: k != Key(ns.name, "tenant-edit") && k != Key(ns.name, "tenant-view") ==>
              (k in b <==> k in b') && (k in b ==> b'[k] == b[k])
  {
    BindingsExact(b, ns, users, b');
    KeysByName(ns);
    assert "edit" == ROLES[0] && "view" == ROLES[1];
    SubjectsIffUsers(users, "edit");
    SubjectsIffUsers(users, "view");
  }

  lemma KeysByName(ns: NamespaceRef)
    ensures BindingKey(ns, "edit") == Key(ns.name, "tenant-edit")
    ensures BindingKey(ns, "view") == Key(ns.name, "tenant-view")
  {
    assert "tenant-" + "edit" == "tenant-edit" && "tenant-" + "view" == "tenant-view";
  }

  /** The binding of a role that has users refuses the update. */
  predicate Blocked(b: Bindings, ns: NamespaceRef, users: seq<ProjectUser>, role: string) {
    SubjectsFor(users, role) != [] && Refuses(b, BindingKey(ns, role), ns, role)
  }

  /** Binding is refused exactly when a wanted binding is held by another controller or refers to another role. */
  lemma BindingsRefusedExactly(b: Bindings, ns: NamespaceRef, users: seq<ProjectUser>)
    ensures BindRoles(b, ns, users, |ROLES|).None? <==>
            exists role, k ::
              && (role, k) in [("edit", Key(ns.name, "tenant-edit")), ("view", Key(ns.name, "tenant-view"))]
              && HasUsers(users, role) && k in b
              && (|| (b[k].controller.Some? && b[k].controller.value != ns.uid)
                  || b[k].roleRef != RoleRef("rbac.authorization.k8s.io", "ClusterRole", role))
  {
    BindRolesUnfold(b, ns, users);
    KeysDiffer(ns);
    KeysByName(ns);
    SubjectsIffUsers(users, "edit");
    SubjectsIffUsers(users, "view");
    var both := [("edit", Key(ns.name, "tenant-edit")), ("view", Key(ns.name, "tenant-view"))];
    assert both[0] in both && both[1] in both;
    assert BindRoles(b, ns, users, |ROLES|).None? <==> Blocked(b, ns, users, "edit") || Blocked(b, ns, users, "view");
  }

  lemma KeysDiffer(ns: NamespaceRef)
    ensures BindingKey(ns, "edit") != BindingKey(ns, "view")
  {
    assert ("tenant-" + "edit")[7] != ("tenant-" + "view")[7];
  }

  lemma BindRolesUnfold(b: Bindings, ns: NamespaceRef, users: seq<ProjectUser>)
    ensures var first := BindRole(b, ns, users, "edit");
            BindRoles(b, ns, users, |ROLES|) == if first.None? then None else BindRole(first.value, ns, users, "view")
  {
    assert BindRoles(b, ns, users, 1) == BindRole(b, ns, users, ROLES[0]) by {
      assert BindRoles(b, ns, users, 0) == Some(b);
    }
  }

  /** Bindings that the namespace does not control are all still there, unchanged. */
  ghost predicate OthersKept(b: Bindings, b': Bindings, ns: NamespaceRef) {
    forall k :: k in b && b[k].controller != Some(ns.uid) ==> k in b' && b'[k] == b[k]
  }

  predicate FreeOrOwn(b: Bindings, ns: NamespaceRef, k: Key) {
    k in b ==> b[k].controller == Some(ns.uid)
  }

  /** After n roles, their bindings are gone or controlled by the namespace; all others are as they were. */
  lemma {:induction false} BoundAfter(b: Bindings, ns: NamespaceRef, users: seq<ProjectUser>, n: nat, b': Bindings,
                                      k: Key)
    requires n <= |ROLES| && BindRoles(b, ns, users, n) == Some(b')
    ensures (exists i :: 0 <= i < n && k == BindingKey(ns, ROLES[i])) ==> FreeOrOwn(b', ns, k)
    ensures (forall i :: 0 <= i < n ==> k != BindingKey(ns, ROLES[i])) ==>
            (k in b <==> k in b') && (k in b ==> b'[k] == b[k])
    decreases n
  {
    if n > 0 { BoundAfter(b, ns, users, n - 1, BindRoles(b, ns, users, n - 1).value, k); }
  }

  /**
    Bindings are not protected as policies are. Wherever binding stops, everybody else's bindings
    are kept exactly when none of the names written so far was taken by a binding that the
    namespace does not control.
   */
  lemma OthersKeptExactly(b: Bindings, ns: NamespaceRef, users: seq<ProjectUser>, n: nat, b': Bindings)
    requires n <= |ROLES| && BindRoles(b, ns, users, n) == Some(b')
    ensures OthersKept(b, b', ns) <==> forall i :: 0 <= i < n ==> FreeOrOwn(b, ns, BindingKey(ns, ROLES[i]))
  {
    forall k
      ensures (exists i :: 0 <= i < n && k == BindingKey(ns, ROLES[i])) ==> FreeOrOwn(b', ns, k)
      ensures (forall i :: 0 <= i < n ==> k != BindingKey(ns, ROLES[i])) ==>
              (k in b <==> k in b') && (k in b ==> b'[k] == b[k])
    {
      BoundAfter(b, ns, users, n, b', k);
    }
  }

  /**
    Both ways to lose a binding: an unwanted one is deleted under its controller, a wanted one
    without controller is overwritten.
   */
  lemma OthersMayLoseBindings(ns: NamespaceRef, other: nat, subjects: seq<RbacSubject>, u: ProjectUser)
    requires other != ns.uid && u.role == "edit"
    ensures var k := BindingKey(ns, "edit");
            && BindRoles(map[k := RoleBinding(ClusterRole("edit"), subjects, Some(other))], ns, [], |ROLES|)
               == Some(map[])
            && BindRoles(map[k := RoleBinding(ClusterRole("edit"), subjects, None)], ns, [u], |ROLES|)
               == Some(map[k := RoleBinding(ClusterRole("edit"), [SubjectFor(u)], Some(ns.uid))])
  {
    var k := BindingKey(ns, "edit");
    var held: Bindings := map[k := RoleBinding(ClusterRole("edit"), subjects, Some(other))];
    BindRolesUnfold(held, ns, []);
    assert held - {k} == map[];
    var loose: Bindings := map[k := RoleBinding(ClusterRole("edit"), subjects, None)];
    BindRolesUnfold(loose, ns, [u]);
    KeysDiffer(ns);
    assert SubjectsFor([u], "edit") == [SubjectFor(u)] && SubjectsFor([u], "view") == [] by {
      assert [u][..0] == [];
      assert SubjectsFor([], "edit") == [] && SubjectsFor([], "view") == [];
    }
    var taken: Bindings := map[k := RoleBinding(ClusterRole("edit"), [SubjectFor(u)], Some(ns.uid))];
    assert loose[k := taken[k]] == taken && taken - {BindingKey(ns, "view")} == taken;
  }

  // ---------------------------------------------------------------- the whole pipeline as a function

  /** What the project controller writes. */
  datatype World = World(namespaces: map<string, Namespace>, bindings: Bindings, policies: Policies)

  /** The isolation preset: the project's own, else the organization default, else "tenant". */
  function EffectiveIsolation(project: Project, profile: Lookup<Profile>): (isolation: string)
    ensures isolation != ""
  {
    if project.spec.networkIsolation != "" then project.spec.networkIsolation
    else if profile.Found? && profile.value.spec.networkIsolation != "" then profile.value.spec.networkIsolation
    else "tenant"
  }

  /** A failed profile read is silently a "tenant" default; that is harmless exactly in these cases. */
  lemma ReadFailureHarmlessExactly(project: Project, profile: Profile)
    ensures EffectiveIsolation(project, Failed) == EffectiveIsolation(project, Found(profile))
        <==> project.spec.networkIsolation != "" || profile.spec.networkIsolation in ["", "tenant"]
  {
    assert profile.spec.networkIsolation in ["", "tenant"] <==>
           profile.spec.networkIsolation == "" || profile.spec.networkIsolation == "tenant";
  }

  function Provision(w: World, project: Project, root: string, isolation: string, freshUid: nat): Option<World> {
    var ensured := O.EnsuredNamespace(O.Stored(w.namespaces, project.name), project, root, freshUid);
    if ensured.None? then None
    else
      var ns := NamespaceRef(project.name, ensured.value.uid);
      var bindings := BindRoles(w.bindings, ns, project.spec.users, |ROLES|);
      var desired := DesiredPolicies(project.spec.organizationRef, isolation);
      if bindings.None? || !Free(w.policies, ns, desired) then None
      else Some(World(w.namespaces[project.name := ensured.value], bindings.value, Target(w.policies, ns, desired)))
  }

  /** Provisioning by value: when it succeeds, and then what it leaves of each kind of object. */
  lemma ProvisionExactly(w: World, project: Project, root: string, isolation: string, freshUid: nat)
    ensures var existing := O.Stored(w.namespaces, project.name);
            var ns := NamespaceRef(project.name, if existing.Some? then existing.value.uid else freshUid);
            var desired := DesiredPolicies(project.spec.organizationRef, isolation);
            var bound := BindRoles(w.bindings, ns, project.spec.users, 2);
            var r := Provision(w, project, root, isolation, freshUid);
            && (r.Some? <==>
                  && (existing.Some? && existing.value.controller.Some? ==>
                        existing.value.controller.value == project.uid)
                  && bound.Some?
                  && forall i :: 0 <= i < |desired| && Key(project.name, desired[i].name) in w.policies ==>
                       w.policies[Key(project.name, desired[i].name)].controller == Some(ns.uid))
            && (r.Some? ==>
                  && project.name in r.value.namespaces && r.value.namespaces[project.name].uid == ns.uid
                  && r.value.bindings == bound.value && r.value.policies == Target(w.policies, ns, desired))
  {
    var existing := O.Stored(w.namespaces, project.name);
    var ns := NamespaceRef(project.name, if existing.Some? then existing.value.uid else freshUid);
    var desired := DesiredPolicies(project.spec.organizationRef, isolation);
    FreeExactly(w.policies, ns, desired);
    O.EnsuredNamespaceExact(existing, project, root, freshUid);
  }

  lemma FreeExactly(m: Policies, ns: NamespaceRef, desired: seq<Desired>)
    requires Sensible(desired)
    ensures Free(m, ns, desired) <==>
            forall i :: 0 <= i < |desired| && Key(ns.name, desired[i].name) in m ==>
              m[Key(ns.name, desired[i].name)].controller == Some(ns.uid)
  {
    forall i | 0 <= i < |desired|
      ensures Ours(m, ns, Key(ns.name, desired[i].name)) <==>
              (Key(ns.name, desired[i].name) in m ==> m[Key(ns.name, desired[i].name)].controller == Some(ns.uid))
    {
    }
  }

  /** No policy of the preset is held by somebody else. */
  predicate Free(m: Policies, ns: NamespaceRef, desired: seq<Desired>) {
    forall i :: 0 <= i < |desired| ==> Ours(m, ns, Key(ns.name, desired[i].name))
  }

  lemma BoundRoleIsFixed(b: Bindings, ns: NamespaceRef, users: seq<ProjectUser>, role: string)
    requires if SubjectsFor(users, role) == [] then BindingKey(ns, role) !in b
             else BindingKey(ns, role) in b
                  && b[BindingKey(ns, role)] == RoleBinding(ClusterRole(role), SubjectsFor(users, role), Some(ns.uid))
    ensures BindRole(b, ns, users, role) == Some(b)
  {
    var k := BindingKey(ns, role);
    if SubjectsFor(users, role) == [] {
      assert b - {k} == b;
    } else {
      assert b[k := RoleBinding(ClusterRole(role), SubjectsFor(users, role), Some(ns.uid))] == b;
    }
  }

  lemma BindingIsFixed(b: Bindings, ns: NamespaceRef, users: seq<ProjectUser>, b': Bindings)
    requires BindRoles(b, ns, users, |ROLES|) == Some(b')
    ensures BindRoles(b', ns, users, |ROLES|) == Some(b')
  {
    BindingsExact(b, ns, users, b');
    BindRolesUnfold(b', ns, users);
    assert "edit" == ROLES[0] && "view" == ROLES[1];
    BoundRoleIsFixed(b', ns, users, "edit");
    BoundRoleIsFixed(b', ns, users, "view");
  }

  /** Repeating a successful reconcile changes nothing. */
  lemma ProvisionIsFixed(w: World, project: Project, root: string, isolation: string, freshUid: nat, later: nat,
                         w': World)
    requires Provision(w, project, root, isolation, freshUid) == Some(w')
    ensures Provision(w', project, root, isolation, later) == Some(w')
  {
    var ns := NamespaceRef(project.name, w'.namespaces[project.name].uid);
    var desired := DesiredPolicies(project.spec.organizationRef, isolation);
    var stored := w'.namespaces[project.name];
    assert stored.labels[ORGANIZATION_LABEL := project.spec.organizationRef][ROOT_LABEL := root] == stored.labels;
    assert O.EnsuredNamespace(O.Stored(w'.namespaces, project.name), project, root, later) == Some(stored);
    assert w'.namespaces[project.name := stored] == w'.namespaces;
    BindingIsFixed(w.bindings, ns, project.spec.users, w'.bindings);
    TargetIsFixed(w.policies, ns, desired);
    forall i | 0 <= i < |desired| ensures Ours(w'.policies, ns, Key(ns.name, desired[i].name)) {
      FindExact(desired, i);
      TargetIsTargetAt(w.policies, ns, desired, Key(ns.name, desired[i].name));
    }
  }

  /** The namespace is controlled by the project and carries its organization. */
  ghost predicate LabelledFor(namespaces: map<string, Namespace>, project: Project) {
    && project.name in namespaces
    && namespaces[project.name].controller == Some(project.uid)
    && ORGANIZATION_LABEL in namespaces[project.name].labels
    && namespaces[project.name].labels[ORGANIZATION_LABEL] == project.spec.organizationRef
  }

  /** Provisioning labels the project's own namespace and leaves every other namespace alone. */
  lemma ProvisionLabels(w: World, project: Project, root: string, isolation: string, freshUid: nat, w': World)
    requires Provision(w, project, root, isolation, freshUid) == Some(w')
    ensures LabelledFor(w'.namespaces, project)
            && w'.namespaces[project.name].labels[ROOT_LABEL := root] == w'.namespaces[project.name].labels
    ensures forall n :: n != project.name ==> O.Stored(w'.namespaces, n) == O.Stored(w.namespaces, n)
  {
    LabelsDiffer();
  }

  function RefOf(w: World, project: Project): NamespaceRef
    requires project.name in w.namespaces
  {
    NamespaceRef(project.name, w.namespaces[project.name].uid)
  }

  /** Every managed name that is free, own, or in the preset holds exactly what the preset says. */
  ghost predicate PresetInPlace(m: Policies, ns: NamespaceRef, desired: seq<Desired>) {
    forall k: Key :: k.namespace == ns.name && (Ours(m, ns, k) || Find(desired, k.name).Some?) ==>
      At(m, k) == match Find(desired, k.name)
                  case Some(spec) => Some(NetworkPolicy(spec, Some(ns.uid)))
                  case None => None
  }

  /** The namespace is the project's, labelled, and under exactly this preset. */
  ghost predicate Provisioned(w: World, project: Project, isolation: string) {
    && LabelledFor(w.namespaces, project)
    && PresetInPlace(w.policies, RefOf(w, project), DesiredPolicies(project.spec.organizationRef, isolation))
  }

  lemma TargetPutsPresetInPlace(m: Policies, ns: NamespaceRef, desired: seq<Desired>)
    requires Sensible(desired) && Free(m, ns, desired)
    ensures PresetInPlace(Target(m, ns, desired), ns, desired)
  {
    forall k: Key | k.namespace == ns.name && (Ours(Target(m, ns, desired), ns, k) || Find(desired, k.name).Some?)
      ensures Ours(m, ns, k) && At(Target(m, ns, desired), k) == TargetAt(m, ns, desired, k)
    {
      TargetIsTargetAt(m, ns, desired, k);
      FoundIsDesired(desired, k.name);
    }
  }

  /** A preset in place is what writing it again would leave. */
  lemma PresetInPlaceIsTarget(m: Policies, ns: NamespaceRef, desired: seq<Desired>)
    requires PresetInPlace(m, ns, desired)
    ensures Target(m, ns, desired) == m
  {
    forall k ensures At(Target(m, ns, desired), k) == At(m, k) {
      TargetIsTargetAt(m, ns, desired, k);
    }
    SamePolicies(Target(m, ns, desired), m);
  }

  /** Provisioning a project establishes its own preset. */
  lemma ProvisionEstablishes(w: World, project: Project, root: string, isolation: string, freshUid: nat, w': World)
    requires Provision(w, project, root, isolation, freshUid) == Some(w')
    ensures Provisioned(w', project, isolation)
  {
    ProvisionLabels(w, project, root, isolation, freshUid, w');
    TargetPutsPresetInPlace(w.policies, RefOf(w', project), DesiredPolicies(project.spec.organizationRef, isolation));
  }

  // ---------------------------------------------------------------- reconciles that stop

  /** The bindings after some of the roles. */
  ghost predicate PartlyBound(b0: Bindings, b: Bindings, ns: NamespaceRef, project: Project) {
    exists i :: 0 <= i <= |ROLES| && BindRoles(b0, ns, project.spec.users, i) == Some(b)
  }

  /**
    What a reconcile may leave wherever it stops: nothing written; or the namespace, then some of
    the bindings, and policies on the way to the preset only once all bindings are written.
   */
  ghost predicate LeftPartway(w0: World, w: World, project: Project, root: string, isolation: string, freshUid: nat) {
    var ensured := O.EnsuredNamespace(O.Stored(w0.namespaces, project.name), project, root, freshUid);
    || w == w0
    || (&& ensured.Some? && w.namespaces == w0.namespaces[project.name := ensured.value]
        && var ns := NamespaceRef(project.name, ensured.value.uid);
        && PartlyBound(w0.bindings, w.bindings, ns, project)
        && Underway(w0.policies, w.policies, ns, DesiredPolicies(project.spec.organizationRef, isolation))
        && (w.policies != w0.policies ==> BindRoles(w0.bindings, ns, project.spec.users, |ROLES|) == Some(w.bindings)))
  }

  /** Success is one of these stopping points. */
  lemma ProvisionedIsPartway(w0: World, w: World, project: Project, root: string, isolation: string, freshUid: nat)
    requires Provision(w0, project, root, isolation, freshUid) == Some(w)
    ensures LeftPartway(w0, w, project, root, isolation, freshUid)
  {
    var ns := RefOf(w, project);
    var desired := DesiredPolicies(project.spec.organizationRef, isolation);
    forall k ensures At(w.policies, k) == TargetAt(w0.policies, ns, desired, k) {
      TargetIsTargetAt(w0.policies, ns, desired, k);
    }
    forall i | 0 <= i < |desired| ensures InPlace(w.policies, ns, desired[i]) {
      FindExact(desired, i);
    }
  }

  /** Wherever it stops, nothing outside the project's own namespace has changed. */
  lemma PartwayTouchesOneNamespace(w0: World, w: World, project: Project, root: string, isolation: string,
                                   freshUid: nat, k: Key)
    requires LeftPartway(w0, w, project, root, isolation, freshUid) && k.namespace != project.name
    ensures At(w.policies, k) == At(w0.policies, k)
    ensures O.Stored(w.namespaces, k.namespace) == O.Stored(w0.namespaces, k.namespace)
    ensures (k in w.bindings <==> k in w0.bindings) && (k in w.bindings ==> w.bindings[k] == w0.bindings[k])
  {
    if w != w0 {
      var ns := RefOf(w, project);
      var i :| 0 <= i <= |ROLES| && BindRoles(w0.bindings, ns, project.spec.users, i) == Some(w.bindings);
      BoundAfter(w0.bindings, ns, project.spec.users, i, w.bindings, k);
    }
  }

  /** Wherever it stops, the ingress into its namespace is within what the start or the target permits. */
  lemma PartwayIsContained(w0: World, w: World, project: Project, root: string, isolation: string, freshUid: nat)
    requires LeftPartway(w0, w, project, root, isolation, freshUid) && w != w0
    ensures Contained(w0.policies, w.policies, RefOf(w, project),
                      DesiredPolicies(project.spec.organizationRef, isolation))
  {
    TransitionSafety(w0.policies, w.policies, RefOf(w, project),
                     DesiredPolicies(project.spec.organizationRef, isolation));
  }

  /** One reconcile, and how far it got. */
  datatype Job = Job(project: Project, root: string, isolation: string, freshUid: nat, finished: bool)

  ghost predicate JobStep(w: World, j: Job, w': World) {
    if j.finished then Provision(w, j.project, j.root, j.isolation, j.freshUid) == Some(w')
    else LeftPartway(w, w', j.project, j.root, j.isolation, j.freshUid)
  }

  /** What was provisioned stays so under reconciles of other projects, finished or not... */
  lemma OtherJobsPreserve(w: World, j: Job, w': World, project: Project, isolation: string)
    requires JobStep(w, j, w') && j.project.name != project.name && Provisioned(w, project, isolation)
    ensures Provisioned(w', project, isolation)
  {
    if j.finished { ProvisionedIsPartway(w, w', j.project, j.root, j.isolation, j.freshUid); }
    PartwayTouchesOneNamespace(w, w', j.project, j.root, j.isolation, j.freshUid, Key(project.name, ""));
    assert project.name in w'.namespaces && w'.namespaces[project.name] == w.namespaces[project.name];
    forall k: Key | k.namespace == project.name ensures At(w'.policies, k) == At(w.policies, k) {
      PartwayTouchesOneNamespace(w, w', j.project, j.root, j.isolation, j.freshUid, k);
    }
  }

  /** The same project, organization and preset; users and root may differ. */
  predicate Repeats(j: Job, project: Project, isolation: string) {
    && j.project.name == project.name && j.project.uid == project.uid
    && j.project.spec.organizationRef == project.spec.organizationRef && j.isolation == isolation
  }

  /** ...and under repeated reconciles of the project itself with the same preset, finished or not. */
  lemma RepeatedJobsPreserve(w: World, j: Job, w': World, project: Project, isolation: string)
    requires JobStep(w, j, w') && Repeats(j, project, isolation) && Provisioned(w, project, isolation)
    ensures Provisioned(w', project, isolation)
  {
    if j.finished { ProvisionedIsPartway(w, w', j.project, j.root, j.isolation, j.freshUid); }
    if w' != w {
      var ns := RefOf(w, project);
      var desired := DesiredPolicies(project.spec.organizationRef, isolation);
      LabelsDiffer();
      assert LabelledFor(w'.namespaces, project) && RefOf(w', project) == ns;
      PresetInPlaceIsTarget(w.policies, ns, desired);
      forall k ensures At(w'.policies, k) == At(w.policies, k) {
        TargetIsTargetAt(w.policies, ns, desired, k);
        assert At(w'.policies, k) == At(w.policies, k) || At(w'.policies, k) == TargetAt(w.policies, ns, desired, k);
      }
      SamePolicies(w'.policies, w.policies);
    }
  }

  ghost predicate Worlds(ws: seq<World>, jobs: seq<Job>)
    decreases |jobs|
  {
    var n := |jobs|;
    && |ws| == n + 1
    && (n > 0 ==> Worlds(ws[..n], jobs[..n - 1]) && JobStep(ws[n - 1], jobs[n - 1], ws[n]))
  }

  /**
    After any series of reconciles, finished or stopped anywhere, a project is provisioned as its
    last finished reconcile left it, unless a later one aimed at something else.
   */
  lemma {:induction false} LastReconcileStands(ws: seq<World>, jobs: seq<Job>, i: nat)
    requires Worlds(ws, jobs) && i < |jobs| && jobs[i].finished
    requires forall j :: i < j < |jobs| && jobs[j].project.name == jobs[i].project.name ==>
               Repeats(jobs[j], jobs[i].project, jobs[i].isolation)
    ensures Provisioned(ws[|jobs|], jobs[i].project, jobs[i].isolation)
    decreases |jobs|
  {
    var n := |jobs|;
    var last := jobs[n - 1];
    if i == n - 1 {
      ProvisionEstablishes(ws[n - 1], last.project, last.root, last.isolation, last.freshUid, ws[n]);
    } else {
      LastReconcileStands(ws[..n], jobs[..n - 1], i);
      if last.project.name == jobs[i].project.name {
        RepeatedJobsPreserve(ws[n - 1], last, ws[n], jobs[i].project, jobs[i].isolation);
      } else {
        OtherJobsPreserve(ws[n - 1], last, ws[n], jobs[i].project, jobs[i].isolation);
      }
    }
  }

  ghost predicate From(t: Traffic, namespaces: map<string, Namespace>, source: Project) {
    && source.name in namespaces
    && t.sourceNamespace == source.name && t.sourceNamespaceLabels == namespaces[source.name].labels
  }

  /** What a preset is documented to allow. */
  predicate Allowed(isolation: string, source: Project, target: Project) {
    match isolation
    case "none" => true
    case "strict" => source.name == target.name
    case _ => source.spec.organizationRef == target.spec.organizationRef
  }

  /**
    The presets end to end: from any labelled to any provisioned project of one world, with only
    managed policies in the target's namespace, ingress is exactly what the target's preset allows.
   */
  lemma PresetsMeanWhatTheySay(w: World, source: Project, target: Project, isolation: string, t: Traffic)
    requires LabelledFor(w.namespaces, source) && Provisioned(w, target, isolation)
    requires OnlyManaged(w.policies, RefOf(w, target)) && From(t, w.namespaces, source)
    ensures Permits(w.policies, target.name, t) <==> Allowed(isolation, source, target)
  {
    var ns := RefOf(w, target);
    var organization := target.spec.organizationRef;
    PresetInPlaceIsTarget(w.policies, ns, DesiredPolicies(organization, isolation));
    match isolation
    case "none" => NoneOnly(w.policies, ns, organization, t);
    case "strict" => StrictOnly(w.policies, ns, organization, t);
    case _ => TenantOnly(w.policies, ns, organization, isolation, t);
  }

  /**
    Which preset is in force: the project's own, else the organization's default, else `tenant`,
    whatever the profile read returned. Stated on traffic, from the stored objects alone.
   */
  lemma TheDocumentedPresetIsInForce(w: World, source: Project, target: Project, profile: Lookup<Profile>, t: Traffic)
    requires LabelledFor(w.namespaces, source) && Provisioned(w, target, EffectiveIsolation(target, profile))
    requires OnlyManaged(w.policies, RefOf(w, target)) && From(t, w.namespaces, source)
    ensures target.spec.networkIsolation != "" ==>
              (Permits(w.policies, target.name, t) <==> Allowed(target.spec.networkIsolation, source, target))
    ensures target.spec.networkIsolation == "" && profile.Found? && profile.value.spec.networkIsolation != "" ==>
              (Permits(w.policies, target.name, t) <==> Allowed(profile.value.spec.networkIsolation, source, target))
    ensures target.spec.networkIsolation == "" && (profile.Found? ==> profile.value.spec.networkIsolation == "") ==>
              (Permits(w.policies, target.name, t) <==> source.spec.organizationRef == target.spec.organizationRef)
  {
    PresetsMeanWhatTheySay(w, source, target, EffectiveIsolation(target, profile), t);
  }

  /** All traffic from the source's namespace reaches the target's. */
  ghost predicate Reaches(w: World, source: Project, target: Project) {
    forall t :: From(t, w.namespaces, source) ==> Permits(w.policies, target.name, t)
  }

  ghost predicate UnderTenant(w: World, project: Project) {
    Provisioned(w, project, "tenant") && OnlyManaged(w.policies, RefOf(w, project))
  }

  lemma TenantReachesItsOrganization(w: World, a: Project, b: Project)
    requires UnderTenant(w, a) && UnderTenant(w, b)
    ensures Reaches(w, a, b) <==> a.spec.organizationRef == b.spec.organizationRef
  {
    forall t | From(t, w.namespaces, a)
      ensures Permits(w.policies, b.name, t) <==> a.spec.organizationRef == b.spec.organizationRef
    {
      PresetsMeanWhatTheySay(w, a, b, "tenant", t);
    }
    assert From(Traffic(a.name, w.namespaces[a.name].labels, map[], 0, map[], 0), w.namespaces, a);
  }

  /** Among projects under `tenant`, reaching each other is an equivalence relation: the organizations. */
  lemma TenantIngressIsEquivalence(w: World, a: Project, b: Project, c: Project)
    requires UnderTenant(w, a) && UnderTenant(w, b) && UnderTenant(w, c)
    ensures Reaches(w, a, a)
    ensures Reaches(w, a, b) ==> Reaches(w, b, a)
    ensures Reaches(w, a, b) && Reaches(w, b, c) ==> Reaches(w, a, c)
  {
    TenantReachesItsOrganization(w, a, a);
    TenantReachesItsOrganization(w, a, b);
    TenantReachesItsOrganization(w, b, a);
    TenantReachesItsOrganization(w, b, c);
    TenantReachesItsOrganization(w, a, c);
  }

  /**
    What a failed profile read means for traffic: the ingress into the project is the documented
    one exactly where `tenant` and the organization default happen to agree.
   */
  lemma FailedReadChangesIngressExactly(w: World, source: Project, target: Project, profile: Profile, t: Traffic)
    requires LabelledFor(w.namespaces, source) && Provisioned(w, target, EffectiveIsolation(target, Failed))
    requires OnlyManaged(w.policies, RefOf(w, target)) && From(t, w.namespaces, source)
    ensures var documented := EffectiveIsolation(target, Found(profile));
            var sameOrganization := source.spec.organizationRef == target.spec.organizationRef;
            (Permits(w.policies, target.name, t) <==> Allowed(documented, source, target)) <==>
            || target.spec.networkIsolation != ""
            || match profile.spec.networkIsolation
               case "none" => sameOrganization
               case "strict" => source.name == target.name || !sameOrganization
               case _ => true
  {
    PresetsMeanWhatTheySay(w, source, target, EffectiveIsolation(target, Failed), t);
  }

  /** So a failed read under a `strict` default opens the project to every other one of its organization. */
  lemma FailedReadOpensStrict(w: World, source: Project, target: Project, profile: Profile, t: Traffic)
    requires LabelledFor(w.namespaces, source) && Provisioned(w, target, EffectiveIsolation(target, Failed))
    requires OnlyManaged(w.policies, RefOf(w, target)) && From(t, w.namespaces, source)
    requires target.spec.networkIsolation == "" && profile.spec.networkIsolation == "strict"
    requires source.name != target.name && source.spec.organizationRef == target.spec.organizationRef
    ensures Permits(w.policies, target.name, t)
    ensures !Allowed(EffectiveIsolation(target, Found(profile)), source, target)
  {
    PresetsMeanWhatTheySay(w, source, target, "tenant", t);
  }

  /** Since namespaces are labelled before policies are written, "strict" never admits more than "tenant". */
  lemma StrictIsWithinTenant(m: Policies, namespaces: map<string, Namespace>, project: Project, uid: nat,
                             source: Project, t: Traffic)
    requires OnlyManaged(m, NamespaceRef(project.name, uid))
    requires LabelledFor(namespaces, project) && From(t, namespaces, source)
    ensures var ns := NamespaceRef(project.name, uid);
            var organization := project.spec.organizationRef;
            Permits(Target(m, ns, DesiredPolicies(organization, "strict")), ns.name, t)
            ==> Permits(Target(m, ns, DesiredPolicies(organization, "tenant")), ns.name, t)
  {
    var ns := NamespaceRef(project.name, uid);
    StrictOnly(m, ns, project.spec.organizationRef, t);
    TenantOnly(m, ns, project.spec.organizationRef, "tenant", t);
  }

  lemma LabelsDiffer()
    ensures ORGANIZATION_LABEL != ROOT_LABEL
  {
    assert ORGANIZATION_LABEL[28] != ROOT_LABEL[28];
  }

  /** Every policy state written since w0 is contained. */
  ghost predicate Traced(m0: Policies, w0: seq<Policies>, w: seq<Policies>, ns: NamespaceRef, desired: seq<Desired>)
    decreases |w|
  {
    w == w0 || (|w| > |w0| && Traced(m0, w0, w[..|w| - 1], ns, desired) && Contained(m0, w[|w| - 1], ns, desired))
  }

  /** The log ends in what is stored. */
  ghost predicate Logged(m0: Policies, w0: seq<Policies>, m: Policies, w: seq<Policies>) {
    if w == w0 then m == m0 else |w| > |w0| && w[|w| - 1] == m
  }

  lemma {:induction false} TracedMeansContained(m0: Policies, w0: seq<Policies>, w: seq<Policies>, ns: NamespaceRef,
                                                desired: seq<Desired>, i: nat)
    requires Traced(m0, w0, w, ns, desired) && |w0| <= i < |w|
    ensures w0 <= w && Contained(m0, w[i], ns, desired)
    decreases |w|
  {
    if i < |w| - 1 {
      TracedMeansContained(m0, w0, w[..|w| - 1], ns, desired, i);
    } else {
      TracedExtends(m0, w0, w, ns, desired);
    }
  }

  lemma {:induction false} TracedExtends(m0: Policies, w0: seq<Policies>, w: seq<Policies>, ns: NamespaceRef,
                                         desired: seq<Desired>)
    requires Traced(m0, w0, w, ns, desired)
    ensures w0 <= w
    decreases |w|
  {
    if w != w0 { TracedExtends(m0, w0, w[..|w| - 1], ns, desired); }
  }

  lemma TraceGrows(m0: Policies, w0: seq<Policies>, w: seq<Policies>, ns: NamespaceRef, desired: seq<Desired>,
                   m: Policies)
    requires Traced(m0, w0, w, ns, desired) && Sensible(desired) && Underway(m0, m, ns, desired)
    ensures Traced(m0, w0, w + [m], ns, desired)
  {
    TransitionSafety(m0, m, ns, desired);
    TracedExtends(m0, w0, w, ns, desired);
    assert (w + [m])[..|w|] == w;
  }

  /** Before its turn, a preset name still holds what it held at the start. */
  lemma NotYetWritten(m: Policies, ns: NamespaceRef, desired: seq<Desired>, i: nat)
    requires Sensible(desired) && i < |desired|
    ensures At(Upserted(m, ns, desired, i), Key(ns.name, desired[i].name)) == At(m, Key(ns.name, desired[i].name))
  {
    UpsertedAt(m, ns, desired, i, Key(ns.name, desired[i].name));
  }

  lemma {:induction false} RefusedStaysRefused(b: Bindings, ns: NamespaceRef, users: seq<ProjectUser>, i: nat)
    requires i <= |ROLES|
    ensures BindRoles(b, ns, users, i).None? ==> BindRoles(b, ns, users, |ROLES|).None?
    decreases |ROLES| - i
  {
    if i < |ROLES| { RefusedStaysRefused(b, ns, users, i + 1); }
  }

  method WantedNames(desired: seq<Desired>) returns (wanted: set<string>)
    ensures forall n :: n in wanted <==> Find(desired, n).Some?
  {
    wanted := {};
    for i := 0 to |desired|
      invariant forall n :: n in wanted <==> exists j :: 0 <= j < i && desired[j].name == n
    {
      wanted := wanted + {desired[i].name};
    }
    forall n ensures n in wanted <==> Find(desired, n).Some? { FoundIsDesired(desired, n); }
  }

  // ---------------------------------------------------------------- the API client

  /** The stored objects the controller works on. The n-th call fails for a reason of its own when fails(n). */
  class Client {
    const fails: nat -> bool
    const orgs: map<string, Organization>
    const profiles: map<string, Profile>
    var calls: nat
    var nextUid: nat
    var namespaces: map<string, Namespace>
    var bindings: Bindings
    var policies: Policies
    /** The policies after each policy write. */
    ghost var written: seq<Policies>

    constructor (fails: nat -> bool, orgs: map<string, Organization>, profiles: map<string, Profile>, w: World,
                 nextUid: nat)
      ensures this.fails == fails && this.orgs == orgs && this.profiles == profiles
      ensures Holds() == w && this.nextUid == nextUid && calls == 0 && written == []
    {
      this.fails, this.orgs, this.profiles := fails, orgs, profiles;
      this.namespaces, this.bindings, this.policies := w.namespaces, w.bindings, w.policies;
      this.calls, this.nextUid, this.written := 0, nextUid, [];
    }

    ghost function Holds(): World
      reads this
    {
      World(namespaces, bindings, policies)
    }

    ghost predicate NoFaults() {
      forall n :: !fails(n)
    }

    method Call() returns (ok: bool)
      modifies this`calls
      ensures NoFaults() ==> ok
    {
      ok := !fails(calls);
      calls := calls + 1;
    }

    method GetOrganization(name: string) returns (r: Lookup<Organization>)
      modifies this`calls
      ensures r == Failed || r == (if name in orgs then Found(orgs[name]) else NotFound)
      ensures NoFaults() ==> r != Failed
    {
      var ok := Call();
      r := if !ok then Failed else if name in orgs then Found(orgs[name]) else NotFound;
    }

    method GetProfile(name: string) returns (r: Lookup<Profile>)
      modifies this`calls
      ensures r == Failed || r == (if name in profiles then Found(profiles[name]) else NotFound)
      ensures NoFaults() ==> r != Failed
    {
      var ok := Call();
      r := if !ok then Failed else if name in profiles then Found(profiles[name]) else NotFound;
    }

    method GetPolicy(k: Key) returns (r: Lookup<NetworkPolicy>)
      modifies this`calls
      ensures r == Failed || r == (if k in policies then Found(policies[k]) else NotFound)
      ensures NoFaults() ==> r != Failed
    {
      var ok := Call();
      r := if !ok then Failed else if k in policies then Found(policies[k]) else NotFound;
    }

    /**
      Create or update a policy, taking it under the control of ns; nothing is written when it
      already is as wanted.
     */
    method UpsertPolicy(k: Key, spec: PolicySpec, ns: NamespaceRef) returns (outcome: Outcome)
      modifies this`calls, this`policies, this`written
      ensures outcome == Done ==> policies == old(policies)[k := NetworkPolicy(spec, Some(ns.uid))]
      ensures (written == old(written) && policies == old(policies)) || written == old(written) + [policies]
      ensures outcome != Done ==> policies == old(policies) && written == old(written)
      ensures outcome in {Done, OwnedByAnother, ApiError}
      ensures NoFaults() && (k in old(policies) ==> old(policies)[k].controller == Some(ns.uid)) ==> outcome == Done
    {
      var current := GetPolicy(k);
      if current == Failed { return ApiError; }
      var wanted := NetworkPolicy(spec, Some(ns.uid));
      if current.Found? {
        if current.value.controller.Some? && current.value.controller.value != ns.uid { return OwnedByAnother; }
        if current.value == wanted { return Done; }
      }
      var ok := Call();
      if !ok { return ApiError; }
      policies := policies[k := wanted];
      written := written + [policies];
      return Done;
    }

    method DeletePolicy(k: Key) returns (ok: bool)
      modifies this`calls, this`policies, this`written
      ensures ok ==> policies == old(policies) - {k} && written == old(written) + [policies]
      ensures !ok ==> policies == old(policies) && written == old(written)
      ensures NoFaults() ==> ok
    {
      ok := Call();
      if ok {
        policies := policies - {k};
        written := written + [policies];
      }
    }

    /** Create or update the policies of the preset, in order. */
    method WritePreset(ns: NamespaceRef, desired: seq<Desired>) returns (outcome: Outcome)
      requires Sensible(desired)
      modifies this`calls, this`policies, this`written
      ensures outcome in {Done, NotManaged, OwnedByAnother, ApiError}
      ensures Traced(old(policies), old(written), written, ns, desired)
      ensures Logged(old(policies), old(written), policies, written)
      ensures Underway(old(policies), policies, ns, desired)
      ensures outcome == Done ==>
              Free(old(policies), ns, desired) && policies == Upserted(old(policies), ns, desired, |desired|)
      ensures NoFaults() ==> (outcome == Done <==> Free(old(policies), ns, desired))
    {
      ghost var m0, w0 := policies, written;
      for i := 0 to |desired|
        invariant AllOurs(m0, ns, desired, i) && policies == Upserted(m0, ns, desired, i)
        invariant Traced(m0, w0, written, ns, desired) && Logged(m0, w0, policies, written)
      {
        var k := Key(ns.name, desired[i].name);
        UpsertedIsUnderway(m0, ns, desired, i);
        NotYetWritten(m0, ns, desired, i);
        var existing := GetPolicy(k);
        if existing.Found? && existing.value.controller != Some(ns.uid) { return NotManaged; }
        if existing == Failed { return ApiError; }
        ghost var w := written;
        outcome := UpsertPolicy(k, desired[i].spec, ns);
        if outcome != Done { return; }
        UpsertedIsUnderway(m0, ns, desired, i + 1);
        TraceGrows(m0, w0, w, ns, desired, policies);
        TracedExtends(m0, w0, w, ns, desired);
      }
      UpsertedIsUnderway(m0, ns, desired, |desired|);
      return Done;
    }

    /** Delete the managed policies the preset does not want and that the namespace controls. */
    method PruneManaged(ns: NamespaceRef, desired: seq<Desired>, ghost m0: Policies, ghost w0: seq<Policies>)
      returns (outcome: Outcome)
      requires Sensible(desired) && AllOurs(m0, ns, desired, |desired|)
      requires policies == Upserted(m0, ns, desired, |desired|)
      requires Traced(m0, w0, written, ns, desired) && Logged(m0, w0, policies, written)
      modifies this`calls, this`policies, this`written
      ensures outcome in {Done, ApiError}
      ensures Traced(m0, w0, written, ns, desired) && Logged(m0, w0, policies, written)
      ensures Underway(m0, policies, ns, desired)
      ensures outcome == Done ==> policies == Target(m0, ns, desired)
      ensures NoFaults() ==> outcome == Done
    {
      var wanted := WantedNames(desired);
      for j := 0 to |MANAGED|
        invariant policies == Pruned(Upserted(m0, ns, desired, |desired|), ns, desired, j)
        invariant Traced(m0, w0, written, ns, desired) && Logged(m0, w0, policies, written)
      {
        var k := Key(ns.name, MANAGED[j]);
        PrunedIsUnderway(m0, ns, desired, j);
        if k.name in wanted { continue; }
        var stale := GetPolicy(k);
        if stale == NotFound { continue; }
        if stale == Failed { return ApiError; }
        if stale.value.controller != Some(ns.uid) { continue; }
        ghost var w := written;
        var ok := DeletePolicy(k);
        if !ok { return ApiError; }
        PrunedIsUnderway(m0, ns, desired, j + 1);
        TraceGrows(m0, w0, w, ns, desired, policies);
        TracedExtends(m0, w0, w, ns, desired);
      }
      PrunedIsUnderway(m0, ns, desired, |MANAGED|);
      PrunedIsTarget(m0, ns, desired);
      return Done;
    }

    method DeleteBinding(k: Key) returns (ok: bool)
      modifies this`calls, this`bindings
      ensures bindings == if ok then old(bindings) - {k} else old(bindings)
      ensures NoFaults() ==> ok
    {
      ok := Call();
      if ok { bindings := bindings - {k}; }
    }

    method UpsertBinding(k: Key, role: string, subjects: seq<RbacSubject>, ns: NamespaceRef) returns (outcome: Outcome)
      modifies this`calls, this`bindings
      ensures outcome == Done ==> bindings == old(bindings)[k := RoleBinding(ClusterRole(role), subjects, Some(ns.uid))]
      ensures outcome == Done ==> !Refuses(old(bindings), k, ns, role)
      ensures outcome != Done ==> bindings == old(bindings)
      ensures outcome in {Done, OwnedByAnother, ApiError}
      ensures NoFaults() ==> (outcome == Done <==> !Refuses(old(bindings), k, ns, role))
    {
      var ok := Call();
      if !ok { return ApiError; }
      var wanted := RoleBinding(ClusterRole(role), subjects, Some(ns.uid));
      if k in bindings {
        if bindings[k].controller.Some? && bindings[k].controller.value != ns.uid { return OwnedByAnother; }
        if bindings[k] == wanted { return Done; }
      }
      ok := Call();
      if !ok || (k in bindings && bindings[k].roleRef != wanted.roleRef) { return ApiError; }
      bindings := bindings[k := wanted];
      return Done;
    }

    method UpsertNamespace(project: Project, root: string) returns (outcome: Outcome)
      modifies this`calls, this`namespaces, this`nextUid
      ensures var ensured := O.EnsuredNamespace(O.Stored(old(namespaces), project.name), project, root, old(nextUid));
              && (outcome == Done ==> ensured.Some? && namespaces == old(namespaces)[project.name := ensured.value])
              && (outcome != Done ==> namespaces == old(namespaces))
              && (NoFaults() ==> (outcome == Done <==> ensured.Some?))
      ensures outcome in {Done, OwnedByAnother, ApiError}
    {
      var ok := Call();
      if !ok { return ApiError; }
      var stored := O.Stored(namespaces, project.name);
      var ns := if stored.Some? then stored.value else Namespace(nextUid, map[], None);
      ns := ns.(labels := ns.labels[ORGANIZATION_LABEL := project.spec.organizationRef]);
      ns := ns.(labels := ns.labels[ROOT_LABEL := root]);
      if ns.controller.Some? && ns.controller.value != project.uid { return OwnedByAnother; }
      ns := ns.(controller := Some(project.uid));
      if stored != Some(ns) {
        ok := Call();
        if !ok { return ApiError; }
        namespaces := namespaces[project.name := ns];
        if stored.None? { nextUid := nextUid + 1; }
      }
      return Done;
    }
  }

  // ---------------------------------------------------------------- the actions

  datatype State = State(organization: Option<Organization>, namespace: Option<NamespaceRef>, isolation: string)

  const STATE_KEY := "organization.opendatahub.io/organizationproject-state"

  class Request {
    const client: Client
    var project: Project
    var extensions: map<string, State>

    constructor (client: Client, project: Project)
      ensures this.client == client && this.project == project && extensions == map[]
    {
      this.client, this.project, this.extensions := client, project, map[];
    }

    /** The shared state, created on first use. */
    method StateFor() returns (state: State)
      modifies this`extensions
      ensures state == if STATE_KEY in old(extensions) then old(extensions)[STATE_KEY] else State(None, None, "")
      ensures extensions == old(extensions)[STATE_KEY := state]
      ensures STATE_KEY in old(extensions) ==> extensions == old(extensions)
    {
      if STATE_KEY !in extensions { extensions := extensions[STATE_KEY := State(None, None, "")]; }
      state := extensions[STATE_KEY];
      assert extensions == extensions[STATE_KEY := state];
    }

    method ValidateParentOrganization() returns (outcome: Outcome)
      modifies this`extensions, client`calls
      ensures outcome in {Done, OrganizationUnreadable, NotYetReconciled}
      ensures var ref := project.spec.organizationRef;
              && (outcome == Done ==> ref in client.orgs && client.orgs[ref].root != ""
                                      && STATE_KEY in extensions
                                      && extensions[STATE_KEY].organization == Some(client.orgs[ref]))
              && (outcome == NotYetReconciled ==> ref in client.orgs && client.orgs[ref].root == "")
              && (client.NoFaults() ==> (outcome == Done <==> ref in client.orgs && client.orgs[ref].root != ""))
              && (client.NoFaults() ==> (outcome == OrganizationUnreadable <==> ref !in client.orgs))
    {
      var r := client.GetOrganization(project.spec.organizationRef);
      if !r.Found? { return OrganizationUnreadable; }
      if r.value.root == "" { return NotYetReconciled; }
      var state := StateFor();
      extensions := extensions[STATE_KEY := state.(organization := Some(r.value))];
      return Done;
    }

    method ComputeEffectiveIsolation()
      modifies this`extensions, client`calls
      ensures STATE_KEY in extensions
      ensures STATE_KEY in old(extensions) ==>
                extensions[STATE_KEY] == old(extensions)[STATE_KEY].(isolation := extensions[STATE_KEY].isolation)
      ensures var ref := project.spec.organizationRef;
              var stored := if ref in client.profiles then Found(client.profiles[ref]) else NotFound;
              && (project.spec.networkIsolation != "" ==>
                    extensions[STATE_KEY].isolation == project.spec.networkIsolation)
              && (|| extensions[STATE_KEY].isolation == EffectiveIsolation(project, stored)
                  || extensions[STATE_KEY].isolation == EffectiveIsolation(project, Failed))
              && (client.NoFaults() ==> extensions[STATE_KEY].isolation == EffectiveIsolation(project, stored))
    {
      var isolation := project.spec.networkIsolation;
      if isolation == "" {
        var profile := client.GetProfile(project.spec.organizationRef);
        isolation := if profile.Found? && profile.value.spec.networkIsolation != ""
                     then profile.value.spec.networkIsolation else "tenant";
      }
      var state := StateFor();
      extensions := extensions[STATE_KEY := state.(isolation := isolation)];
    }

    method EnsureNamespace() returns (outcome: Outcome)
      modifies this`extensions, this`project, client`calls, client`namespaces, client`nextUid
      ensures STATE_KEY in old(extensions) && old(extensions)[STATE_KEY].organization.Some? ==>
                var before := old(extensions)[STATE_KEY];
                var ensured := O.EnsuredNamespace(O.Stored(old(client.namespaces), old(project).name), old(project),
                                                  before.organization.value.root, old(client.nextUid));
                && outcome in {Done, OwnedByAnother, ApiError}
                && STATE_KEY in extensions && extensions[STATE_KEY].isolation == before.isolation
                && (outcome == Done ==>
                      && ensured.Some? && client.namespaces == old(client.namespaces)[project.name := ensured.value]
                      && extensions[STATE_KEY].namespace == Some(NamespaceRef(project.name, ensured.value.uid)))
                && (client.NoFaults() ==> (outcome == Done <==> ensured.Some?))
      ensures project == if outcome == Done then old(project).(statusNamespace := old(project).name) else old(project)
      ensures outcome != Done ==> client.namespaces == old(client.namespaces)
    {
      var state := StateFor();
      if state.organization.None? { return NotInState; }
      outcome := client.UpsertNamespace(project, state.organization.value.root);
      if outcome != Done { return; }
      var ns := NamespaceRef(project.name, client.namespaces[project.name].uid);
      extensions := extensions[STATE_KEY := state.(namespace := Some(ns))];
      if project.statusNamespace != project.name { project := project.(statusNamespace := project.name); }
    }

    method EnsureRbac() returns (outcome: Outcome)
      modifies this`extensions, client`calls, client`bindings
      ensures outcome == NotInState ==> client.bindings == old(client.bindings)
      ensures STATE_KEY in old(extensions) && old(extensions)[STATE_KEY].namespace.Some? ==>
                var ns := old(extensions)[STATE_KEY].namespace.value;
                var bound := BindRoles(old(client.bindings), ns, project.spec.users, |ROLES|);
                && outcome in {Done, OwnedByAnother, ApiError}
                && extensions == old(extensions)
                && (outcome == Done ==> bound == Some(client.bindings))
                && (client.NoFaults() ==> (outcome == Done <==> bound.Some?))
                && PartlyBound(old(client.bindings), client.bindings, ns, project)
    {
      var state := StateFor();
      if state.namespace.None? { return NotInState; }
      var ns := state.namespace.value;
      for i := 0 to |ROLES|
        invariant BindRoles(old(client.bindings), ns, project.spec.users, i) == Some(client.bindings)
        invariant PartlyBound(old(client.bindings), client.bindings, ns, project)
        invariant STATE_KEY in old(extensions) ==> extensions == old(extensions)
      {
        var role := ROLES[i];
        var subjects := SubjectsForRole(project.spec.users, role);
        if |subjects| == 0 {
          var ok := client.DeleteBinding(BindingKey(ns, role));
          if !ok { return ApiError; }
        } else {
          outcome := client.UpsertBinding(BindingKey(ns, role), role, subjects, ns);
          if outcome != Done {
            RefusedStaysRefused(old(client.bindings), ns, project.spec.users, i + 1);
            return;
          }
        }
      }
      return Done;
    }

    /**
      Whatever calls fail, every policy state ever stored permits only what the start or the target
      permits; success leaves exactly the target.
     */
    method EnsureNetworkPolicies() returns (outcome: Outcome)
      modifies this`extensions, client`calls, client`policies, client`written
      ensures outcome == NotInState ==> client.policies == old(client.policies) && client.written == old(client.written)
      ensures STATE_KEY in old(extensions) && old(extensions)[STATE_KEY].namespace.Some?
              && old(extensions)[STATE_KEY].isolation != "" ==>
                var ns := old(extensions)[STATE_KEY].namespace.value;
                var desired := DesiredPolicies(project.spec.organizationRef, old(extensions)[STATE_KEY].isolation);
                && outcome in {Done, NotManaged, OwnedByAnother, ApiError}
                && extensions == old(extensions)
                && Traced(old(client.policies), old(client.written), client.written, ns, desired)
                && Logged(old(client.policies), old(client.written), client.policies, client.written)
                && Underway(old(client.policies), client.policies, ns, desired)
                && (outcome == Done ==>
                      && Free(old(client.policies), ns, desired)
                      && client.policies == Target(old(client.policies), ns, desired))
                && (client.NoFaults() ==> (outcome == Done <==> Free(old(client.policies), ns, desired)))
    {
      var state := StateFor();
      if state.namespace.None? { return NotInState; }
      if state.isolation == "" { return NotInState; }
      var ns := state.namespace.value;
      var desired := DesiredPolicies(project.spec.organizationRef, state.isolation);
      ghost var m0, w0 := client.policies, client.written;
      outcome := client.WritePreset(ns, desired);
      if outcome == Done { outcome := client.PruneManaged(ns, desired, m0, w0); }
    }

    /** The two actions inside the namespace. */
    method EnsureAccess() returns (outcome: Outcome)
      requires STATE_KEY in extensions && extensions[STATE_KEY].namespace.Some? && extensions[STATE_KEY].isolation != ""
      modifies this`extensions, client`calls, client`bindings, client`policies, client`written
      ensures outcome != NotInState && extensions == old(extensions)
      ensures var ns := old(extensions)[STATE_KEY].namespace.value;
              var desired := DesiredPolicies(project.spec.organizationRef, old(extensions)[STATE_KEY].isolation);
              var bound := BindRoles(old(client.bindings), ns, project.spec.users, |ROLES|);
              && Traced(old(client.policies), old(client.written), client.written, ns, desired)
              && Logged(old(client.policies), old(client.written), client.policies, client.written)
              && PartlyBound(old(client.bindings), client.bindings, ns, project)
              && Underway(old(client.policies), client.policies, ns, desired)
              && (client.policies != old(client.policies) ==> bound == Some(client.bindings))
              && (outcome == Done ==> bound == Some(client.bindings) && Free(old(client.policies), ns, desired)
                                      && client.policies == Target(old(client.policies), ns, desired))
              && (client.NoFaults() ==> (outcome == Done <==> bound.Some? && Free(old(client.policies), ns, desired)))
    {
      outcome := EnsureRbac();
      if outcome != Done { return; }
      outcome := EnsureNetworkPolicies();
    }

    /** The three writing actions, given a validated request. */
    method WriteAll() returns (outcome: Outcome)
      requires STATE_KEY in extensions && extensions[STATE_KEY].organization.Some?
               && extensions[STATE_KEY].isolation != ""
      modifies this`extensions, this`project
      modifies client`calls, client`nextUid, client`namespaces, client`bindings, client`policies, client`written
      ensures outcome != NotInState
      ensures STATE_KEY in extensions && extensions[STATE_KEY].isolation == old(extensions)[STATE_KEY].isolation
      ensures var root := old(extensions)[STATE_KEY].organization.value.root;
              var isolation := old(extensions)[STATE_KEY].isolation;
              var goal := Provision(old(client.Holds()), old(project), root, isolation, old(client.nextUid));
              && (outcome == Done ==> goal == Some(client.Holds()))
              && (client.NoFaults() ==> (outcome == Done <==> goal.Some?))
      ensures LeftPartway(old(client.Holds()), client.Holds(), old(project),
                          old(extensions)[STATE_KEY].organization.value.root, old(extensions)[STATE_KEY].isolation,
                          old(client.nextUid))
      ensures project == old(project) || project == old(project).(statusNamespace := old(project).name)
      ensures outcome == Done ==> project == old(project).(statusNamespace := old(project).name)
      ensures OnlyContainedWrites(old(client.policies), old(client.written), old(project))
    {
      outcome := EnsureNamespace();
      if outcome != Done { return; }
      outcome := EnsureAccess();
    }

    /** Every policy state this request stored permits only what the start or the preset permits. */
    ghost predicate OnlyContainedWrites(m0: Policies, w0: seq<Policies>, p: Project)
      reads this, client
    {
      && Logged(m0, w0, client.policies, client.written)
      && (client.written != w0 ==>
        && STATE_KEY in extensions && extensions[STATE_KEY].namespace.Some?
        && var desired := DesiredPolicies(p.spec.organizationRef, extensions[STATE_KEY].isolation);
           Traced(m0, w0, client.written, extensions[STATE_KEY].namespace.value, desired))
    }

    /** The registered actions in order, stopping at the first error. */
    method Reconcile() returns (outcome: Outcome)
      modifies this`extensions, this`project
      modifies client`calls, client`nextUid, client`namespaces, client`bindings, client`policies, client`written
      ensures outcome != NotInState
      ensures outcome == Done ==>
                && STATE_KEY in extensions
                && Goal(old(client.Holds()), old(project), extensions[STATE_KEY].isolation, old(client.nextUid))
                   == Some(client.Holds())
                && project == old(project).(statusNamespace := old(project).name)
                && (client.NoFaults() ==> extensions[STATE_KEY].isolation == Isolation(old(project)))
      ensures client.NoFaults() ==>
                (outcome == Done
                 <==> Goal(old(client.Holds()), old(project), Isolation(old(project)), old(client.nextUid)).Some?)
      ensures client.Holds() != old(client.Holds()) ==>
                && STATE_KEY in extensions && Resolved(old(project))
                && LeftPartway(old(client.Holds()), client.Holds(), old(project),
                               client.orgs[old(project).spec.organizationRef].root, extensions[STATE_KEY].isolation,
                               old(client.nextUid))
      ensures project == old(project) || project == old(project).(statusNamespace := old(project).name)
      ensures OnlyContainedWrites(old(client.policies), old(client.written), old(project))
    {
      outcome := ValidateParentOrganization();
      if outcome != Done { return; }
      ComputeEffectiveIsolation();
      outcome := WriteAll();
    }

    /**
      What a reconcile of p is to leave behind; None where the organization is unresolved or
      somebody else holds an object.
     */
    ghost function Goal(w: World, p: Project, isolation: string, freshUid: nat): Option<World> {
      if Resolved(p)
      then Provision(w, p, client.orgs[p.spec.organizationRef].root, isolation, freshUid) else None
    }

    /** The project's organization is stored with its root. */
    ghost predicate Resolved(p: Project) {
      p.spec.organizationRef in client.orgs && client.orgs[p.spec.organizationRef].root != ""
    }

    ghost function Isolation(p: Project): string {
      var ref := p.spec.organizationRef;
      EffectiveIsolation(p, if ref in client.profiles then Found(client.profiles[ref]) else NotFound)
    }
  }
}
