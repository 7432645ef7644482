/**
  The operator as one state machine over a shared store. Every action reads through a reader
  that may lag behind the store, object by object, anywhere back to the start of the run.
 */
module Operator {
  import opened Objects
  import opened Hierarchy
  import opened Authz
  import W = Webhooks
  import OC = OrganizationController

  datatype Store = Store(
    orgs: map<string, Organization>,
    profiles: map<string, Profile>,
    projects: map<string, Project>,
    configurations: map<string, Configuration>,
    namespaces: map<string, Namespace>)

  const EMPTY := Store(map[], map[], map[], map[], map[])

  datatype Event =
    | CreateOrganization(u: UserInfo, organization: Organization)
    | UpdateOrganization(u: UserInfo, organization: Organization)
    | CreateProfile(u: UserInfo, profile: Profile)
    | UpdateProfile(u: UserInfo, profile: Profile)
    | CreateProject(u: UserInfo, project: Project)
    | UpdateProject(u: UserInfo, project: Project)
    | CreateConfiguration(u: UserInfo, configuration: Configuration)
    | UpdateConfiguration(u: UserInfo, configuration: Configuration)
    | DeleteConfiguration(u: UserInfo, name: string)
    // deletions that no webhook gates
    | DeleteOrganization(name: string)
    | DeleteProfile(name: string)
    | DeleteProject(name: string)
    // controllers; the flags say which of the final writes go through
    | ReconcileOrganization(name: string, statusWritten: bool, profileWritten: bool)
    | ReconcileProject(name: string, freshUid: nat)

  /** Events sent by a requester through a webhook. */
  predicate IsRequest(e: Event) {
    || e.CreateOrganization? || e.UpdateOrganization? || e.CreateProfile? || e.UpdateProfile?
    || e.CreateProject? || e.UpdateProject?
    || e.CreateConfiguration? || e.UpdateConfiguration? || e.DeleteConfiguration?
  }

  /**
    The namespace a project reconcile writes: labelled, and controlled by the project.
    None when another controller already owns the namespace.
   */
  function EnsuredNamespace(existing: Option<Namespace>, project: Project, root: string,
                            freshUid: nat): Option<Namespace> {
    var ns := if existing.Some? then existing.value else Namespace(freshUid, map[], None);
    if ns.controller.Some? && ns.controller.value != project.uid then None
    else Some(ns.(labels := ns.labels[ORGANIZATION_LABEL := project.spec.organizationRef][ROOT_LABEL := root],
                  controller := Some(project.uid)))
  }

  /** Refused exactly to a second controller; otherwise two labels and the controller are set and the rest is kept. */
  lemma EnsuredNamespaceExact(existing: Option<Namespace>, project: Project, root: string, freshUid: nat)
    ensures var r := EnsuredNamespace(existing, project, root, freshUid);
            && (r.None? <==> existing.Some? && existing.value.controller.Some?
                             && existing.value.controller.value != project.uid)
            && (r.Some? ==>
                  && r.value.controller == Some(project.uid)
                  && r.value.labels.Keys
                  == (if existing.Some? then existing.value.labels.Keys else {})
                     + {"organization.opendatahub.io/name", "organization.opendatahub.io/root"}
                  && r.value.labels["organization.opendatahub.io/name"] == project.spec.organizationRef
                  && r.value.labels["organization.opendatahub.io/root"] == root
                  && (existing.None? ==> r.value.uid == freshUid)
                  && (existing.Some? ==> r.value.uid == existing.value.uid)
                  && (existing.Some? ==>
                        forall l :: l in existing.value.labels && l != ORGANIZATION_LABEL && l != ROOT_LABEL ==>
                          r.value.labels[l] == existing.value.labels[l]))
  {
    assert ORGANIZATION_LABEL[28] != ROOT_LABEL[28];
  }

  function Stored<T>(objects: map<string, T>, name: string): Option<T> {
    if name in objects then Some(objects[name]) else None
  }

  // ---------------------------------------------------------------- requests

  /** Status is a subresource: creating or updating the object cannot write it. */
  function ApplyToOrganizations(az: Authorizer, rd: Reader, s: Store, e: Event): Store
    requires e.CreateOrganization? || e.UpdateOrganization?
  {
    var o := e.organization;
    if e.CreateOrganization? then
      if o.name != "" && o.name !in s.orgs && W.CreateOrganization(az, rd, e.u, o) == W.Admit
      then s.(orgs := s.orgs[o.name := o.(root := "")]) else s
    else
      if o.name in s.orgs && W.UpdateOrganization(az, rd, e.u, s.orgs[o.name], o) == W.Admit
      then s.(orgs := s.orgs[o.name := o.(root := s.orgs[o.name].root)]) else s
  }

  function ApplyToProfiles(az: Authorizer, rd: Reader, s: Store, e: Event): Store
    requires e.CreateProfile? || e.UpdateProfile?
  {
    var p := e.profile;
    if e.CreateProfile? then
      if p.name != "" && p.name !in s.profiles && W.CreateProfile(az, rd, e.u, p) == W.Admit
      then s.(profiles := s.profiles[p.name := p]) else s
    else
      if p.name in s.profiles && W.UpdateProfile(az, rd, e.u, s.profiles[p.name], p) == W.Admit
      then s.(profiles := s.profiles[p.name := p]) else s
  }

  function ApplyToProjects(az: Authorizer, rd: Reader, s: Store, e: Event): Store
    requires e.CreateProject? || e.UpdateProject?
  {
    var p := e.project;
    if e.CreateProject? then
      if p.name != "" && p.name !in s.projects && W.CreateProject(az, rd, e.u, p) == W.Admit
      then s.(projects := s.projects[p.name := p.(statusNamespace := "")]) else s
    else
      if p.name in s.projects && W.UpdateProject(az, rd, e.u, s.projects[p.name], p) == W.Admit
      then s.(projects := s.projects[p.name :=
                            p.(uid := s.projects[p.name].uid, statusNamespace := s.projects[p.name].statusNamespace)])
      else s
  }

  /** A configuration marked for deletion disappears with its last finalizer. */
  function ApplyToConfigurations(az: Authorizer, rd: Reader, s: Store, e: Event): Store
    requires e.CreateConfiguration? || e.UpdateConfiguration? || e.DeleteConfiguration?
  {
    match e
    case CreateConfiguration(u, c) =>
      if c.name != "" && c.name !in s.configurations && W.ValidateConfiguration(az, rd, u, c) == W.Admit
      then s.(configurations := s.configurations[c.name := c.(deleting := false)]) else s
    case UpdateConfiguration(u, c) =>
      if c.name in s.configurations && W.UpdateConfiguration(az, rd, u, s.configurations[c.name], c) == W.Admit then
        var c' := c.(uid := s.configurations[c.name].uid, deleting := s.configurations[c.name].deleting);
        if c'.deleting && c'.finalizers == {} then s.(configurations := s.configurations - {c.name})
        else s.(configurations := s.configurations[c.name := c'])
      else s
    case DeleteConfiguration(u, name) =>
      if name in s.configurations && W.DeleteConfiguration(az, rd, u, s.configurations[name]) == W.Admit then
        if s.configurations[name].finalizers == {} then s.(configurations := s.configurations - {name})
        else s.(configurations := s.configurations[name := s.configurations[name].(deleting := true)])
      else s
  }

  /** What a configuration request that changes the store is known to have passed. */
  lemma ConfigurationWrites(az: Authorizer, rd: Reader, s: Store, e: Event) returns (n: string, c: Configuration)
    requires e.CreateConfiguration? || e.UpdateConfiguration? || e.DeleteConfiguration?
    requires ApplyToConfigurations(az, rd, s, e) != s
    ensures W.RequireSelfAdmin(az, rd, e.u, c.spec.organizationRef) == W.Admit
    ensures n in s.configurations ==> s.configurations[n].spec.organizationRef == c.spec.organizationRef
    ensures
      || (e.DeleteConfiguration? && n in s.configurations && c.name == s.configurations[n].name)
      || (n == c.name == c.spec.organizationRef != "" && n in rd.orgs && rd.orgs[n].parent == "")
    ensures var s' := ApplyToConfigurations(az, rd, s, e);
            s' == s.(configurations := s.configurations[n := c]) || s' == s.(configurations := s.configurations - {n})
  {
    match e
    case CreateConfiguration(_, obj) => n, c := obj.name, obj.(deleting := false);
    case UpdateConfiguration(_, obj) =>
      n := obj.name;
      c := obj.(uid := s.configurations[n].uid, deleting := s.configurations[n].deleting);
    case DeleteConfiguration(_, name) => n, c := name, s.configurations[name].(deleting := true);
  }

  // ---------------------------------------------------------------- controllers

  function ApplyOrganizationReconcile(rd: Reader, s: Store, name: string, statusWritten: bool,
                                      profileWritten: bool): Store {
    match rd.GetOrganization(name)
    case Found(instance) =>
      if RootWalk(rd, instance, MAX_HIERARCHY_DEPTH).Root? then
        var resolved := OC.WithRoot(rd, instance);
        var profiles := if profileWritten then OC.WithProfile(rd, s.profiles, resolved) else s.profiles;
        var orgs := if statusWritten && name in s.orgs
                    then s.orgs[name := s.orgs[name].(root := resolved.root)] else s.orgs;
        s.(profiles := profiles, orgs := orgs)
      else s
    case _ => s
  }

  /** The project pipeline up to its namespace action. */
  function ApplyProjectReconcile(rd: Reader, s: Store, name: string, freshUid: nat): Store {
    if name !in rd.projects then s
    else
      var project := rd.projects[name];
      match rd.GetOrganization(project.spec.organizationRef)
      case Found(o) =>
        if o.root == "" then s
        else
          var ensured := EnsuredNamespace(Stored(s.namespaces, project.name), project, o.root, freshUid);
          if ensured.None? then s else s.(namespaces := s.namespaces[project.name := ensured.value])
      case _ => s
  }

  function ApplyRequest(az: Authorizer, rd: Reader, s: Store, e: Event): Store
    requires IsRequest(e)
  {
    if e.CreateOrganization? || e.UpdateOrganization? then ApplyToOrganizations(az, rd, s, e)
    else if e.CreateProfile? || e.UpdateProfile? then ApplyToProfiles(az, rd, s, e)
    else if e.CreateProject? || e.UpdateProject? then ApplyToProjects(az, rd, s, e)
    else ApplyToConfigurations(az, rd, s, e)
  }

  function Apply(az: Authorizer, rd: Reader, s: Store, e: Event): Store {
    match e
    case DeleteOrganization(name) => s.(orgs := s.orgs - {name})
    case DeleteProfile(name) => s.(profiles := s.profiles - {name})
    case DeleteProject(name) => s.(projects := s.projects - {name})
    case ReconcileOrganization(name, status, profile) => ApplyOrganizationReconcile(rd, s, name, status, profile)
    case ReconcileProject(name, freshUid) => ApplyProjectReconcile(rd, s, name, freshUid)
    case _ => ApplyRequest(az, rd, s, e)
  }

  // ---------------------------------------------------------------- events take effect

  /** Admitted creates of new names are stored as sent, short of status and the deletion mark. */
  lemma AdmittedCreatesAreStored(az: Authorizer, rd: Reader, s: Store, e: Event)
    ensures e.CreateOrganization? && e.organization.name != "" && e.organization.name !in s.orgs
            && W.CreateOrganization(az, rd, e.u, e.organization) == W.Admit ==>
              var o := e.organization;
              Apply(az, rd, s, e) == s.(orgs := s.orgs[o.name := Organization(o.name, o.parent, "")])
    ensures e.CreateProfile? && e.profile.name != "" && e.profile.name !in s.profiles
            && W.CreateProfile(az, rd, e.u, e.profile) == W.Admit ==>
              Apply(az, rd, s, e) == s.(profiles := s.profiles[e.profile.name := e.profile])
    ensures e.CreateProject? && e.project.name != "" && e.project.name !in s.projects
            && W.CreateProject(az, rd, e.u, e.project) == W.Admit ==>
              var p := e.project;
              Apply(az, rd, s, e) == s.(projects := s.projects[p.name := Project(p.name, p.uid, p.spec, "")])
    ensures e.CreateConfiguration? && e.configuration.name != "" && e.configuration.name !in s.configurations
            && W.ValidateConfiguration(az, rd, e.u, e.configuration) == W.Admit ==>
              var c := e.configuration;
              Apply(az, rd, s, e) == s.(configurations :=
                s.configurations[c.name := Configuration(c.name, c.uid, c.spec, c.finalizers, false)])
  {
  }

  /** Admitted updates replace the spec of what is stored and keep its status, uid and deletion mark. */
  lemma AdmittedUpdatesAreStored(az: Authorizer, rd: Reader, s: Store, e: Event)
    ensures e.UpdateOrganization? && e.organization.name in s.orgs
            && W.UpdateOrganization(az, rd, e.u, s.orgs[e.organization.name], e.organization) == W.Admit ==>
              var o := e.organization;
              Apply(az, rd, s, e) == s.(orgs :=
                s.orgs[o.name := Organization(o.name, o.parent, s.orgs[o.name].root)])
    ensures e.UpdateProfile? && e.profile.name in s.profiles
            && W.UpdateProfile(az, rd, e.u, s.profiles[e.profile.name], e.profile) == W.Admit ==>
              Apply(az, rd, s, e) == s.(profiles := s.profiles[e.profile.name := e.profile])
    ensures e.UpdateProject? && e.project.name in s.projects
            && W.UpdateProject(az, rd, e.u, s.projects[e.project.name], e.project) == W.Admit ==>
              var p, old_ := e.project, s.projects[e.project.name];
              Apply(az, rd, s, e) == s.(projects :=
                s.projects[p.name := Project(p.name, old_.uid, p.spec, old_.statusNamespace)])
  {
  }

  /** Deleting a configuration removes it, or marks it while it has finalizers. */
  lemma AdmittedDeletesTakeEffect(az: Authorizer, rd: Reader, s: Store, e: Event)
    requires e.DeleteConfiguration? && e.name in s.configurations
    requires W.DeleteConfiguration(az, rd, e.u, s.configurations[e.name]) == W.Admit
    ensures var after := Apply(az, rd, s, e).configurations;
            if s.configurations[e.name].finalizers == {} then after == s.configurations - {e.name}
            else after == s.configurations[e.name := s.configurations[e.name].(deleting := true)]
  {
  }

  /**
    A reconcile of a resolvable organization whose writes go through leaves the true root in status
    and, where the profile is missing, the default one.
   */
  lemma OrganizationReconcileTakesEffect(rd: Reader, s: Store, name: string) returns (k: nat)
    requires WellNamed(rd.orgs) && name in rd.orgs && OrganizationKey(name) !in rd.failing
    requires RootWalk(rd, rd.orgs[name], MAX_HIERARCHY_DEPTH).Root?
    ensures k <= 2 && TopAt(rd.orgs, name, k)
    ensures var s' := ApplyOrganizationReconcile(rd, s, name, true, true);
            var root := AncestorAt(rd.orgs, name, k);
            && (name in s.orgs ==> s'.orgs == s.orgs[name := s.orgs[name].(root := root)])
            && (rd.GetProfile(name) == NotFound && name !in s.profiles ==>
                  s'.profiles == s.profiles[name := OC.DefaultProfile(rd.orgs[name].(root := root))])
            && (rd.GetProfile(name).Found? ==> s'.profiles == s.profiles)
  {
    k := OC.WithRootExactly(rd, name);
    OC.WithProfileExactly(rd, s.profiles, OC.WithRoot(rd, rd.orgs[name]));
  }

  /** A reconcile of a project of a resolved organization leaves its namespace labelled and controlled. */
  lemma ProjectReconcileTakesEffect(rd: Reader, s: Store, name: string, freshUid: nat)
    requires name in rd.projects && rd.projects[name].name == name
    requires var x := rd.projects[name].spec.organizationRef;
             x in rd.orgs && OrganizationKey(x) !in rd.failing && rd.orgs[x].root != ""
    requires name in s.namespaces ==>
               s.namespaces[name].controller.None? || s.namespaces[name].controller == Some(rd.projects[name].uid)
    ensures var s' := ApplyProjectReconcile(rd, s, name, freshUid);
            var x := rd.projects[name].spec.organizationRef;
            && s' == s.(namespaces := s'.namespaces) && name in s'.namespaces
            && s'.namespaces == s.namespaces[name := s'.namespaces[name]]
            && s'.namespaces[name].controller == Some(rd.projects[name].uid)
            && ORGANIZATION_LABEL in s'.namespaces[name].labels && ROOT_LABEL in s'.namespaces[name].labels
            && s'.namespaces[name].labels[ORGANIZATION_LABEL] == x
            && s'.namespaces[name].labels[ROOT_LABEL] == rd.orgs[x].root
  {
    var project := rd.projects[name];
    EnsuredNamespaceExact(Stored(s.namespaces, name), project, rd.orgs[project.spec.organizationRef].root, freshUid);
  }

  // ---------------------------------------------------------------- runs

  /** Each read returns what some state of the run so far held at that name, or fails. */
  ghost predicate Observes(rd: Reader, history: seq<Store>) {
    && (forall n :: n in rd.orgs ==> exists s :: s in history && n in s.orgs && s.orgs[n] == rd.orgs[n])
    && (forall n :: n in rd.profiles ==> exists s :: s in history && n in s.profiles && s.profiles[n] == rd.profiles[n])
    && (forall n :: n in rd.configurations ==>
          exists s :: s in history && n in s.configurations && s.configurations[n] == rd.configurations[n])
    && (forall n :: n in rd.projects ==> exists s :: s in history && n in s.projects && s.projects[n] == rd.projects[n])
  }

  datatype Action = Action(event: Event, rd: Reader)

  ghost predicate Step(az: Authorizer, history: seq<Store>, a: Action, s': Store) {
    |history| > 0 && Observes(a.rd, history) && s' == Apply(az, a.rd, history[|history| - 1], a.event)
  }

  ghost predicate StepAt(az: Authorizer, states: seq<Store>, actions: seq<Action>, k: nat)
    requires k < |actions| && |states| == |actions| + 1
  {
    Step(az, states[..k + 1], actions[k], states[k + 1])
  }

  /** `states` is a run from its first state, with one action between neighbours. */
  ghost predicate Run(az: Authorizer, states: seq<Store>, actions: seq<Action>) {
    |states| == |actions| + 1 && forall k: nat :: k < |actions| ==> StepAt(az, states, actions, k)
  }

  lemma RunPrefix(az: Authorizer, states: seq<Store>, actions: seq<Action>, n: nat)
    requires Run(az, states, actions) && n < |actions|
    ensures Run(az, states[..n + 1], actions[..n])
  {
    var earlier, done := states[..n + 1], actions[..n];
    forall k: nat | k < |done| ensures StepAt(az, earlier, done, k) {
      assert StepAt(az, states, actions, k);
      assert earlier[..k + 1] == states[..k + 1];
    }
  }
}
