/** Requesters without authority in a part of the hierarchy never gain any, and never change it. */
module Confinement {
  import opened Objects
  import opened Authz
  import opened Operator
  import W = Webhooks
  import NP = NetworkPolicies

  /** The requesters and the organizations that are to stay out of their reach. */
  datatype Boundary = Boundary(users: iset<UserInfo>, orgs: set<string>)

  ghost predicate Closed(b: Boundary, s: Store) {
    forall x :: x in b.orgs ==> x != "" && x in s.orgs && (s.orgs[x].parent == "" || s.orgs[x].parent in b.orgs)
  }

  /** Profiles inside carry their organization's name and list none of the users. */
  ghost predicate NoAuthority(b: Boundary, profiles: map<string, Profile>) {
    forall x :: x in b.orgs && x in profiles ==> profiles[x].spec.organizationRef == x && Unlisted(b, profiles[x])
  }

  ghost predicate Unlisted(b: Boundary, p: Profile) {
    forall u :: u in b.users ==> !AnyMatches(p.spec.AdminList(), u)
  }

  ghost predicate ParentsKept(b: Boundary, orgs0: map<string, Organization>, orgs: map<string, Organization>) {
    forall x :: x in b.orgs && x in orgs0 ==> x in orgs && orgs[x].parent == orgs0[x].parent
  }

  ghost predicate NoNewChildren(b: Boundary, orgs0: map<string, Organization>, orgs: map<string, Organization>) {
    forall n :: n in orgs && orgs[n].parent in b.orgs ==> n in orgs0 && orgs0[n].parent == orgs[n].parent
  }

  ghost predicate ProfilesKept(b: Boundary, profiles0: map<string, Profile>, profiles: map<string, Profile>) {
    forall x :: x in b.orgs && x in profiles0 ==> x in profiles && profiles[x].spec == profiles0[x].spec
  }

  ghost function ProjectsInside(b: Boundary, projects: map<string, Project>): map<string, ProjectSpec> {
    map n | n in projects && projects[n].spec.organizationRef in b.orgs :: projects[n].spec
  }

  predicate InsideConfiguration(b: Boundary, configurations: map<string, Configuration>, n: string) {
    n in configurations && configurations[n].spec.organizationRef in b.orgs
  }

  /** Nothing new and no spec changed; only what was already being deleted may be gone. */
  ghost predicate ConfigurationsKept(b: Boundary, before: map<string, Configuration>,
                                     after: map<string, Configuration>) {
    && (forall n :: InsideConfiguration(b, after, n) ==>
          && InsideConfiguration(b, before, n)
          && after[n].spec == before[n].spec && after[n].deleting == before[n].deleting)
    && (forall n :: InsideConfiguration(b, before, n) && !before[n].deleting ==> InsideConfiguration(b, after, n))
  }

  /**
    Inside, the users are listed nowhere, and every spec is what it was in s0: nothing was added,
    changed or removed, except that a missing profile may have been created and a configuration that
    was being deleted may be gone. Nor did any inside organization get a new child.
   */
  ghost predicate Safe(b: Boundary, s0: Store, s: Store) {
    && NoAuthority(b, s.profiles)
    && ParentsKept(b, s0.orgs, s.orgs) && NoNewChildren(b, s0.orgs, s.orgs)
    && ProfilesKept(b, s0.profiles, s.profiles)
    && ProjectsInside(b, s.projects) == ProjectsInside(b, s0.projects)
    && ConfigurationsKept(b, s0.configurations, s.configurations)
  }

  /** An update of a configuration that leaves its spec alone, such as the MaaS controller's finalizer writes. */
  predicate KeepsSpec(s: Store, e: Event) {
    && e.UpdateConfiguration?
    && (e.configuration.name in s.configurations ==>
        e.configuration.spec == s.configurations[e.configuration.name].spec)
  }

  /**
    Requests come from the users; ungated deletions happen outside; the three controllers run
    anywhere, so whoever asks may update a configuration that keeps its spec.
   */
  ghost predicate Permitted(b: Boundary, s: Store, e: Event) {
    match e
    case DeleteOrganization(name) => name !in b.orgs
    case DeleteProfile(name) => name !in b.orgs
    case DeleteProject(name) => name in s.projects ==> s.projects[name].spec.organizationRef !in b.orgs
    case ReconcileOrganization(_, _, _) => true
    case ReconcileProject(_, _) => true
    case _ => e.u in b.users || KeepsSpec(s, e)
  }

  ghost predicate Start(az: Authorizer, b: Boundary, s0: Store) {
    && Closed(b, s0) && NoAuthority(b, s0.profiles)
    && forall u :: u in b.users ==> !Trusted(az, u)
  }

  ghost predicate AllSafe(b: Boundary, s0: Store, states: seq<Store>) {
    var n := |states|;
    n > 0 ==> AllSafe(b, s0, states[..n - 1]) && Safe(b, s0, states[n - 1])
  }

  lemma {:induction false} AllSafeAt(b: Boundary, s0: Store, states: seq<Store>, i: nat)
    requires AllSafe(b, s0, states) && i < |states|
    ensures Safe(b, s0, states[i])
  {
    if i < |states| - 1 { AllSafeAt(b, s0, states[..|states| - 1], i); }
  }

  /** What a reader may show of the inside: old parents, and profiles that list no user. */
  ghost predicate Blind(b: Boundary, s0: Store, rd: Reader) {
    && (forall x :: x in b.orgs && x in rd.orgs ==> x in s0.orgs && rd.orgs[x].parent == s0.orgs[x].parent)
    && (forall x :: x in b.orgs && x in rd.profiles ==> Unlisted(b, rd.profiles[x]))
  }

  /** However stale and however mixed, the reads of a safe run are blind. */
  lemma ReadersAreBlind(b: Boundary, s0: Store, history: seq<Store>, rd: Reader)
    requires Closed(b, s0) && Observes(rd, history)
    requires AllSafe(b, s0, history)
    ensures Blind(b, s0, rd)
  {
    forall s | s in history ensures NoAuthority(b, s.profiles) && ParentsKept(b, s0.orgs, s.orgs) {
      var i :| 0 <= i < |history| && history[i] == s;
      AllSafeAt(b, s0, history, i);
    }
  }

  /** The bounded walk never answers yes inside. */
  lemma {:induction false} NotAdminInside(b: Boundary, s0: Store, rd: Reader, u: UserInfo, x: string, steps: nat)
    requires Closed(b, s0) && Blind(b, s0, rd)
    requires u in b.users && (x in b.orgs || x == "")
    ensures AncestorAnswer(rd, u, x, steps) != Yes
    ensures x in b.orgs ==> SelfAdminAnswer(rd, u, x) != Yes
    decreases steps
  {
    if steps > 0 && x != "" && x in rd.orgs {
      NotAdminInside(b, s0, rd, u, rd.orgs[x].parent, steps - 1);
    }
  }

  lemma OrganizationRequestsStayOutside(az: Authorizer, b: Boundary, s0: Store, rd: Reader, e: Event, s: Store)
    requires Start(az, b, s0) && Blind(b, s0, rd) && Safe(b, s0, s)
    requires (e.CreateOrganization? || e.UpdateOrganization?) && e.u in b.users
    ensures Safe(b, s0, ApplyToOrganizations(az, rd, s, e))
  {
    var s' := ApplyToOrganizations(az, rd, s, e);
    if e.CreateOrganization? && e.organization.parent in b.orgs {
      NotAdminInside(b, s0, rd, e.u, e.organization.parent, MAX_ANCESTOR_WALK);
      assert s' == s;
    } else if s' != s {
      var o := s'.orgs[e.organization.name];
      assert s' == s.(orgs := s.orgs[o.name := o]);
      StoringOutside(b, s0, s, o);
    }
  }

  lemma StoringOutside(b: Boundary, s0: Store, s: Store, o: Organization)
    requires Safe(b, s0, s) && Closed(b, s0)
    requires if o.name in s.orgs then o.parent == s.orgs[o.name].parent else o.parent !in b.orgs
    ensures Safe(b, s0, s.(orgs := s.orgs[o.name := o]))
  {
  }

  lemma ProfileRequestsStayOutside(az: Authorizer, b: Boundary, s0: Store, rd: Reader, e: Event, s: Store)
    requires Start(az, b, s0) && Blind(b, s0, rd) && Safe(b, s0, s)
    requires (e.CreateProfile? || e.UpdateProfile?) && e.u in b.users
    ensures Safe(b, s0, ApplyToProfiles(az, rd, s, e))
  {
    var s' := ApplyToProfiles(az, rd, s, e);
    var p := e.profile;
    if p.spec.organizationRef in b.orgs {
      NotAdminInside(b, s0, rd, e.u, p.spec.organizationRef, MAX_ANCESTOR_WALK);
      assert s' == s;
    } else if s' != s {
      assert p.name !in b.orgs;
      assert s'.profiles == s.profiles[p.name := p];
    }
  }

  lemma ProjectsOutsideDoNotCount(b: Boundary, projects: map<string, Project>, n: string, p: Project)
    requires p.spec.organizationRef !in b.orgs
    requires n in projects ==> projects[n].spec.organizationRef !in b.orgs
    ensures ProjectsInside(b, projects[n := p]) == ProjectsInside(b, projects)
    ensures ProjectsInside(b, projects - {n}) == ProjectsInside(b, projects)
  {
  }

  lemma ProjectRequestsStayOutside(az: Authorizer, b: Boundary, s0: Store, rd: Reader, e: Event, s: Store)
    requires Start(az, b, s0) && Blind(b, s0, rd) && Safe(b, s0, s)
    requires (e.CreateProject? || e.UpdateProject?) && e.u in b.users
    ensures Safe(b, s0, ApplyToProjects(az, rd, s, e))
  {
    var s' := ApplyToProjects(az, rd, s, e);
    var p := e.project;
    if p.spec.organizationRef in b.orgs {
      NotAdminInside(b, s0, rd, e.u, p.spec.organizationRef, MAX_ANCESTOR_WALK);
      assert s' == s;
    } else if s' != s {
      assert s'.projects == s.projects[p.name := s'.projects[p.name]];
      ProjectsOutsideDoNotCount(b, s.projects, p.name, s'.projects[p.name]);
    }
  }

  /** Changing the configurations outside, or keeping what counts of those inside, is safe. */
  lemma ConfigurationsStayKept(b: Boundary, s0: Store, s: Store, configurations: map<string, Configuration>)
    requires Safe(b, s0, s) && ConfigurationsKept(b, s.configurations, configurations)
    ensures Safe(b, s0, s.(configurations := configurations))
  {
  }

  lemma ConfigurationsOutsideDoNotCount(b: Boundary, configurations: map<string, Configuration>, n: string,
                                        c: Configuration)
    requires c.spec.organizationRef !in b.orgs
    requires n in configurations ==> configurations[n].spec.organizationRef !in b.orgs
    ensures ConfigurationsKept(b, configurations, configurations[n := c])
    ensures ConfigurationsKept(b, configurations, configurations - {n})
  {
  }

  /** A configuration request of a user writes outside only. */
  lemma ConfigurationWritesOutside(az: Authorizer, b: Boundary, s0: Store, rd: Reader, e: Event, s: Store)
    returns (n: string, c: Configuration)
    requires Start(az, b, s0) && Blind(b, s0, rd)
    requires (e.CreateConfiguration? || e.UpdateConfiguration? || e.DeleteConfiguration?) && e.u in b.users
    requires ApplyToConfigurations(az, rd, s, e) != s
    ensures c.spec.organizationRef !in b.orgs
    ensures n in s.configurations ==> s.configurations[n].spec.organizationRef !in b.orgs
    ensures var s' := ApplyToConfigurations(az, rd, s, e);
            s' == s.(configurations := s.configurations[n := c]) || s' == s.(configurations := s.configurations - {n})
  {
    n, c := ConfigurationWrites(az, rd, s, e);
    if c.spec.organizationRef in b.orgs { NotAdminInside(b, s0, rd, e.u, c.spec.organizationRef, 0); }
  }

  lemma ConfigurationRequestsStayOutside(az: Authorizer, b: Boundary, s0: Store, rd: Reader, e: Event, s: Store)
    requires Start(az, b, s0) && Blind(b, s0, rd) && Safe(b, s0, s)
    requires (e.CreateConfiguration? || e.UpdateConfiguration? || e.DeleteConfiguration?) && e.u in b.users
    ensures Safe(b, s0, ApplyToConfigurations(az, rd, s, e))
  {
    var s' := ApplyToConfigurations(az, rd, s, e);
    if s' != s {
      var n, c := ConfigurationWritesOutside(az, b, s0, rd, e, s);
      ConfigurationsOutsideDoNotCount(b, s.configurations, n, c);
      ConfigurationsStayKept(b, s0, s, s'.configurations);
    }
  }

  lemma SpecKeepingUpdateKeeps(az: Authorizer, b: Boundary, rd: Reader, e: Event, s: Store)
    requires KeepsSpec(s, e)
    ensures var s' := ApplyToConfigurations(az, rd, s, e);
            s' == s.(configurations := s'.configurations) && ConfigurationsKept(b, s.configurations, s'.configurations)
  {
  }

  lemma SpecKeepingUpdatesAreSafe(az: Authorizer, b: Boundary, s0: Store, rd: Reader, e: Event, s: Store)
    requires Safe(b, s0, s) && KeepsSpec(s, e)
    ensures Safe(b, s0, ApplyToConfigurations(az, rd, s, e))
  {
    SpecKeepingUpdateKeeps(az, b, rd, e, s);
    ConfigurationsStayKept(b, s0, s, ApplyToConfigurations(az, rd, s, e).configurations);
  }

  lemma DeletionsStayOutside(b: Boundary, s0: Store, s: Store, name: string)
    requires Safe(b, s0, s)
    ensures name !in b.orgs ==> Safe(b, s0, s.(orgs := s.orgs - {name}))
    ensures name !in b.orgs ==> Safe(b, s0, s.(profiles := s.profiles - {name}))
    ensures (name in s.projects ==> s.projects[name].spec.organizationRef !in b.orgs)
        ==> Safe(b, s0, s.(projects := s.projects - {name}))
  {
    if name in s.projects {
      if s.projects[name].spec.organizationRef !in b.orgs {
        ProjectsOutsideDoNotCount(b, s.projects, name, s.projects[name]);
      }
    } else {
      assert s.projects - {name} == s.projects;
    }
  }

  lemma ControllersStayOutside(b: Boundary, s0: Store, rd: Reader, s: Store, name: string, status: bool, profile: bool)
    requires Safe(b, s0, s)
    ensures Safe(b, s0, ApplyOrganizationReconcile(rd, s, name, status, profile))
  {
    var s' := ApplyOrganizationReconcile(rd, s, name, status, profile);
    assert ParentsKept(b, s0.orgs, s'.orgs);
    assert forall x :: x in s.profiles ==> x in s'.profiles && s'.profiles[x] == s.profiles[x];
    forall x | x in s'.profiles && x !in s.profiles
      ensures s'.profiles[x].spec.organizationRef == x && s'.profiles[x].spec.AdminList() == []
    {
    }
  }

  lemma RequestsStayOutside(az: Authorizer, b: Boundary, s0: Store, rd: Reader, e: Event, s: Store)
    requires Start(az, b, s0) && Blind(b, s0, rd) && Safe(b, s0, s) && IsRequest(e)
    requires e.u in b.users || KeepsSpec(s, e)
    ensures Safe(b, s0, ApplyRequest(az, rd, s, e))
  {
    if e.CreateOrganization? || e.UpdateOrganization? {
      OrganizationRequestsStayOutside(az, b, s0, rd, e, s);
    } else if e.CreateProfile? || e.UpdateProfile? {
      ProfileRequestsStayOutside(az, b, s0, rd, e, s);
    } else if e.CreateProject? || e.UpdateProject? {
      ProjectRequestsStayOutside(az, b, s0, rd, e, s);
    } else if e.u in b.users {
      ConfigurationRequestsStayOutside(az, b, s0, rd, e, s);
    } else {
      SpecKeepingUpdatesAreSafe(az, b, s0, rd, e, s);
    }
  }

  /** One step of a safe run, by a user, an ungated deletion outside, or a controller. */
  lemma StepStaysOutside(az: Authorizer, b: Boundary, s0: Store, rd: Reader, e: Event, s: Store)
    requires Start(az, b, s0) && Blind(b, s0, rd) && Safe(b, s0, s) && Permitted(b, s, e)
    ensures Safe(b, s0, Apply(az, rd, s, e))
  {
    match e
    case DeleteOrganization(name) => DeletionsStayOutside(b, s0, s, name);
    case DeleteProfile(name) => DeletionsStayOutside(b, s0, s, name);
    case DeleteProject(name) => DeletionsStayOutside(b, s0, s, name);
    case ReconcileOrganization(name, status, profile) => ControllersStayOutside(b, s0, rd, s, name, status, profile);
    case ReconcileProject(name, freshUid) =>
      var s' := ApplyProjectReconcile(rd, s, name, freshUid);
      assert s' == s.(namespaces := s'.namespaces);
    case _ => RequestsStayOutside(az, b, s0, rd, e, s);
  }

  lemma LastStepIsSafe(az: Authorizer, b: Boundary, s0: Store, history: seq<Store>, a: Action, s': Store)
    requires Start(az, b, s0) && AllSafe(b, s0, history) && Step(az, history, a, s')
    requires Permitted(b, history[|history| - 1], a.event)
    ensures Safe(b, s0, s')
  {
    var s := history[|history| - 1];
    ReadersAreBlind(b, s0, history, a.rd);
    StepStaysOutside(az, b, s0, a.rd, a.event, s);
  }

  lemma {:induction false} RunsAreSafe(az: Authorizer, b: Boundary, states: seq<Store>, actions: seq<Action>)
    requires Run(az, states, actions) && Start(az, b, states[0])
    requires forall i :: 0 <= i < |actions| ==> Permitted(b, states[i], actions[i].event)
    ensures AllSafe(b, states[0], states)
    decreases |actions|
  {
    var n := |actions|;
    if n > 0 {
      RunPrefix(az, states, actions, n - 1);
      RunsAreSafe(az, b, states[..n], actions[..n - 1]);
      assert StepAt(az, states, actions, n - 1);
      LastStepIsSafe(az, b, states[0], states[..n], actions[n - 1], states[n]);
    }
  }

  /** In every state of every permitted run, the inside lists none of the users and is as it was at the start. */
  lemma AuthorityIsConfined(az: Authorizer, b: Boundary, states: seq<Store>, actions: seq<Action>, i: nat)
    requires Run(az, states, actions) && Start(az, b, states[0]) && i < |states|
    requires forall j :: 0 <= j < |actions| ==> Permitted(b, states[j], actions[j].event)
    ensures Safe(b, states[0], states[i])
  {
    RunsAreSafe(az, b, states, actions);
    AllSafeAt(b, states[0], states, i);
  }

  /** Consequently no webhook ever takes such a requester for an admin inside. */
  lemma NobodyGainsAuthority(az: Authorizer, b: Boundary, states: seq<Store>, actions: seq<Action>,
                             rd: Reader, u: UserInfo, x: string)
    requires Run(az, states, actions) && Start(az, b, states[0])
    requires forall i :: 0 <= i < |actions| ==> Permitted(b, states[i], actions[i].event)
    requires Observes(rd, states) && u in b.users && x in b.orgs
    ensures W.RequireAncestorAdmin(az, rd, u, x) != W.Admit
    ensures W.RequireSelfAdmin(az, rd, u, x) != W.Admit
  {
    RunsAreSafe(az, b, states, actions);
    ReadersAreBlind(b, states[0], states, rd);
    NotAdminInside(b, states[0], rd, u, x, MAX_ANCESTOR_WALK);
  }

  // ---------------------------------------------------------------- namespaces

  ghost predicate ProjectsNamed(projects: map<string, Project>) {
    forall n :: n in projects ==> projects[n].name == n
  }

  predicate LabelledInside(b: Boundary, namespaces: map<string, Namespace>, n: string) {
    n in namespaces && ORGANIZATION_LABEL in namespaces[n].labels && namespaces[n].labels[ORGANIZATION_LABEL] in b.orgs
  }

  /** The namespace counted as inside at the start: by its label, or as the one of an inside project. */
  predicate InsideFromStart(b: Boundary, s0: Store, n: string) {
    LabelledInside(b, s0.namespaces, n) || (n in s0.projects && s0.projects[n].spec.organizationRef in b.orgs)
  }

  ghost predicate NoneJoined(b: Boundary, s0: Store, s: Store) {
    ProjectsNamed(s.projects) && forall n :: LabelledInside(b, s.namespaces, n) ==> InsideFromStart(b, s0, n)
  }

  ghost predicate NoneEverJoined(b: Boundary, s0: Store, states: seq<Store>) {
    forall s :: s in states ==> NoneJoined(b, s0, s)
  }

  /** A project that any state of the run held inside was inside at the start, under its own name. */
  lemma ProjectReadIsOld(b: Boundary, s0: Store, history: seq<Store>, rd: Reader, name: string)
    requires AllSafe(b, s0, history) && NoneEverJoined(b, s0, history) && Observes(rd, history) && name in rd.projects
    ensures rd.projects[name].name == name
    ensures rd.projects[name].spec.organizationRef in b.orgs ==> InsideFromStart(b, s0, name)
  {
    var s :| s in history && name in s.projects && s.projects[name] == rd.projects[name];
    var i :| 0 <= i < |history| && history[i] == s;
    AllSafeAt(b, s0, history, i);
    assert NoneJoined(b, s0, s);
    assert s.projects[name].spec.organizationRef in b.orgs ==> name in ProjectsInside(b, s.projects);
    assert name in ProjectsInside(b, s0.projects) ==> InsideFromStart(b, s0, name);
  }

  lemma ProjectReconcileLetsNoneJoin(b: Boundary, s0: Store, history: seq<Store>, rd: Reader, name: string,
                                     freshUid: nat)
    requires |history| > 0 && AllSafe(b, s0, history) && NoneEverJoined(b, s0, history) && Observes(rd, history)
    ensures NoneJoined(b, s0, ApplyProjectReconcile(rd, history[|history| - 1], name, freshUid))
  {
    var s := history[|history| - 1];
    assert NoneJoined(b, s0, s);
    if name in rd.projects {
      ProjectReadIsOld(b, s0, history, rd, name);
      forall o: Organization {
        EnsuredNamespaceExact(Stored(s.namespaces, name), rd.projects[name], o.root, freshUid);
      }
    }
  }

  /** Every other event leaves the namespaces alone and stores projects under their own names. */
  lemma OtherEventsKeepNamespaces(az: Authorizer, rd: Reader, s: Store, e: Event)
    requires !e.ReconcileProject?
    ensures Apply(az, rd, s, e).namespaces == s.namespaces
    ensures ProjectsNamed(s.projects) ==> ProjectsNamed(Apply(az, rd, s, e).projects)
  {
  }

  lemma NoneJoinedGrows(b: Boundary, s0: Store, states: seq<Store>, n: nat)
    requires |states| == n + 1 && NoneEverJoined(b, s0, states[..n]) && NoneJoined(b, s0, states[n])
    ensures NoneEverJoined(b, s0, states)
  {
    assert states == states[..n] + [states[n]];
  }

  lemma StepLetsNoneJoin(az: Authorizer, b: Boundary, s0: Store, history: seq<Store>, a: Action, s': Store)
    requires AllSafe(b, s0, history) && NoneEverJoined(b, s0, history) && Step(az, history, a, s')
    ensures NoneJoined(b, s0, s')
  {
    var s := history[|history| - 1];
    if a.event.ReconcileProject? {
      ProjectReconcileLetsNoneJoin(b, s0, history, a.rd, a.event.name, a.event.freshUid);
    } else {
      assert NoneJoined(b, s0, s);
      OtherEventsKeepNamespaces(az, a.rd, s, a.event);
    }
  }

  /** In every state of every permitted run, only namespaces that were inside at the start are labelled inside. */
  lemma {:induction false} NoNamespaceJoins(az: Authorizer, b: Boundary, states: seq<Store>, actions: seq<Action>)
    requires Run(az, states, actions) && Start(az, b, states[0]) && ProjectsNamed(states[0].projects)
    requires forall i :: 0 <= i < |actions| ==> Permitted(b, states[i], actions[i].event)
    ensures NoneEverJoined(b, states[0], states)
    decreases |actions|
  {
    var n := |actions|;
    if n == 0 {
      assert states == [states[0]];
    } else {
      RunPrefix(az, states, actions, n - 1);
      NoNamespaceJoins(az, b, states[..n], actions[..n - 1]);
      RunsAreSafe(az, b, states[..n], actions[..n - 1]);
      assert StepAt(az, states, actions, n - 1);
      StepLetsNoneJoin(az, b, states[0], states[..n], actions[n - 1], states[n]);
      NoneJoinedGrows(b, states[0], states, n);
    }
  }

  /**
    So the users cannot bring traffic in: whatever namespace of whatever state of the run it comes
    from, what the `tenant` preset of an inside organization permits comes from a namespace that was
    inside at the start.
   */
  lemma TenantIngressIsConfined(az: Authorizer, b: Boundary, states: seq<Store>, actions: seq<Action>, i: nat,
                                m: NP.Policies, ns: NP.NamespaceRef, x: string, t: NP.Traffic)
    requires Run(az, states, actions) && Start(az, b, states[0]) && ProjectsNamed(states[0].projects)
    requires forall j :: 0 <= j < |actions| ==> Permitted(b, states[j], actions[j].event)
    requires i < |states| && x in b.orgs && NP.OnlyManaged(m, ns)
    requires t.sourceNamespace in states[i].namespaces
    requires t.sourceNamespaceLabels == states[i].namespaces[t.sourceNamespace].labels
    ensures NP.Permits(NP.Target(m, ns, NP.DesiredPolicies(x, "tenant")), ns.name, t) ==>
              InsideFromStart(b, states[0], t.sourceNamespace)
  {
    NoNamespaceJoins(az, b, states, actions);
    assert states[i] in states && NoneJoined(b, states[0], states[i]);
    NP.TenantOnly(m, ns, x, "tenant", t);
  }
}
