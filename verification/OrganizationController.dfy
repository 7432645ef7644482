/** The organization controller: resolve the root, then ensure a restrictive profile. */
module OrganizationController {
  import opened Objects
  import opened Hierarchy
  import Authz
  import W = Webhooks

  datatype Outcome = Done | RootFailed | ReadFailed | CreateFailed

  function DefaultProfile(organization: Organization): Profile {
    Profile(organization.name,
            map[ORGANIZATION_LABEL := organization.name, ROOT_LABEL := organization.root],
            Some(organization.name),
            ProfileSpec(organization.name, None, "tenant", 0, None))
  }

  /** The default profile by value. */
  lemma DefaultProfileExactly(organization: Organization)
    ensures var p := DefaultProfile(organization);
            && p.name == organization.name && p.controller == Some(organization.name)
            && p.labels.Keys == {"organization.opendatahub.io/name", "organization.opendatahub.io/root"}
            && p.labels["organization.opendatahub.io/name"] == organization.name
            && p.labels["organization.opendatahub.io/root"] == organization.root
            && p.spec.organizationRef == organization.name && p.spec.admins == None
            && p.spec.networkIsolation == "tenant" && p.spec.maxProjects == 0 && p.spec.platform == None
  {
    assert ORGANIZATION_LABEL[28] != ROOT_LABEL[28];
  }

  /** The default profile is restrictive: it makes nobody an admin, and not even trusted requesters get projects. */
  lemma DefaultProfileIsRestrictive(az: Authz.Authorizer, rd: Reader, u: UserInfo, organization: Organization,
                                    project: Project)
    requires rd.GetProfile(organization.name) == Found(DefaultProfile(organization))
    requires project.spec.organizationRef == organization.name
    ensures Authz.SelfAdminAnswer(rd, u, organization.name) == Authz.No
    ensures W.CreateProject(az, rd, u, project) != W.Admit
  {
    assert DefaultProfile(organization).spec.AdminList() == [];
  }

  /** Status after the root action: kept as it was when the walk fails. */
  function WithRoot(rd: Reader, organization: Organization): Organization {
    match RootWalk(rd, organization, MAX_HIERARCHY_DEPTH)
    case Root(root) => organization.(root := root)
    case _ => organization
  }

  /** Stored profiles after the profile action; creating over an existing name fails. */
  function WithProfile(rd: Reader, profiles: map<string, Profile>, organization: Organization): map<string, Profile> {
    if rd.GetProfile(organization.name) == NotFound && organization.name !in profiles
    then profiles[organization.name := DefaultProfile(organization)]
    else profiles
  }

  /** A profile known to be missing is there afterwards, as the default one; every other name keeps what it had. */
  lemma WithProfileExactly(rd: Reader, profiles: map<string, Profile>, o: Organization)
    ensures var after := WithProfile(rd, profiles, o);
            && (rd.GetProfile(o.name) == NotFound && o.name !in profiles ==>
                  o.name in after && after[o.name] == DefaultProfile(o))
            && (forall n :: n in profiles ==> n in after && after[n] == profiles[n])
            && (forall n :: n in after && n !in profiles ==> n == o.name)
  {
  }

  /** The resolved root is the top of the parent chain; nothing else of the organization changes. */
  lemma WithRootExactly(rd: Reader, x: string) returns (k: nat)
    requires WellNamed(rd.orgs) && x in rd.orgs && RootWalk(rd, rd.orgs[x], MAX_HIERARCHY_DEPTH).Root?
    ensures k <= 2 && TopAt(rd.orgs, x, k)
    ensures var o := WithRoot(rd, rd.orgs[x]);
            o.root == AncestorAt(rd.orgs, x, k) && o.name == x && o.parent == rd.orgs[x].parent
  {
    k := WalkIsSound(rd, x, MAX_HIERARCHY_DEPTH);
  }

  /** One reconcile request: the instance it works on and the profiles it may write. */
  class Request {
    const rd: Reader
    /** Whether the create call fails for a reason of its own. */
    const createFails: bool
    var instance: Organization
    var profiles: map<string, Profile>

    constructor (rd: Reader, createFails: bool, instance: Organization, profiles: map<string, Profile>)
      ensures this.rd == rd && this.createFails == createFails
      ensures this.instance == instance && this.profiles == profiles
    {
      this.rd, this.createFails, this.instance, this.profiles := rd, createFails, instance, profiles;
    }

    method ComputeRoot() returns (outcome: Outcome)
      modifies this`instance
      ensures instance == WithRoot(rd, old(instance))
      ensures outcome == Done <==> RootWalk(rd, old(instance), MAX_HIERARCHY_DEPTH).Root?
      ensures outcome == Done ==> instance == old(instance).(root := RootWalk(rd, old(instance), 3).name)
      ensures outcome != Done ==> instance == old(instance)
      ensures outcome == Done || outcome == RootFailed
    {
      var walk := ComputeRootWalk(rd, instance);
      if !walk.Root? { return RootFailed; }
      if instance.root != walk.name { instance := instance.(root := walk.name); }
      return Done;
    }

    method EnsureProfile() returns (outcome: Outcome)
      modifies this`profiles
      ensures outcome == Done ==> profiles == WithProfile(rd, old(profiles), instance)
      ensures outcome == Done && rd.GetProfile(instance.name) == NotFound ==>
                instance.name !in old(profiles) && profiles == old(profiles)[instance.name := DefaultProfile(instance)]
      ensures outcome != Done || rd.GetProfile(instance.name).Found? ==> profiles == old(profiles)
      ensures outcome == Done <==> ProfileReachable(old(profiles), instance.name)
      ensures outcome == ReadFailed <==> rd.GetProfile(instance.name) == Failed
    {
      match rd.GetProfile(instance.name)
      case Found(_) => return Done;
      case Failed => return ReadFailed;
      case NotFound =>
        if createFails || instance.name in profiles { return CreateFailed; }
        profiles := profiles[instance.name := DefaultProfile(instance)];
        return Done;
    }

    /** The profile is there, or is known to be missing and can be created. */
    predicate ProfileReachable(stored: map<string, Profile>, name: string) {
      match rd.GetProfile(name)
      case Found(_) => true
      case Failed => false
      case NotFound => !createFails && name !in stored
    }

    /** The registered actions in order, stopping at the first error. */
    method Reconcile() returns (outcome: Outcome)
      modifies this`instance, this`profiles
      ensures instance == WithRoot(rd, old(instance))
      ensures outcome == Done ==> profiles == WithProfile(rd, old(profiles), instance)
      ensures outcome == Done && rd.GetProfile(instance.name) == NotFound ==>
                instance.name !in old(profiles) && profiles == old(profiles)[instance.name := DefaultProfile(instance)]
      ensures outcome != Done || rd.GetProfile(instance.name).Found? ==> profiles == old(profiles)
      ensures outcome == Done <==>
              RootWalk(rd, old(instance), MAX_HIERARCHY_DEPTH).Root? && ProfileReachable(old(profiles), instance.name)
      ensures outcome == Done ==> instance == old(instance).(root := RootWalk(rd, old(instance), 3).name)
      ensures !RootWalk(rd, old(instance), MAX_HIERARCHY_DEPTH).Root? ==> outcome == RootFailed
    {
      outcome := ComputeRoot();
      if outcome != Done { return; }
      outcome := EnsureProfile();
    }
  }
}
