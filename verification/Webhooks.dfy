/** The four validating webhooks: which creates, updates and deletes are admitted. */
module Webhooks {
  import opened Objects
  import opened Hierarchy
  import opened Authz

  datatype Reason =
    | NotAdmin | ReadError | ImmutableField | NameMismatch
    | NoProfile | QuotaReached
    | MissingReference | NoOrganization | NotRoot | Duplicate

  datatype Verdict = Admit | Deny(reason: Reason)

  function FromAnswer(answer: Answer): Verdict {
    match answer
    case Yes => Admit
    case No => Deny(NotAdmin)
    case Error => Deny(ReadError)
  }

  function RequireAncestorAdmin(az: Authorizer, rd: Reader, u: UserInfo, organization: string): Verdict {
    if Trusted(az, u) then Admit else FromAnswer(AncestorAnswer(rd, u, organization, MAX_ANCESTOR_WALK))
  }

  function RequireSelfAdmin(az: Authorizer, rd: Reader, u: UserInfo, organization: string): Verdict {
    if Trusted(az, u) then Admit else FromAnswer(SelfAdminAnswer(rd, u, organization))
  }

  // ---------------------------------------------------------------- Organization

  function CreateOrganization(az: Authorizer, rd: Reader, u: UserInfo, obj: Organization): Verdict {
    RequireAncestorAdmin(az, rd, u, obj.parent)
  }

  function UpdateOrganization(az: Authorizer, rd: Reader, u: UserInfo, old_: Organization, obj: Organization): Verdict {
    if old_.parent != obj.parent then Deny(ImmutableField)
    else RequireAncestorAdmin(az, rd, u, obj.name)
  }

  /** Only trusted requesters create roots: nobody can be admin of an empty parent. */
  lemma RootsNeedTrust(az: Authorizer, rd: Reader, u: UserInfo, obj: Organization)
    requires obj.parent == ""
    ensures CreateOrganization(az, rd, u, obj) == Admit <==> Trusted(az, u)
  {
    assert AncestorAnswer(rd, u, "", MAX_ANCESTOR_WALK) == No;
  }

  // ---------------------------------------------------------------- OrganizationProfile

  function CreateProfile(az: Authorizer, rd: Reader, u: UserInfo, obj: Profile): Verdict {
    if obj.name != obj.spec.organizationRef then Deny(NameMismatch)
    else RequireAncestorAdmin(az, rd, u, obj.spec.organizationRef)
  }

  function UpdateProfile(az: Authorizer, rd: Reader, u: UserInfo, old_: Profile, obj: Profile): Verdict {
    if old_.spec.organizationRef != obj.spec.organizationRef then Deny(ImmutableField)
    else if old_.spec.admins != obj.spec.admins then RequireAncestorAdmin(az, rd, u, obj.spec.organizationRef)
    else RequireSelfAdmin(az, rd, u, obj.spec.organizationRef)
  }

  /** A fault-free reader of a store that holds the profile, over an organization whose root is resolved. */
  ghost predicate ReadsStored(rd: Reader, profile: Profile) {
    var organization := profile.spec.organizationRef;
    && WellNamed(rd.orgs) && rd.failing == {}
    && organization in rd.profiles && rd.profiles[organization] == profile
    && organization in rd.orgs && RootWalk(rd, rd.orgs[organization], MAX_HIERARCHY_DEPTH).Root?
  }

  /** The documented rule: whoever changes a stored profile is one of its own admins (or trusted). */
  ghost predicate OnlySelfAdminsChange(az: Authorizer, old_: Profile, obj: Profile) {
    forall rd, u :: ReadsStored(rd, old_) && UpdateProfile(az, rd, u, old_, obj) == Admit && !Trusted(az, u)
                    ==> AdminAt(rd, u, obj.spec.organizationRef)
  }

  /** A username of x's only, which is not among the names the subjects carry. */
  lemma {:induction false} UnlistedUser(subjects: seq<Subject>) returns (u: UserInfo)
    ensures u.groups == [] && u.username != "" && u.username[0] == 'x' && !AnyMatches(subjects, u)
    ensures forall i :: 0 <= i < |subjects| ==> |subjects[i].name| < |u.username|
  {
    if subjects == [] {
      u := UserInfo("x", []);
    } else {
      var n := |subjects| - 1;
      var rest := UnlistedUser(subjects[..n]);
      var last := seq(|subjects[n].name|, _ => 'x');
      u := UserInfo(rest.username + last, []);
      forall i | 0 <= i < |subjects| ensures |subjects[i].name| < |u.username| && !SubjectMatches(subjects[i], u) {
        if i < n { assert subjects[..n][i] == subjects[i]; }
        assert u.username[0] != ServiceAccountName(subjects[i].namespace, subjects[i].name)[0];
      }
    }
  }

  /**
    Ancestors are meant not to inherit configuration rights. That rule holds of a change exactly
    when the change leaves the admin list alone: an ancestor admin may ride any other
    configuration change on an edit of the admins.
   */
  lemma ConfigurationRightsExact(az: Authorizer, old_: Profile, obj: Profile)
    requires obj.spec.organizationRef != "" && old_.spec.organizationRef == obj.spec.organizationRef
    ensures OnlySelfAdminsChange(az, old_, obj) <==> old_.spec.admins == obj.spec.admins
  {
    if old_.spec.admins != obj.spec.admins {
      var rd, u := AncestorAdminEditsProfile(az, old_, obj);
    }
  }

  /** The counterexample: an admin of the parent, stored as a root, who is not listed on the profile itself. */
  lemma AncestorAdminEditsProfile(az: Authorizer, old_: Profile, obj: Profile) returns (rd: Reader, u: UserInfo)
    requires obj.spec.organizationRef != "" && old_.spec.organizationRef == obj.spec.organizationRef
    requires old_.spec.admins != obj.spec.admins
    ensures ReadsStored(rd, old_) && UpdateProfile(az, rd, u, old_, obj) == Admit && !Trusted(az, u)
    ensures !AdminAt(rd, u, obj.spec.organizationRef)
  {
    var org := obj.spec.organizationRef;
    var above := org + "-parent";
    assert |above| == |org| + 7;
    u := UnlistedUser(old_.spec.AdminList());
    var spec := ProfileSpec(above, Some([Subject("User", u.username, "")]), "tenant", 0, None);
    rd := Reader(map[org := Organization(org, above, ""), above := Organization(above, "", "")],
                 map[org := old_, above := Profile(above, map[], None, spec)], map[], map[], {});
    assert RootWalk(rd, rd.orgs[org], MAX_HIERARCHY_DEPTH) == RootWalk(rd, rd.orgs[above], 2) == Root(above);
    assert SubjectMatches(spec.AdminList()[0], u);
    assert AdminAt(rd, u, AncestorAt(rd.orgs, org, 1)) by {
      assert AncestorAt(rd.orgs, org, 1) == AncestorAt(rd.orgs, above, 0);
    }
    WalkFindsAncestor(rd, u, org, MAX_ANCESTOR_WALK, 1);
  }

  // ---------------------------------------------------------------- OrganizationProject

  function ProjectsOf(projects: map<string, Project>, organization: string): set<string> {
    set n | n in projects && projects[n].spec.organizationRef == organization
  }

  function QuotaVerdict(rd: Reader, organization: string): Verdict {
    match rd.GetProfile(organization)
    case Failed => Deny(ReadError)
    case NotFound => Deny(NoProfile)
    case Found(profile) =>
      if ProjectListKey in rd.failing then Deny(ReadError)
      else if |ProjectsOf(rd.projects, organization)| >= profile.spec.maxProjects then Deny(QuotaReached)
      else Admit
  }

  /** A list call returns every stored object once, in an arbitrary order of their names. */
  ghost predicate Listing(order: seq<string>, stored: set<string>) {
    && (forall i, j :: 0 <= i < j < |order| ==> order[i] != order[j])
    && (forall n :: n in order <==> n in stored)
  }

  /** Increment of a 32-bit signed counter. */
  function Increment32(n: int): int {
    if n == 0x7fff_ffff then -0x8000_0000 else n + 1
  }

  /** What a 32-bit signed counter shows after n increments from zero. */
  function Counter32(n: nat): int {
    (n + 0x8000_0000) % 0x1_0000_0000 - 0x8000_0000
  }

  ghost function Matching(projects: map<string, Project>, order: seq<string>, i: nat, organization: string): set<string>
    requires i <= |order|
  {
    set n | n in order[..i] && n in ProjectsOf(projects, organization)
  }

  lemma MatchingGrows(projects: map<string, Project>, order: seq<string>, i: nat, organization: string)
    requires Listing(order, projects.Keys) && i < |order|
    ensures |Matching(projects, order, i + 1, organization)| == |Matching(projects, order, i, organization)|
              + if projects[order[i]].spec.organizationRef == organization then 1 else 0
  {
    var before, after := Matching(projects, order, i, organization), Matching(projects, order, i + 1, organization);
    assert order[..i + 1] == order[..i] + [order[i]];
    if projects[order[i]].spec.organizationRef == organization {
      assert after == before + {order[i]};
    } else {
      assert after == before;
    }
  }

  /** The webhook's counting loop. */
  method CountProjects(projects: map<string, Project>, order: seq<string>, organization: string) returns (count: int)
    requires Listing(order, projects.Keys)
    ensures count == Counter32(|ProjectsOf(projects, organization)|)
  {
    count := 0;
    for i := 0 to |order|
      invariant count == Counter32(|Matching(projects, order, i, organization)|)
    {
      MatchingGrows(projects, order, i, organization);
      if projects[order[i]].spec.organizationRef == organization { count := Increment32(count); }
    }
    assert order[..|order|] == order;
    assert Matching(projects, order, |order|, organization) == ProjectsOf(projects, organization);
  }

  /** The counter has wrapped around to below a limit that the projects have reached. */
  predicate Miscounted(rd: Reader, organization: string) {
    && rd.GetProfile(organization).Found? && ProjectListKey !in rd.failing
    && var n := |ProjectsOf(rd.projects, organization)|;
    Counter32(n) < rd.profiles[organization].spec.maxProjects <= n
  }

  /** The verdict is right exactly while the counter has not wrapped below the limit, which needs 2^31 projects. */
  method CheckProjectQuota(rd: Reader, order: seq<string>, organization: string) returns (v: Verdict)
    requires Listing(order, rd.projects.Keys)
    ensures v == QuotaVerdict(rd, organization) <==> !Miscounted(rd, organization)
    ensures Miscounted(rd, organization) ==> v == Admit && |ProjectsOf(rd.projects, organization)| >= 0x8000_0000
  {
    match rd.GetProfile(organization)
    case Failed => return Deny(ReadError);
    case NotFound => return Deny(NoProfile);
    case Found(profile) =>
      if ProjectListKey in rd.failing { return Deny(ReadError); }
      var count := CountProjects(rd.projects, order, organization);
      if count >= profile.spec.maxProjects { return Deny(QuotaReached); }
      return Admit;
  }

  function CreateProject(az: Authorizer, rd: Reader, u: UserInfo, obj: Project): Verdict {
    var authority := RequireAncestorAdmin(az, rd, u, obj.spec.organizationRef);
    if authority != Admit then authority else QuotaVerdict(rd, obj.spec.organizationRef)
  }

  function UpdateProject(az: Authorizer, rd: Reader, u: UserInfo, old_: Project, obj: Project): Verdict {
    if old_.spec.organizationRef != obj.spec.organizationRef then Deny(ImmutableField)
    else RequireAncestorAdmin(az, rd, u, obj.spec.organizationRef)
  }

  // ---------------------------------------------------------------- MaaSConfiguration

  predicate HasDuplicate(configurations: map<string, Configuration>, obj: Configuration) {
    exists n :: n in configurations && n != obj.name
             && configurations[n].spec.organizationRef == obj.spec.organizationRef
  }

  function ValidateConfiguration(az: Authorizer, rd: Reader, u: UserInfo, obj: Configuration): Verdict {
    var organization := obj.spec.organizationRef;
    if organization == "" then Deny(MissingReference)
    else if obj.name != organization then Deny(NameMismatch)
    else match rd.GetOrganization(organization)
      case Failed => Deny(ReadError)
      case NotFound => Deny(NoOrganization)
      case Found(o) =>
        if o.parent != "" then Deny(NotRoot)
        else if ConfigurationListKey in rd.failing then Deny(ReadError)
        else if HasDuplicate(rd.configurations, obj) then Deny(Duplicate)
        else RequireSelfAdmin(az, rd, u, organization)
  }

  /** The webhook's scan over the listed configurations. */
  method Validate(az: Authorizer, rd: Reader, u: UserInfo, order: seq<string>, obj: Configuration) returns (v: Verdict)
    requires Listing(order, rd.configurations.Keys)
    ensures v == ValidateConfiguration(az, rd, u, obj)
  {
    var organization := obj.spec.organizationRef;
    if organization == "" { return Deny(MissingReference); }
    if obj.name != organization { return Deny(NameMismatch); }
    match rd.GetOrganization(organization) {
      case Failed => return Deny(ReadError);
      case NotFound => return Deny(NoOrganization);
      case Found(o) => if o.parent != "" { return Deny(NotRoot); }
    }
    if ConfigurationListKey in rd.failing { return Deny(ReadError); }
    for i := 0 to |order|
      invariant forall n :: n in order[..i] ==>
                  n == obj.name || rd.configurations[n].spec.organizationRef != organization
    {
      if order[i] != obj.name && rd.configurations[order[i]].spec.organizationRef == organization {
        return Deny(Duplicate);
      }
    }
    var trusted := IsTrusted(az, u);
    if trusted { return Admit; }
    var answer := SelfAdmin(rd, u, organization);
    return FromAnswer(answer);
  }

  function UpdateConfiguration(az: Authorizer, rd: Reader, u: UserInfo, old_: Configuration,
                               obj: Configuration): Verdict {
    if old_.spec.organizationRef != obj.spec.organizationRef then Deny(ImmutableField)
    else ValidateConfiguration(az, rd, u, obj)
  }

  function DeleteConfiguration(az: Authorizer, rd: Reader, u: UserInfo, obj: Configuration): Verdict {
    RequireSelfAdmin(az, rd, u, obj.spec.organizationRef)
  }

  // ---------------------------------------------------------------- what admission means

  lemma AncestorAuthorityIsInherited(az: Authorizer, rd: Reader, u: UserInfo, x: string)
    requires RequireAncestorAdmin(az, rd, u, x) == Admit && !Trusted(az, u)
    ensures Inherits(rd, u, x)
  {
    var k := WalkGrantsOnlyInherited(rd, u, x, MAX_ANCESTOR_WALK);
  }

  /**
    Fail closed: whichever reads fail, an untrusted request on the hierarchy is admitted only with
    inherited authority.
   */
  lemma HierarchyRequestsNeedAuthority(az: Authorizer, rd: Reader, u: UserInfo, before: Organization, o: Organization,
                                       p: Profile)
    requires !Trusted(az, u)
    ensures CreateOrganization(az, rd, u, o) == Admit ==> Inherits(rd, u, o.parent)
    ensures UpdateOrganization(az, rd, u, before, o) == Admit ==> o.parent == before.parent && Inherits(rd, u, o.name)
    ensures CreateProfile(az, rd, u, p) == Admit ==> p.name == p.spec.organizationRef && Inherits(rd, u, p.name)
  {
    if CreateOrganization(az, rd, u, o) == Admit { AncestorAuthorityIsInherited(az, rd, u, o.parent); }
    if UpdateOrganization(az, rd, u, before, o) == Admit { AncestorAuthorityIsInherited(az, rd, u, o.name); }
    if CreateProfile(az, rd, u, p) == Admit { AncestorAuthorityIsInherited(az, rd, u, p.name); }
  }

  /** The same for profile updates and projects: references never change, and somebody up the chain is responsible. */
  lemma OwnedRequestsNeedAuthority(az: Authorizer, rd: Reader, u: UserInfo, p0: Profile, p: Profile, j0: Project,
                                   j: Project)
    requires !Trusted(az, u) && p.spec.organizationRef != ""
    ensures UpdateProfile(az, rd, u, p0, p) == Admit ==>
              p.spec.organizationRef == p0.spec.organizationRef && Inherits(rd, u, p.spec.organizationRef)
    ensures CreateProject(az, rd, u, j) == Admit ==> Inherits(rd, u, j.spec.organizationRef)
    ensures UpdateProject(az, rd, u, j0, j) == Admit ==>
              j.spec.organizationRef == j0.spec.organizationRef && Inherits(rd, u, j.spec.organizationRef)
  {
    if UpdateProfile(az, rd, u, p0, p) == Admit {
      if p0.spec.admins != p.spec.admins {
        AncestorAuthorityIsInherited(az, rd, u, p.spec.organizationRef);
      } else {
        assert AdminAt(rd, u, AncestorAt(rd.orgs, p.spec.organizationRef, 0));
      }
    }
    if CreateProject(az, rd, u, j) == Admit { AncestorAuthorityIsInherited(az, rd, u, j.spec.organizationRef); }
    if UpdateProject(az, rd, u, j0, j) == Admit { AncestorAuthorityIsInherited(az, rd, u, j.spec.organizationRef); }
  }

  /** Conversely, over a resolved organization and without read failures, inherited authority is enough. */
  lemma InheritedAuthorityIsEnough(az: Authorizer, rd: Reader, u: UserInfo, x: string,
                                   child: Organization, own0: Organization, own: Organization, j0: Project, j: Project)
    requires WellNamed(rd.orgs) && x in rd.orgs && rd.failing == {}
    requires RootWalk(rd, rd.orgs[x], MAX_HIERARCHY_DEPTH).Root? && Inherits(rd, u, x)
    requires child.parent == x && own.name == x && j.spec.organizationRef == x
    ensures CreateOrganization(az, rd, u, child) == Admit
    ensures UpdateOrganization(az, rd, u, own0, own) == Admit <==> own0.parent == own.parent
    ensures UpdateProject(az, rd, u, j0, j) == Admit <==> j0.spec.organizationRef == x
    ensures CreateProject(az, rd, u, j) == Admit <==>
              x in rd.profiles && |ProjectsOf(rd.projects, x)| < rd.profiles[x].spec.maxProjects
  {
    BoundedWalkRefinesInheritance(rd, u, x);
  }

  /** The same for profiles: ancestors create them and edit their admins; anything else needs a self admin. */
  lemma InheritedAuthorityOverProfiles(az: Authorizer, rd: Reader, u: UserInfo, x: string, p0: Profile, p: Profile)
    requires WellNamed(rd.orgs) && x in rd.orgs && rd.failing == {}
    requires RootWalk(rd, rd.orgs[x], MAX_HIERARCHY_DEPTH).Root? && Inherits(rd, u, x)
    requires p.spec.organizationRef == x
    ensures CreateProfile(az, rd, u, p) == Admit <==> p.name == x
    ensures UpdateProfile(az, rd, u, p0, p) == Admit <==>
              p0.spec.organizationRef == x && (p0.spec.admins != p.spec.admins || Trusted(az, u) || AdminAt(rd, u, x))
  {
    BoundedWalkRefinesInheritance(rd, u, x);
  }

  // ---------------------------------------------------------------- exact admission

  /** Trusted, or listed on one of the first three names from x upwards with every read up to there succeeding. */
  ghost predicate HasAuthority(az: Authorizer, rd: Reader, u: UserInfo, x: string) {
    Trusted(az, u) || exists k: nat :: k < 3 && AdminAt(rd, u, AncestorAt(rd.orgs, x, k)) && WalkReads(rd, x, k)
  }

  /** Trusted, or listed on the profile of x itself, which can be read. */
  predicate HasOwnAuthority(az: Authorizer, rd: Reader, u: UserInfo, x: string) {
    || Trusted(az, u)
    || (ProfileKey(x) !in rd.failing && x in rd.profiles && AnyMatches(rd.profiles[x].spec.AdminList(), u))
  }

  lemma AuthorityIsRequired(az: Authorizer, rd: Reader, u: UserInfo, x: string)
    ensures RequireAncestorAdmin(az, rd, u, x) == Admit <==> HasAuthority(az, rd, u, x)
    ensures RequireSelfAdmin(az, rd, u, x) == Admit <==> HasOwnAuthority(az, rd, u, x)
  {
    AncestorAdminExactly(rd, u, x);
  }

  /** Exactly which organization and profile requests are admitted, whichever reads fail. */
  lemma HierarchyAdmissionExact(az: Authorizer, rd: Reader, u: UserInfo,
                                o0: Organization, o: Organization, p0: Profile, p: Profile)
    ensures CreateOrganization(az, rd, u, o) == Admit <==> HasAuthority(az, rd, u, o.parent)
    ensures UpdateOrganization(az, rd, u, o0, o) == Admit <==> o0.parent == o.parent && HasAuthority(az, rd, u, o.name)
    ensures CreateProfile(az, rd, u, p) == Admit <==>
            p.name == p.spec.organizationRef && HasAuthority(az, rd, u, p.spec.organizationRef)
    ensures UpdateProfile(az, rd, u, p0, p) == Admit <==>
            && p0.spec.organizationRef == p.spec.organizationRef
            && if p0.spec.admins == p.spec.admins then HasOwnAuthority(az, rd, u, p.spec.organizationRef)
               else HasAuthority(az, rd, u, p.spec.organizationRef)
  {
    AuthorityIsRequired(az, rd, u, o.parent);
    AuthorityIsRequired(az, rd, u, o.name);
    AuthorityIsRequired(az, rd, u, p.spec.organizationRef);
  }

  /** Exactly which project requests are admitted, whichever reads fail. */
  lemma ProjectAdmissionExact(az: Authorizer, rd: Reader, u: UserInfo, j0: Project, j: Project)
    ensures var x := j.spec.organizationRef;
            var owned := set n | n in rd.projects && rd.projects[n].spec.organizationRef == x;
            CreateProject(az, rd, u, j) == Admit <==>
            && HasAuthority(az, rd, u, x)
            && ProfileKey(x) !in rd.failing && ProjectListKey !in rd.failing
            && x in rd.profiles && |owned| < rd.profiles[x].spec.maxProjects
    ensures UpdateProject(az, rd, u, j0, j) == Admit <==>
            j0.spec.organizationRef == j.spec.organizationRef && HasAuthority(az, rd, u, j.spec.organizationRef)
  {
    var x := j.spec.organizationRef;
    AuthorityIsRequired(az, rd, u, x);
    assert ProjectsOf(rd.projects, x) == set n | n in rd.projects && rd.projects[n].spec.organizationRef == x;
  }

  /** The configuration is named after a root that can be read, and in a readable listing no other one names it. */
  ghost predicate Configurable(rd: Reader, c: Configuration) {
    && c.name == c.spec.organizationRef != ""
    && OrganizationKey(c.name) !in rd.failing && ConfigurationListKey !in rd.failing
    && c.name in rd.orgs && rd.orgs[c.name].parent == ""
    && forall n :: n in rd.configurations && rd.configurations[n].spec.organizationRef == c.name ==> n == c.name
  }

  /** Exactly which configuration requests are admitted, whichever reads fail. */
  lemma ConfigurationAdmissionExact(az: Authorizer, rd: Reader, u: UserInfo, c0: Configuration, c: Configuration)
    ensures ValidateConfiguration(az, rd, u, c) == Admit <==> Configurable(rd, c) && HasOwnAuthority(az, rd, u, c.name)
    ensures UpdateConfiguration(az, rd, u, c0, c) == Admit <==>
            && c0.spec.organizationRef == c.spec.organizationRef
            && Configurable(rd, c) && HasOwnAuthority(az, rd, u, c.name)
    ensures DeleteConfiguration(az, rd, u, c) == Admit <==> HasOwnAuthority(az, rd, u, c.spec.organizationRef)
  {
    AuthorityIsRequired(az, rd, u, c.spec.organizationRef);
  }

  /** The same reads, none of them failing. */
  function Faultless(rd: Reader): Reader {
    rd.(failing := {})
  }

  lemma FaultsGrantNothing(az: Authorizer, rd: Reader, u: UserInfo, x: string)
    ensures RequireAncestorAdmin(az, rd, u, x) == Admit ==> RequireAncestorAdmin(az, Faultless(rd), u, x) == Admit
    ensures RequireSelfAdmin(az, rd, u, x) == Admit ==> RequireSelfAdmin(az, Faultless(rd), u, x) == Admit
  {
    AncestorAdminExactly(rd, u, x);
    AncestorAdminExactly(Faultless(rd), u, x);
    if k: nat :| k < 3 && AdminAt(rd, u, AncestorAt(rd.orgs, x, k)) {
      assert AdminAt(Faultless(rd), u, AncestorAt(rd.orgs, x, k)) && WalkReads(Faultless(rd), x, k);
    }
  }

  /** Failing reads only ever refuse: what is admitted under any of them is admitted without. */
  lemma FaultsOnlyRefuse(az: Authorizer, rd: Reader, u: UserInfo, o0: Organization, o: Organization,
                         p0: Profile, p: Profile, j0: Project, j: Project, c0: Configuration, c: Configuration)
    ensures CreateOrganization(az, rd, u, o) == Admit ==> CreateOrganization(az, Faultless(rd), u, o) == Admit
    ensures UpdateOrganization(az, rd, u, o0, o) == Admit ==> UpdateOrganization(az, Faultless(rd), u, o0, o) == Admit
    ensures CreateProfile(az, rd, u, p) == Admit ==> CreateProfile(az, Faultless(rd), u, p) == Admit
    ensures UpdateProfile(az, rd, u, p0, p) == Admit ==> UpdateProfile(az, Faultless(rd), u, p0, p) == Admit
    ensures CreateProject(az, rd, u, j) == Admit ==> CreateProject(az, Faultless(rd), u, j) == Admit
    ensures UpdateProject(az, rd, u, j0, j) == Admit ==> UpdateProject(az, Faultless(rd), u, j0, j) == Admit
    ensures ValidateConfiguration(az, rd, u, c) == Admit ==> ValidateConfiguration(az, Faultless(rd), u, c) == Admit
    ensures UpdateConfiguration(az, rd, u, c0, c) == Admit ==> UpdateConfiguration(az, Faultless(rd), u, c0, c) == Admit
    ensures DeleteConfiguration(az, rd, u, c) == Admit ==> DeleteConfiguration(az, Faultless(rd), u, c) == Admit
  {
    FaultsGrantNothing(az, rd, u, o.parent);
    FaultsGrantNothing(az, rd, u, o.name);
    FaultsGrantNothing(az, rd, u, p.spec.organizationRef);
    FaultsGrantNothing(az, rd, u, j.spec.organizationRef);
    FaultsGrantNothing(az, rd, u, c.spec.organizationRef);
  }
}
