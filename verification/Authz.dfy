/** Who may act on an organization: the hierarchical authorizer shared by the four webhooks. */
module Authz {
  import opened Objects
  import opened Hierarchy

  const MAX_ANCESTOR_WALK := 3

  datatype Authorizer = Authorizer(operatorNamespace: string, clusterAdminGroups: seq<string>)

  datatype Answer = Yes | No | Error

  // ---------------------------------------------------------------- identities

  function ServiceAccountName(namespace: string, name: string): string {
    "system:serviceaccount:" + namespace + ":" + name
  }

  predicate SubjectMatches(s: Subject, u: UserInfo) {
    match s.kind
    case "User" => s.name == u.username
    case "Group" => s.name in u.groups
    case "ServiceAccount" => u.username == ServiceAccountName(s.namespace, s.name)
    case _ => false
  }

  predicate AnyMatches(subjects: seq<Subject>, u: UserInfo) {
    exists i :: 0 <= i < |subjects| && SubjectMatches(subjects[i], u)
  }

  predicate Trusted(az: Authorizer, u: UserInfo) {
    exists i :: 0 <= i < |u.groups|
             && (u.groups[i] == "system:serviceaccounts:" + az.operatorNamespace
                 || u.groups[i] in az.clusterAdminGroups)
  }

  method IsTrusted(az: Authorizer, u: UserInfo) returns (trusted: bool)
    ensures trusted == Trusted(az, u)
  {
    var operatorGroup := "system:serviceaccounts:" + az.operatorNamespace;
    for i := 0 to |u.groups|
      invariant forall j :: 0 <= j < i ==> u.groups[j] != operatorGroup && u.groups[j] !in az.clusterAdminGroups
    {
      if u.groups[i] == operatorGroup { return true; }
      if u.groups[i] in az.clusterAdminGroups { return true; }
    }
    return false;
  }

  /** Exactly the operator's own service accounts and the configured cluster admins are trusted. */
  lemma TrustedExactly(az: Authorizer, u: UserInfo)
    ensures Trusted(az, u) <==>
            || "system:serviceaccounts:" + az.operatorNamespace in u.groups
            || exists g :: g in u.groups && g in az.clusterAdminGroups
  {
    if g :| g in u.groups && (g == "system:serviceaccounts:" + az.operatorNamespace || g in az.clusterAdminGroups) {
      var i :| 0 <= i < |u.groups| && u.groups[i] == g;
    }
  }

  /** Namespace and name of a service account contain no colon. */
  predicate ColonFree(s: string) { ':' !in s }

  /** The encoded username determines both parts, against subjects holding any strings at all. */
  lemma ServiceAccountEncodingExact(namespace: string, name: string, s: Subject)
    requires ColonFree(namespace) && ColonFree(name)
    ensures ServiceAccountName(s.namespace, s.name) == ServiceAccountName(namespace, name)
        <==> s.namespace == namespace && s.name == name
  {
    if ServiceAccountName(s.namespace, s.name) == ServiceAccountName(namespace, name) {
      var p := "system:serviceaccount:";
      var left := s.namespace + ":" + s.name;
      var right := namespace + ":" + name;
      assert ServiceAccountName(s.namespace, s.name) == p + left;
      assert ServiceAccountName(namespace, name) == p + right;
      assert left == (p + left)[|p|..] && right == (p + right)[|p|..];
      assert right[|s.namespace|] == ':';
      assert right[|namespace|] == ':';
      assert forall i :: 0 <= i < |right| && right[i] == ':' ==> i == |namespace|;
      assert s.namespace == left[..|namespace|] == namespace;
      assert s.name == left[|namespace| + 1..] == name;
    }
  }

  /** A subject names this service account directly, by one of its groups, or by its full username. */
  predicate Names(s: Subject, namespace: string, name: string, u: UserInfo) {
    || (s.kind == "ServiceAccount" && s.namespace == namespace && s.name == name)
    || (s.kind == "Group" && s.name in u.groups)
    || (s.kind == "User" && s.name == u.username)
  }

  // ---------------------------------------------------------------- authority over one organization

  function SelfAdminAnswer(rd: Reader, u: UserInfo, organization: string): Answer {
    match rd.GetProfile(organization)
    case Failed => Error
    case NotFound => No
    case Found(p) => if AnyMatches(p.spec.AdminList(), u) then Yes else No
  }

  /** The answer from the stored profile alone: who counts as listed, for every kind of subject and every requester. */
  lemma SelfAdminExactly(rd: Reader, u: UserInfo, organization: string)
    ensures SelfAdminAnswer(rd, u, organization) == Error <==> ProfileKey(organization) in rd.failing
    ensures SelfAdminAnswer(rd, u, organization) == Yes <==>
            && ProfileKey(organization) !in rd.failing
            && organization in rd.profiles && rd.profiles[organization].spec.admins.Some?
            && exists s :: s in rd.profiles[organization].spec.admins.value &&
                 match s.kind
                 case "User" => u.username == s.name
                 case "Group" => s.name in u.groups
                 case "ServiceAccount" => u.username == "system:serviceaccount:" + s.namespace + ":" + s.name
                 case _ => false
  {
    if organization in rd.profiles && rd.profiles[organization].spec.admins.Some? {
      var admins := rd.profiles[organization].spec.AdminList();
      assert forall i :: 0 <= i < |admins| ==> admins[i] in admins;
      forall s | s in admins && SubjectMatches(s, u) ensures AnyMatches(admins, u) {
        var i :| 0 <= i < |admins| && admins[i] == s;
      }
    }
  }

  /** What an admin list means for a service account, with no encoded string left in it. */
  lemma ServiceAccountAdmins(rd: Reader, organization: string, profile: Profile, namespace: string, name: string,
                             u: UserInfo)
    requires ColonFree(namespace) && ColonFree(name) && u.username == ServiceAccountName(namespace, name)
    requires rd.GetProfile(organization) == Found(profile)
    ensures SelfAdminAnswer(rd, u, organization) == Yes <==>
            exists i :: 0 <= i < |profile.spec.AdminList()| && Names(profile.spec.AdminList()[i], namespace, name, u)
  {
    var admins := profile.spec.AdminList();
    forall i | 0 <= i < |admins|
      ensures SubjectMatches(admins[i], u) <==> Names(admins[i], namespace, name, u)
    {
      ServiceAccountEncodingExact(namespace, name, admins[i]);
    }
  }

  method SelfAdmin(rd: Reader, u: UserInfo, organization: string) returns (answer: Answer)
    ensures answer == SelfAdminAnswer(rd, u, organization)
  {
    match rd.GetProfile(organization)
    case Failed => return Error;
    case NotFound => return No;
    case Found(p) =>
      var admins := p.spec.AdminList();
      for i := 0 to |admins|
        invariant forall j :: 0 <= j < i ==> !SubjectMatches(admins[j], u)
      {
        if SubjectMatches(admins[i], u) { return Yes; }
      }
      return No;
  }

  function AncestorAnswer(rd: Reader, u: UserInfo, organization: string, steps: nat): Answer
    decreases steps
  {
    if steps == 0 || organization == "" then No
    else match SelfAdminAnswer(rd, u, organization)
      case Error => Error
      case Yes => Yes
      case No =>
        match rd.GetOrganization(organization)
        case Failed => Error
        case NotFound => No
        case Found(o) => AncestorAnswer(rd, u, o.parent, steps - 1)
  }

  method AncestorAdmin(rd: Reader, u: UserInfo, organization: string) returns (answer: Answer)
    ensures answer == AncestorAnswer(rd, u, organization, MAX_ANCESTOR_WALK)
  {
    var cur := organization;
    for i := 0 to MAX_ANCESTOR_WALK
      invariant AncestorAnswer(rd, u, organization, MAX_ANCESTOR_WALK)
             == AncestorAnswer(rd, u, cur, MAX_ANCESTOR_WALK - i)
    {
      if cur == "" { return No; }
      var self := SelfAdmin(rd, u, cur);
      if self == Error { return Error; }
      if self == Yes { return Yes; }
      match rd.GetOrganization(cur)
      case Failed => return Error;
      case NotFound => return No;
      case Found(o) => cur := o.parent;
    }
    return No;
  }

  // ---------------------------------------------------------------- unbounded inheritance

  /** u is listed on the profile of the organization x itself. */
  predicate AdminAt(rd: Reader, u: UserInfo, x: string) {
    x != "" && x in rd.profiles && AnyMatches(rd.profiles[x].spec.AdminList(), u)
  }

  /** u is listed on x or on any ancestor of x, however far up. */
  ghost predicate Inherits(rd: Reader, u: UserInfo, x: string) {
    exists k: nat :: AdminAt(rd, u, AncestorAt(rd.orgs, x, k))
  }

  /** The same, looking at the first `steps` names only. */
  ghost predicate InheritsWithin(rd: Reader, u: UserInfo, x: string, steps: nat) {
    exists k: nat :: k < steps && AdminAt(rd, u, AncestorAt(rd.orgs, x, k))
  }

  /** No read fails on the way to the k-th name, its profile included. */
  ghost predicate WalkReads(rd: Reader, x: string, k: nat) {
    forall j: nat :: j <= k ==>
      && ProfileKey(AncestorAt(rd.orgs, x, j)) !in rd.failing
      && (j < k ==> OrganizationKey(AncestorAt(rd.orgs, x, j)) !in rd.failing)
  }

  lemma WalkReadsFromParent(rd: Reader, x: string, k: nat)
    requires k > 0
    ensures WalkReads(rd, x, k) <==>
            && ProfileKey(x) !in rd.failing && OrganizationKey(x) !in rd.failing
            && WalkReads(rd, Parent(rd.orgs, x), k - 1)
  {
    var parent := Parent(rd.orgs, x);
    assert AncestorAt(rd.orgs, x, 0) == x;
    forall j: nat ensures AncestorAt(rd.orgs, x, j + 1) == AncestorAt(rd.orgs, parent, j) {}
    if WalkReads(rd, x, k) {
      forall j: nat | j <= k - 1
        ensures ProfileKey(AncestorAt(rd.orgs, parent, j)) !in rd.failing
        ensures j < k - 1 ==> OrganizationKey(AncestorAt(rd.orgs, parent, j)) !in rd.failing
      {
        assert ProfileKey(AncestorAt(rd.orgs, x, j + 1)) !in rd.failing;
      }
    }
    if WalkReads(rd, parent, k - 1) && ProfileKey(x) !in rd.failing && OrganizationKey(x) !in rd.failing {
      forall j: nat | j <= k
        ensures ProfileKey(AncestorAt(rd.orgs, x, j)) !in rd.failing
        ensures j < k ==> OrganizationKey(AncestorAt(rd.orgs, x, j)) !in rd.failing
      {
        if j > 0 { assert ProfileKey(AncestorAt(rd.orgs, parent, j - 1)) !in rd.failing; }
      }
    }
  }

  /** Authority granted by the walk is real inherited authority, whatever reads fail elsewhere. */
  lemma {:induction false} WalkGrantsOnlyInherited(rd: Reader, u: UserInfo, x: string, steps: nat) returns (k: nat)
    requires AncestorAnswer(rd, u, x, steps) == Yes
    ensures k < steps && AdminAt(rd, u, AncestorAt(rd.orgs, x, k)) && WalkReads(rd, x, k)
    decreases steps
  {
    if SelfAdminAnswer(rd, u, x) == Yes {
      k := 0;
    } else {
      k := WalkGrantsOnlyInherited(rd, u, rd.orgs[x].parent, steps - 1);
      k := k + 1;
      WalkReadsFromParent(rd, x, k);
    }
  }

  /** An admin k links up is found when k is within the bound and the walk can read that far. */
  lemma {:induction false} WalkFindsAncestor(rd: Reader, u: UserInfo, x: string, steps: nat, k: nat)
    requires k < steps && AdminAt(rd, u, AncestorAt(rd.orgs, x, k)) && WalkReads(rd, x, k)
    ensures AncestorAnswer(rd, u, x, steps) == Yes
    decreases steps
  {
    if x == "" { NothingAboveTheEnd(rd.orgs, k); }
    assert ProfileKey(AncestorAt(rd.orgs, x, 0)) !in rd.failing;
    if k > 0 {
      if x !in rd.orgs { NothingAboveTheEnd(rd.orgs, k - 1); }
      WalkReadsFromParent(rd, x, k);
      WalkFindsAncestor(rd, u, Parent(rd.orgs, x), steps - 1, k - 1);
    }
  }

  /** Under any failing reads: yes exactly when one of the first three names lists u and the walk can read up to it. */
  lemma AncestorAdminExactly(rd: Reader, u: UserInfo, x: string)
    ensures AncestorAnswer(rd, u, x, MAX_ANCESTOR_WALK) == Yes <==>
            exists k: nat :: k < 3 && AdminAt(rd, u, AncestorAt(rd.orgs, x, k)) && WalkReads(rd, x, k)
  {
    if AncestorAnswer(rd, u, x, MAX_ANCESTOR_WALK) == Yes {
      var k := WalkGrantsOnlyInherited(rd, u, x, MAX_ANCESTOR_WALK);
    }
    if k: nat :| k < 3 && AdminAt(rd, u, AncestorAt(rd.orgs, x, k)) && WalkReads(rd, x, k) {
      WalkFindsAncestor(rd, u, x, MAX_ANCESTOR_WALK, k);
    }
  }

  lemma {:induction false} NoFaultNoError(rd: Reader, u: UserInfo, x: string, steps: nat)
    requires rd.failing == {}
    ensures AncestorAnswer(rd, u, x, steps) != Error
    decreases steps
  {
    if steps > 0 && x in rd.orgs { NoFaultNoError(rd, u, rd.orgs[x].parent, steps - 1); }
  }

  /** Without read failures the bounded walk is exactly the three-name truncation of inheritance. */
  lemma BoundedWalkIsTruncation(rd: Reader, u: UserInfo, x: string)
    requires rd.failing == {}
    ensures AncestorAnswer(rd, u, x, MAX_ANCESTOR_WALK)
         == if InheritsWithin(rd, u, x, MAX_ANCESTOR_WALK) then Yes else No
  {
    NoFaultNoError(rd, u, x, MAX_ANCESTOR_WALK);
    if AncestorAnswer(rd, u, x, MAX_ANCESTOR_WALK) == Yes {
      var k := WalkGrantsOnlyInherited(rd, u, x, MAX_ANCESTOR_WALK);
    }
    if k: nat :| k < MAX_ANCESTOR_WALK && AdminAt(rd, u, AncestorAt(rd.orgs, x, k)) {
      WalkFindsAncestor(rd, u, x, MAX_ANCESTOR_WALK, k);
    }
  }

  /** Where the root controller resolves an organization, the bound loses nothing. */
  lemma BoundedWalkRefinesInheritance(rd: Reader, u: UserInfo, x: string)
    requires WellNamed(rd.orgs) && x in rd.orgs && rd.failing == {}
    requires RootWalk(rd, rd.orgs[x], MAX_HIERARCHY_DEPTH).Root?
    ensures AncestorAnswer(rd, u, x, MAX_ANCESTOR_WALK) == if Inherits(rd, u, x) then Yes else No
  {
    FourthLevelIsRefused(rd, x);
    BoundedWalkIsTruncation(rd, u, x);
    forall k: nat | k >= MAX_ANCESTOR_WALK ensures AncestorAt(rd.orgs, x, k) == "" {
      EndedStaysEnded(rd.orgs, x, MAX_HIERARCHY_DEPTH, k);
    }
  }

  /** Every name on the chain of x occurs among its first three. */
  ghost predicate ThreeNamesCover(orgs: map<string, Organization>, x: string) {
    var fourth := AncestorAt(orgs, x, 3);
    fourth == "" || fourth == x || fourth == AncestorAt(orgs, x, 1) || fourth == AncestorAt(orgs, x, 2)
  }

  lemma {:induction false} CoveredChain(orgs: map<string, Organization>, x: string, k: nat) returns (j: nat)
    requires ThreeNamesCover(orgs, x) && AncestorAt(orgs, x, k) != ""
    ensures j < 3 && AncestorAt(orgs, x, j) == AncestorAt(orgs, x, k)
    decreases k
  {
    if k < 3 {
      j := k;
    } else {
      if AncestorAt(orgs, x, k - 1) == "" { EndedStaysEnded(orgs, x, k - 1, k); }
      j := CoveredChain(orgs, x, k - 1);
      AncestorAdd(orgs, x, k - 1, 1);
      AncestorAdd(orgs, x, j, 1);
      assert AncestorAt(orgs, x, j + 1) == AncestorAt(orgs, x, k);
      j := j + 1;
      if j == 3 {
        if AncestorAt(orgs, x, 3) == x { j := 0; }
        else if AncestorAt(orgs, x, 3) == AncestorAt(orgs, x, 1) { j := 1; }
        else { j := 2; }
      }
    }
  }

  ghost predicate WalkAgrees(orgs: map<string, Organization>, x: string, profiles: map<string, Profile>, u: UserInfo) {
    var rd := Reader(orgs, profiles, map[], map[], {});
    AncestorAnswer(rd, u, x, MAX_ANCESTOR_WALK) == Yes <==> Inherits(rd, u, x)
  }

  /**
    The exact shape of hierarchy for which the bounded walk equals unbounded inheritance,
    for every requester and every assignment of admins.
   */
  lemma BoundIsHarmlessExactly(orgs: map<string, Organization>, x: string)
    ensures (forall profiles, u :: WalkAgrees(orgs, x, profiles, u)) <==> ThreeNamesCover(orgs, x)
  {
    if ThreeNamesCover(orgs, x) {
      forall profiles, u ensures WalkAgrees(orgs, x, profiles, u) {
        var rd := Reader(orgs, profiles, map[], map[], {});
        BoundedWalkIsTruncation(rd, u, x);
        if k: nat :| AdminAt(rd, u, AncestorAt(orgs, x, k)) {
          var j := CoveredChain(orgs, x, k);
          assert AdminAt(rd, u, AncestorAt(orgs, x, j));
        }
      }
    } else {
      var fourth := AncestorAt(orgs, x, 3);
      var u := UserInfo("admin", []);
      var spec := ProfileSpec(fourth, Some([Subject("User", "admin", "")]), "tenant", 0, None);
      var profiles := map[fourth := Profile(fourth, map[], None, spec)];
      var rd := Reader(orgs, profiles, map[], map[], {});
      assert SubjectMatches(spec.AdminList()[0], u);
      assert AdminAt(rd, u, AncestorAt(orgs, x, 3));
      BoundedWalkIsTruncation(rd, u, x);
      forall k: nat | k < MAX_ANCESTOR_WALK ensures !AdminAt(rd, u, AncestorAt(orgs, x, k)) {
        assert k == 0 || k == 1 || k == 2;
      }
      assert !WalkAgrees(orgs, x, profiles, u);
    }
  }
}
