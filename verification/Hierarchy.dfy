/** The parent relation between organizations and the bounded walk to the root. */
module Hierarchy {
  import opened Objects

  const MAX_HIERARCHY_DEPTH := 3

  /** The parent link of a name, and "" where the chain ends: at a root or at a missing organization. */
  function Parent(orgs: map<string, Organization>, x: string): string {
    if x != "" && x in orgs then orgs[x].parent else ""
  }

  /** The name k parent links above x, with no bound on k. */
  function AncestorAt(orgs: map<string, Organization>, x: string, k: nat): string
    decreases k
  {
    if k == 0 then x else AncestorAt(orgs, Parent(orgs, x), k - 1)
  }

  lemma {:induction false} AncestorAdd(orgs: map<string, Organization>, x: string, i: nat, j: nat)
    ensures AncestorAt(orgs, x, i + j) == AncestorAt(orgs, AncestorAt(orgs, x, i), j)
    decreases i
  {
    if i > 0 { AncestorAdd(orgs, Parent(orgs, x), i - 1, j); }
  }

  lemma {:induction false} NothingAboveTheEnd(orgs: map<string, Organization>, k: nat)
    ensures AncestorAt(orgs, "", k) == ""
  {
    if k > 0 { NothingAboveTheEnd(orgs, k - 1); }
  }

  lemma EndedStaysEnded(orgs: map<string, Organization>, x: string, i: nat, k: nat)
    requires i <= k && AncestorAt(orgs, x, i) == ""
    ensures AncestorAt(orgs, x, k) == ""
  {
    AncestorAdd(orgs, x, i, k - i);
    NothingAboveTheEnd(orgs, k - i);
  }

  /** A parentless stored organization lies exactly k existing parent links above x. */
  ghost predicate TopAt(orgs: map<string, Organization>, x: string, k: nat) {
    var top := AncestorAt(orgs, x, k);
    top in orgs && orgs[top].parent == ""
  }

  datatype Walk = Root(name: string) | TooDeep | Unreadable

  function RootWalk(rd: Reader, cur: Organization, steps: nat): Walk
    decreases steps
  {
    if steps == 0 then TooDeep
    else if cur.parent == "" then Root(cur.name)
    else match rd.GetOrganization(cur.parent)
      case Found(parent) => RootWalk(rd, parent, steps - 1)
      case _ => Unreadable
  }

  /** The controller's loop. */
  method ComputeRootWalk(rd: Reader, organization: Organization) returns (walk: Walk)
    ensures walk == RootWalk(rd, organization, MAX_HIERARCHY_DEPTH)
  {
    var cur := organization;
    for i := 0 to MAX_HIERARCHY_DEPTH
      invariant RootWalk(rd, organization, MAX_HIERARCHY_DEPTH) == RootWalk(rd, cur, MAX_HIERARCHY_DEPTH - i)
    {
      if cur.parent == "" { return Root(cur.name); }
      match rd.GetOrganization(cur.parent)
      case Found(parent) => cur := parent;
      case _ => return Unreadable;
    }
    return TooDeep;
  }

  /** None of the k reads that lead to the k-th ancestor fails. */
  ghost predicate ReadableUpTo(rd: Reader, x: string, k: nat) {
    forall j: nat :: 1 <= j <= k ==> OrganizationKey(AncestorAt(rd.orgs, x, j)) !in rd.failing
  }

  lemma ReadableFromParent(rd: Reader, x: string, k: nat)
    requires x != "" && x in rd.orgs && k > 0
    ensures ReadableUpTo(rd, x, k) <==>
            OrganizationKey(rd.orgs[x].parent) !in rd.failing && ReadableUpTo(rd, rd.orgs[x].parent, k - 1)
  {
    var parent := rd.orgs[x].parent;
    assert AncestorAt(rd.orgs, x, 1) == AncestorAt(rd.orgs, parent, 0) == parent;
    forall j: nat ensures AncestorAt(rd.orgs, x, j + 1) == AncestorAt(rd.orgs, parent, j) {}
    if ReadableUpTo(rd, x, k) {
      forall j: nat | 1 <= j <= k - 1 ensures OrganizationKey(AncestorAt(rd.orgs, parent, j)) !in rd.failing {
        assert OrganizationKey(AncestorAt(rd.orgs, x, j + 1)) !in rd.failing;
      }
    }
    if OrganizationKey(parent) !in rd.failing && ReadableUpTo(rd, parent, k - 1) {
      forall j: nat | 1 <= j <= k ensures OrganizationKey(AncestorAt(rd.orgs, x, j)) !in rd.failing {
        if j > 1 { assert OrganizationKey(AncestorAt(rd.orgs, parent, j - 1)) !in rd.failing; }
      }
    }
  }

  /** Whatever reads fail, a root that the walk reports is the top of the unbounded chain. */
  lemma {:induction false} WalkIsSound(rd: Reader, x: string, steps: nat) returns (k: nat)
    requires WellNamed(rd.orgs) && x in rd.orgs
    requires RootWalk(rd, rd.orgs[x], steps).Root?
    ensures k < steps && TopAt(rd.orgs, x, k) && ReadableUpTo(rd, x, k)
    ensures RootWalk(rd, rd.orgs[x], steps).name == AncestorAt(rd.orgs, x, k)
    decreases steps
  {
    if rd.orgs[x].parent == "" {
      k := 0;
    } else {
      k := WalkIsSound(rd, rd.orgs[x].parent, steps - 1);
      k := k + 1;
      ReadableFromParent(rd, x, k);
    }
  }

  lemma {:induction false} WalkIsComplete(rd: Reader, x: string, steps: nat, k: nat)
    requires WellNamed(rd.orgs) && x in rd.orgs
    requires k < steps && TopAt(rd.orgs, x, k) && ReadableUpTo(rd, x, k)
    ensures RootWalk(rd, rd.orgs[x], steps) == Root(AncestorAt(rd.orgs, x, k))
    decreases steps
  {
    if rd.orgs[x].parent == "" {
      if k > 0 { NothingAboveTheEnd(rd.orgs, k - 1); }
    } else {
      if rd.orgs[x].parent !in rd.orgs {
        if k > 1 { NothingAboveTheEnd(rd.orgs, k - 2); }
      } else {
        ReadableFromParent(rd, x, k);
        WalkIsComplete(rd, rd.orgs[x].parent, steps - 1, k - 1);
      }
    }
  }

  /**
    The walk succeeds exactly when a parentless organization lies within two existing parent links
    and no read on the way there fails.
   */
  lemma RootWalkExact(rd: Reader, x: string)
    requires WellNamed(rd.orgs) && x in rd.orgs
    ensures RootWalk(rd, rd.orgs[x], MAX_HIERARCHY_DEPTH).Root?
        <==> exists k: nat :: k <= 2 && TopAt(rd.orgs, x, k) && ReadableUpTo(rd, x, k)
  {
    if RootWalk(rd, rd.orgs[x], MAX_HIERARCHY_DEPTH).Root? {
      var k := WalkIsSound(rd, x, MAX_HIERARCHY_DEPTH);
    }
    if k: nat :| k <= 2 && TopAt(rd.orgs, x, k) && ReadableUpTo(rd, x, k) {
      WalkIsComplete(rd, x, MAX_HIERARCHY_DEPTH, k);
    }
  }

  /** A stored organization that names a stored parent whose read does not fail. */
  ghost predicate Climbable(rd: Reader, x: string) {
    && x in rd.orgs && rd.orgs[x].parent != ""
    && rd.orgs[x].parent in rd.orgs && OrganizationKey(rd.orgs[x].parent) !in rd.failing
  }

  /** And it gives up for depth exactly when three parent links in a row can be read. */
  lemma TooDeepExactly(rd: Reader, x: string)
    requires WellNamed(rd.orgs) && x in rd.orgs
    ensures RootWalk(rd, rd.orgs[x], MAX_HIERARCHY_DEPTH) == TooDeep <==>
            && Climbable(rd, x) && Climbable(rd, AncestorAt(rd.orgs, x, 1))
            && Climbable(rd, AncestorAt(rd.orgs, x, 2))
  {
    var a, b := AncestorAt(rd.orgs, x, 1), AncestorAt(rd.orgs, x, 2);
    assert a == AncestorAt(rd.orgs, Parent(rd.orgs, x), 0);
    assert b == AncestorAt(rd.orgs, a, 1) == AncestorAt(rd.orgs, Parent(rd.orgs, a), 0);
    if Climbable(rd, x) && Climbable(rd, a) {
      assert RootWalk(rd, rd.orgs[x], 3) == RootWalk(rd, rd.orgs[a], 2) == RootWalk(rd, rd.orgs[b], 1);
    }
  }

  /** The top is unique, so a successful walk fixes the length of the chain. */
  lemma TopIsUnique(orgs: map<string, Organization>, x: string, j: nat, k: nat)
    requires WellNamed(orgs) && TopAt(orgs, x, j) && TopAt(orgs, x, k)
    ensures j == k
  {
    var lo, hi := if j < k then j else k, if j < k then k else j;
    if lo < hi {
      AncestorAdd(orgs, x, lo, 1);
      assert AncestorAt(orgs, x, lo + 1) == "";
      EndedStaysEnded(orgs, x, lo + 1, hi);
    }
  }

  /** An organization whose chain repeats a name has no top at any distance. */
  lemma CyclesHaveNoTop(orgs: map<string, Organization>, x: string, i: nat, j: nat, k: nat)
    requires WellNamed(orgs) && i < j
    requires AncestorAt(orgs, x, i) == AncestorAt(orgs, x, j) != ""
    ensures !TopAt(orgs, x, k)
  {
    if TopAt(orgs, x, k) {
      AncestorAdd(orgs, x, k, 1);
      assert AncestorAt(orgs, x, k + 1) == "";
      if k < j { EndedStaysEnded(orgs, x, k + 1, j); }
      AncestorAdd(orgs, x, j, k + 1 - j);
      AncestorAdd(orgs, x, i, k + 1 - j);
      EndedStaysEnded(orgs, x, i + (k + 1 - j), k);
    }
  }

  /** A cycle in the parent links is always refused. */
  lemma CyclesAreRefused(rd: Reader, x: string, i: nat, j: nat)
    requires WellNamed(rd.orgs) && x in rd.orgs && i < j
    requires AncestorAt(rd.orgs, x, i) == AncestorAt(rd.orgs, x, j) != ""
    ensures !RootWalk(rd, rd.orgs[x], MAX_HIERARCHY_DEPTH).Root?
  {
    if RootWalk(rd, rd.orgs[x], MAX_HIERARCHY_DEPTH).Root? {
      var top := WalkIsSound(rd, x, MAX_HIERARCHY_DEPTH);
      CyclesHaveNoTop(rd.orgs, x, i, j, top);
    }
  }

  /** A chain that ends in a missing organization is always refused. */
  lemma DanglingParentsAreRefused(rd: Reader, x: string, k: nat)
    requires WellNamed(rd.orgs) && x in rd.orgs
    requires AncestorAt(rd.orgs, x, k) != "" && AncestorAt(rd.orgs, x, k) !in rd.orgs
    ensures !RootWalk(rd, rd.orgs[x], MAX_HIERARCHY_DEPTH).Root?
  {
    if RootWalk(rd, rd.orgs[x], MAX_HIERARCHY_DEPTH).Root? {
      var top := WalkIsSound(rd, x, MAX_HIERARCHY_DEPTH);
      var lower := if k < top then k else top;
      AncestorAdd(rd.orgs, x, lower, 1);
      assert AncestorAt(rd.orgs, x, lower + 1) == "";
      EndedStaysEnded(rd.orgs, x, lower + 1, if k < top then top else k);
    }
  }

  /** A fourth level is always refused, and a successful walk therefore bounds the whole chain. */
  lemma FourthLevelIsRefused(rd: Reader, x: string)
    requires WellNamed(rd.orgs) && x in rd.orgs
    requires RootWalk(rd, rd.orgs[x], MAX_HIERARCHY_DEPTH).Root?
    ensures AncestorAt(rd.orgs, x, MAX_HIERARCHY_DEPTH) == ""
  {
    var top := WalkIsSound(rd, x, MAX_HIERARCHY_DEPTH);
    AncestorAdd(rd.orgs, x, top, 1);
    assert AncestorAt(rd.orgs, x, top + 1) == "";
    EndedStaysEnded(rd.orgs, x, top + 1, MAX_HIERARCHY_DEPTH);
  }

  /** Growth of the hierarchy that keeps every existing parent link. */
  ghost predicate Extends(before: map<string, Organization>, after: map<string, Organization>) {
    forall n :: n in before ==> n in after && after[n].parent == before[n].parent
  }

  /** A resolved chain stays as it is while the hierarchy grows. */
  lemma {:induction false} ChainsAreStable(before: map<string, Organization>, after: map<string, Organization>,
                                           x: string, k: nat)
    requires WellNamed(before) && Extends(before, after) && TopAt(before, x, k)
    ensures TopAt(after, x, k) && AncestorAt(after, x, k) == AncestorAt(before, x, k)
    decreases k
  {
    if k > 0 {
      if x == "" || x !in before { NothingAboveTheEnd(before, k - 1); }
      ChainsAreStable(before, after, Parent(before, x), k - 1);
    }
  }
}
