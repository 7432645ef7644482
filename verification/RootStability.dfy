/** The resolved root of an organization is true, final, and what namespaces are labelled with. */
module RootStability {
  import opened Objects
  import opened Hierarchy
  import opened Authz
  import opened Operator

  /** r is the top of a chain of at most three organizations starting at x. */
  ghost predicate IsRootOf(orgs: map<string, Organization>, x: string, r: string) {
    exists k: nat :: k <= 2 && TopAt(orgs, x, k) && AncestorAt(orgs, x, k) == r
  }

  lemma RootIsUnique(orgs: map<string, Organization>, x: string, r: string, r': string)
    requires WellNamed(orgs) && IsRootOf(orgs, x, r) && IsRootOf(orgs, x, r')
    ensures r == r'
  {
    var j: nat :| j <= 2 && TopAt(orgs, x, j) && AncestorAt(orgs, x, j) == r;
    var k: nat :| k <= 2 && TopAt(orgs, x, k) && AncestorAt(orgs, x, k) == r';
    TopIsUnique(orgs, x, j, k);
  }

  lemma RootIsStable(before: map<string, Organization>, after: map<string, Organization>, x: string, r: string)
    requires WellNamed(before) && Extends(before, after) && IsRootOf(before, x, r)
    ensures IsRootOf(after, x, r)
  {
    var k: nat :| k <= 2 && TopAt(before, x, k) && AncestorAt(before, x, k) == r;
    ChainsAreStable(before, after, x, k);
  }

  ghost predicate RootsAreTrue(orgs: map<string, Organization>) {
    forall n :: n in orgs && orgs[n].root != "" ==> IsRootOf(orgs, n, orgs[n].root)
  }

  /** Namespaces the operator controls carry an organization and that organization's root. */
  ghost predicate LabelsAreTrue(orgs: map<string, Organization>, namespaces: map<string, Namespace>) {
    forall n :: n in namespaces && namespaces[n].controller.Some? ==>
      && ORGANIZATION_LABEL in namespaces[n].labels && ROOT_LABEL in namespaces[n].labels
      && IsRootOf(orgs, namespaces[n].labels[ORGANIZATION_LABEL], namespaces[n].labels[ROOT_LABEL])
  }

  ghost predicate Good(s: Store) {
    WellNamed(s.orgs) && RootsAreTrue(s.orgs) && LabelsAreTrue(s.orgs, s.namespaces)
  }

  /** Parents never change and resolved roots never change. */
  ghost predicate Behind(past: map<string, Organization>, orgs: map<string, Organization>) {
    Extends(past, orgs) && forall n :: n in past && past[n].root != "" ==> orgs[n].root == past[n].root
  }

  ghost predicate AllBehind(history: seq<Store>, s: Store) {
    forall t :: t in history ==> Behind(t.orgs, s.orgs) && WellNamed(t.orgs)
  }

  lemma ReaderIsBehind(history: seq<Store>, rd: Reader, s: Store)
    requires AllBehind(history, s) && Observes(rd, history)
    ensures Behind(rd.orgs, s.orgs) && WellNamed(rd.orgs)
  {
    forall n | n in rd.orgs
      ensures n in s.orgs && s.orgs[n].parent == rd.orgs[n].parent && n != "" && rd.orgs[n].name == n
      ensures rd.orgs[n].root != "" ==> s.orgs[n].root == rd.orgs[n].root
    {
      var t :| t in history && n in t.orgs && t.orgs[n] == rd.orgs[n];
      assert Behind(t.orgs, s.orgs) && WellNamed(t.orgs);
    }
  }

  lemma LabelsStayTrue(before: map<string, Organization>, after: map<string, Organization>,
                       namespaces: map<string, Namespace>)
    requires WellNamed(before) && Extends(before, after) && LabelsAreTrue(before, namespaces)
    ensures LabelsAreTrue(after, namespaces)
  {
    forall n | n in namespaces && namespaces[n].controller.Some?
      ensures IsRootOf(after, namespaces[n].labels[ORGANIZATION_LABEL], namespaces[n].labels[ROOT_LABEL])
    {
      RootIsStable(before, after, namespaces[n].labels[ORGANIZATION_LABEL], namespaces[n].labels[ROOT_LABEL]);
    }
  }

  /** Growing the hierarchy without new roots, or writing a true root, keeps everything true. */
  lemma GrowthIsGood(s: Store, s': Store)
    requires Good(s) && WellNamed(s'.orgs) && Extends(s.orgs, s'.orgs) && s'.namespaces == s.namespaces
    requires forall n :: n in s'.orgs && s'.orgs[n].root != "" ==>
               (n in s.orgs && s.orgs[n].root == s'.orgs[n].root) || IsRootOf(s.orgs, n, s'.orgs[n].root)
    ensures Good(s')
  {
    forall n | n in s'.orgs && s'.orgs[n].root != "" ensures IsRootOf(s'.orgs, n, s'.orgs[n].root) {
      RootIsStable(s.orgs, s'.orgs, n, s'.orgs[n].root);
    }
    LabelsStayTrue(s.orgs, s'.orgs, s.namespaces);
  }

  /** Storing an organization that is new and unresolved, or that keeps its parent and root. */
  lemma PuttingIsGood(s: Store, o: Organization)
    requires Good(s) && o.name != ""
    requires if o.name in s.orgs then o.parent == s.orgs[o.name].parent && o.root == s.orgs[o.name].root
             else o.root == ""
    ensures var s' := s.(orgs := s.orgs[o.name := o]); Good(s') && Behind(s.orgs, s'.orgs)
  {
    GrowthIsGood(s, s.(orgs := s.orgs[o.name := o]));
  }

  lemma OrganizationRequestsAreGood(az: Authorizer, rd: Reader, s: Store, e: Event)
    requires Good(s) && (e.CreateOrganization? || e.UpdateOrganization?)
    ensures Good(ApplyToOrganizations(az, rd, s, e)) && Behind(s.orgs, ApplyToOrganizations(az, rd, s, e).orgs)
  {
    var s' := ApplyToOrganizations(az, rd, s, e);
    if s' != s {
      var o := s'.orgs[e.organization.name];
      assert s' == s.(orgs := s.orgs[o.name := o]);
      PuttingIsGood(s, o);
    }
  }

  /** A root resolved from stale reads is the root in the current hierarchy. */
  lemma ResolvedRootIsTrue(rd: Reader, orgs: map<string, Organization>, name: string)
    requires Behind(rd.orgs, orgs) && WellNamed(rd.orgs) && name in rd.orgs
    requires RootWalk(rd, rd.orgs[name], MAX_HIERARCHY_DEPTH).Root?
    ensures IsRootOf(orgs, name, RootWalk(rd, rd.orgs[name], MAX_HIERARCHY_DEPTH).name)
  {
    var k := WalkIsSound(rd, name, MAX_HIERARCHY_DEPTH);
    ChainsAreStable(rd.orgs, orgs, name, k);
  }

  lemma OrganizationReconcileIsGood(rd: Reader, s: Store, name: string, status: bool, profile: bool)
    requires Good(s) && Behind(rd.orgs, s.orgs) && WellNamed(rd.orgs)
    ensures var s' := ApplyOrganizationReconcile(rd, s, name, status, profile);
            Good(s') && Behind(s.orgs, s'.orgs)
  {
    var s' := ApplyOrganizationReconcile(rd, s, name, status, profile);
    if s'.orgs != s.orgs {
      ResolvedRootIsTrue(rd, s.orgs, name);
      assert IsRootOf(s.orgs, name, s'.orgs[name].root);
      if s.orgs[name].root != "" {
        RootIsUnique(s.orgs, name, s.orgs[name].root, s'.orgs[name].root);
      }
      GrowthIsGood(s, s');
    }
  }

  lemma ProjectReconcileIsGood(rd: Reader, s: Store, name: string, freshUid: nat)
    requires Good(s) && Behind(rd.orgs, s.orgs)
    ensures Good(ApplyProjectReconcile(rd, s, name, freshUid))
    ensures ApplyProjectReconcile(rd, s, name, freshUid).orgs == s.orgs
  {
  }

  lemma OtherStepsKeepHierarchy(az: Authorizer, rd: Reader, s: Store, e: Event)
    requires !e.CreateOrganization? && !e.UpdateOrganization? && !e.DeleteOrganization?
    requires !e.ReconcileOrganization? && !e.ReconcileProject?
    ensures Apply(az, rd, s, e).orgs == s.orgs && Apply(az, rd, s, e).namespaces == s.namespaces
  {
  }

  lemma StepIsGood(az: Authorizer, rd: Reader, s: Store, e: Event)
    requires Good(s) && Behind(rd.orgs, s.orgs) && WellNamed(rd.orgs) && !e.DeleteOrganization?
    ensures Good(Apply(az, rd, s, e)) && Behind(s.orgs, Apply(az, rd, s, e).orgs)
  {
    if e.CreateOrganization? || e.UpdateOrganization? {
      OrganizationRequestsAreGood(az, rd, s, e);
    } else if e.ReconcileOrganization? {
      OrganizationReconcileIsGood(rd, s, e.name, e.statusWritten, e.profileWritten);
    } else if e.ReconcileProject? {
      ProjectReconcileIsGood(rd, s, e.name, e.freshUid);
    } else {
      OtherStepsKeepHierarchy(az, rd, s, e);
    }
  }

  ghost predicate NoOrganizationDeletions(actions: seq<Action>) {
    forall i :: 0 <= i < |actions| ==> !actions[i].event.DeleteOrganization?
  }

  lemma LastStepIsGood(az: Authorizer, history: seq<Store>, a: Action, s': Store)
    requires Step(az, history, a, s') && !a.event.DeleteOrganization?
    requires Good(history[|history| - 1]) && AllBehind(history, history[|history| - 1])
    ensures Good(s') && AllBehind(history, s')
  {
    var s := history[|history| - 1];
    ReaderIsBehind(history, a.rd, s);
    StepIsGood(az, a.rd, s, a.event);
    forall t | t in history ensures Behind(t.orgs, s'.orgs) && WellNamed(t.orgs) {
      assert Behind(t.orgs, s.orgs);
    }
  }

  lemma AllBehindGrows(states: seq<Store>, n: nat)
    requires |states| == n + 1 && AllBehind(states[..n], states[n]) && WellNamed(states[n].orgs)
    ensures AllBehind(states, states[n])
  {
    forall t | t in states ensures Behind(t.orgs, states[n].orgs) && WellNamed(t.orgs) {
      var i :| 0 <= i < |states| && states[i] == t;
      if i < n { assert states[..n][i] in states[..n]; }
    }
  }

  /**
    In every run without Organization deletions, by any requesters: resolved roots are true, no
    state contradicts an earlier one, and every namespace label the operator wrote is true.
   */
  lemma {:induction false} RootsAreTrueAndStable(az: Authorizer, states: seq<Store>, actions: seq<Action>)
    requires Run(az, states, actions) && Good(states[0]) && NoOrganizationDeletions(actions)
    ensures Good(states[|actions|]) && AllBehind(states, states[|actions|])
    decreases |actions|
  {
    var n := |actions|;
    if n > 0 {
      RunPrefix(az, states, actions, n - 1);
      RootsAreTrueAndStable(az, states[..n], actions[..n - 1]);
      assert StepAt(az, states, actions, n - 1);
      LastStepIsGood(az, states[..n], actions[n - 1], states[n]);
      AllBehindGrows(states, n);
    }
  }

  /** So an organization in a shape the walk refuses has no provisioned namespace. */
  lemma UnresolvedHasNoNamespace(az: Authorizer, states: seq<Store>, actions: seq<Action>, rd: Reader, x: string,
                                 n: string)
    requires Run(az, states, actions) && Good(states[0]) && NoOrganizationDeletions(actions)
    requires rd.orgs == states[|actions|].orgs && rd.failing == {}
    requires x in rd.orgs && !RootWalk(rd, rd.orgs[x], MAX_HIERARCHY_DEPTH).Root?
    ensures var namespaces := states[|actions|].namespaces;
            n in namespaces && namespaces[n].controller.Some? ==>
              ORGANIZATION_LABEL in namespaces[n].labels && namespaces[n].labels[ORGANIZATION_LABEL] != x
  {
    RootsAreTrueAndStable(az, states, actions);
    RootWalkExact(rd, x);
  }
}
