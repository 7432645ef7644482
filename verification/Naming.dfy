/** One profile and one MaaS configuration per organization, and what that means for cleanup. */
module Naming {
  import opened Objects
  import opened Authz
  import opened Operator
  import W = Webhooks
  import RS = RootStability

  ghost predicate ProfilesNamed(profiles: map<string, Profile>) {
    forall n :: n in profiles ==> profiles[n].spec.organizationRef == n
  }

  ghost predicate ConfigurationsNamed(configurations: map<string, Configuration>) {
    forall n :: n in configurations ==>
      n != "" && configurations[n].name == n && configurations[n].spec.organizationRef == n
  }

  ghost predicate Named(s: Store) {
    ProfilesNamed(s.profiles) && ConfigurationsNamed(s.configurations)
  }

  lemma ConfigurationStepsKeepNames(az: Authorizer, rd: Reader, s: Store, e: Event)
    requires e.CreateConfiguration? || e.UpdateConfiguration? || e.DeleteConfiguration?
    requires ConfigurationsNamed(s.configurations)
    ensures ConfigurationsNamed(ApplyToConfigurations(az, rd, s, e).configurations)
  {
    if ApplyToConfigurations(az, rd, s, e) != s { var n, c := ConfigurationWrites(az, rd, s, e); }
  }

  lemma ProfileStepsKeepNames(az: Authorizer, rd: Reader, s: Store, e: Event)
    requires e.CreateProfile? || e.UpdateProfile?
    requires ProfilesNamed(s.profiles)
    ensures ProfilesNamed(ApplyToProfiles(az, rd, s, e).profiles)
  {
  }

  lemma StepKeepsNames(az: Authorizer, rd: Reader, s: Store, e: Event)
    requires Named(s)
    ensures Named(Apply(az, rd, s, e))
  {
    if e.CreateConfiguration? || e.UpdateConfiguration? || e.DeleteConfiguration? {
      ConfigurationStepsKeepNames(az, rd, s, e);
    } else if e.CreateProfile? || e.UpdateProfile? {
      ProfileStepsKeepNames(az, rd, s, e);
    } else {
      OtherStepsKeepConfigurations(az, rd, s, e);
    }
  }

  lemma OtherStepsKeepConfigurations(az: Authorizer, rd: Reader, s: Store, e: Event)
    requires !e.CreateConfiguration? && !e.UpdateConfiguration? && !e.DeleteConfiguration?
    requires !e.CreateProfile? && !e.UpdateProfile?
    ensures Apply(az, rd, s, e).configurations == s.configurations
    ensures ProfilesNamed(s.profiles) ==> ProfilesNamed(Apply(az, rd, s, e).profiles)
  {
  }

  ghost predicate AllNamed(states: seq<Store>) {
    forall s :: s in states ==> Named(s)
  }

  /** With the webhooks on, names and references agree in every reachable state. */
  lemma {:induction false} NamesAlwaysAgree(az: Authorizer, states: seq<Store>, actions: seq<Action>)
    requires Run(az, states, actions) && Named(states[0])
    ensures AllNamed(states)
    decreases |actions|
  {
    var n := |actions|;
    if n > 0 {
      RunPrefix(az, states, actions, n - 1);
      NamesAlwaysAgree(az, states[..n], actions[..n - 1]);
      assert StepAt(az, states, actions, n - 1);
      assert states[..n][n - 1] in states[..n];
      StepKeepsNames(az, actions[n - 1].rd, states[n - 1], actions[n - 1].event);
      assert states == states[..n] + [states[n]];
    } else {
      assert states == [states[0]];
    }
  }

  /**
    Hence no two configurations share an organization, and the duplicate scan never decides a
    request, not even over stale listings.
   */
  lemma DuplicateScanNeverDecides(az: Authorizer, states: seq<Store>, actions: seq<Action>,
                                  rd: Reader, u: UserInfo, obj: Configuration, m: string, n: string)
    requires Run(az, states, actions) && Named(states[0]) && Observes(rd, states)
    ensures W.ValidateConfiguration(az, rd, u, obj) != W.Deny(W.Duplicate)
    ensures var configurations := states[|actions|].configurations;
            && m in configurations && n in configurations
            && configurations[m].spec.organizationRef == configurations[n].spec.organizationRef
            ==> m == n
  {
    NamesAlwaysAgree(az, states, actions);
    assert states[|actions|] in states;
    forall k | k in rd.configurations ensures rd.configurations[k].spec.organizationRef == k {
      var s :| s in states && k in s.configurations && s.configurations[k] == rd.configurations[k];
      assert Named(s);
    }
  }

  // ---------------------------------------------------------------- the operator's last cleanup write

  /** A reader of the current store, with no failing reads. */
  function Current(s: Store): Reader {
    Reader(s.orgs, s.profiles, s.projects, s.configurations, {})
  }

  predicate RootExists(s: Store, organization: string) {
    organization in s.orgs && s.orgs[organization].parent == ""
  }

  /** In a reachable state, the write that removes the finalizer passes the webhook exactly while the root exists. */
  lemma FinalizerRemovalExact(az: Authorizer, states: seq<Store>, actions: seq<Action>, operator: UserInfo, n: string)
    requires Run(az, states, actions) && Named(states[0]) && Trusted(az, operator)
    requires n in states[|actions|].configurations
    ensures var s := states[|actions|];
            W.UpdateConfiguration(az, Current(s), operator, s.configurations[n],
                                  WithoutFinalizer(s.configurations[n])) == W.Admit
            <==> RootExists(s, s.configurations[n].spec.organizationRef)
  {
    NamesAlwaysAgree(az, states, actions);
    var s := states[|actions|];
    assert s in states && Named(s);
    assert !W.HasDuplicate(s.configurations, WithoutFinalizer(s.configurations[n]));
  }

  /** Where it passes, the finalizer is gone, and with the last finalizer so is a deleted configuration. */
  lemma OneWriteClearsTheFinalizer(az: Authorizer, s: Store, operator: UserInfo, n: string)
    requires Named(s) && Trusted(az, operator) && n in s.configurations
    requires RootExists(s, s.configurations[n].spec.organizationRef)
    ensures var c := s.configurations[n];
            var s' := Apply(az, Current(s), s, UpdateConfiguration(operator, WithoutFinalizer(c)));
            var others := c.finalizers - {"organization.opendatahub.io/maas-cleanup"};
            if c.deleting && others == {} then n !in s'.configurations
            else n in s'.configurations && s'.configurations[n] == c.(finalizers := others)
  {
    var c := WithoutFinalizer(s.configurations[n]);
    assert !W.HasDuplicate(s.configurations, c);
    assert W.UpdateConfiguration(az, Current(s), operator, s.configurations[n], c) == W.Admit;
  }

  ghost predicate Rooted(s: Store) {
    forall n :: n in s.configurations ==> RootExists(s, n)
  }

  lemma StepKeepsRoots(az: Authorizer, rd: Reader, s: Store, e: Event)
    requires RS.Good(s) && RS.Behind(rd.orgs, s.orgs) && WellNamed(rd.orgs) && !e.DeleteOrganization?
    requires Rooted(s)
    ensures Rooted(Apply(az, rd, s, e))
  {
    RS.StepIsGood(az, rd, s, e);
    if e.CreateConfiguration? || e.UpdateConfiguration? || e.DeleteConfiguration? {
      ConfigurationStepsKeepRoots(az, rd, s, e);
    } else if e.CreateProfile? || e.UpdateProfile? {
      assert Apply(az, rd, s, e).configurations == s.configurations;
    } else {
      OtherStepsKeepConfigurations(az, rd, s, e);
    }
  }

  lemma ConfigurationStepsKeepRoots(az: Authorizer, rd: Reader, s: Store, e: Event)
    requires e.CreateConfiguration? || e.UpdateConfiguration? || e.DeleteConfiguration?
    requires RS.Behind(rd.orgs, s.orgs) && Rooted(s)
    ensures Rooted(ApplyToConfigurations(az, rd, s, e))
  {
    if ApplyToConfigurations(az, rd, s, e) != s { var n, c := ConfigurationWrites(az, rd, s, e); }
  }

  lemma LastStepKeepsRoots(az: Authorizer, history: seq<Store>, a: Action, s': Store)
    requires Step(az, history, a, s') && !a.event.DeleteOrganization?
    requires RS.Good(history[|history| - 1]) && RS.AllBehind(history, history[|history| - 1])
    requires Rooted(history[|history| - 1])
    ensures Rooted(s')
  {
    RS.ReaderIsBehind(history, a.rd, history[|history| - 1]);
    StepKeepsRoots(az, a.rd, history[|history| - 1], a.event);
  }

  lemma {:induction false} RootsOfConfigurationsStay(az: Authorizer, states: seq<Store>, actions: seq<Action>)
    requires Run(az, states, actions) && RS.NoOrganizationDeletions(actions)
    requires RS.Good(states[0]) && Rooted(states[0])
    ensures Rooted(states[|actions|])
    decreases |actions|
  {
    var n := |actions|;
    if n > 0 {
      RunPrefix(az, states, actions, n - 1);
      RootsOfConfigurationsStay(az, states[..n], actions[..n - 1]);
      assert StepAt(az, states, actions, n - 1);
      RS.RootsAreTrueAndStable(az, states[..n], actions[..n - 1]);
      LastStepKeepsRoots(az, states[..n], actions[n - 1], states[n]);
    }
  }

  /** Without Organization deletions, the operator's last cleanup write is never refused. */
  lemma CleanupIsNeverRefused(az: Authorizer, states: seq<Store>, actions: seq<Action>, operator: UserInfo, n: string)
    requires Run(az, states, actions) && RS.NoOrganizationDeletions(actions)
    requires Named(states[0]) && RS.Good(states[0]) && Rooted(states[0]) && Trusted(az, operator)
    ensures var s := states[|actions|];
            n in s.configurations ==>
              && RootExists(s, n)
              && W.UpdateConfiguration(az, Current(s), operator, s.configurations[n],
                                       WithoutFinalizer(s.configurations[n])) == W.Admit
  {
    RootsOfConfigurationsStay(az, states, actions);
    NamesAlwaysAgree(az, states, actions);
    assert states[|actions|] in states && Named(states[|actions|]);
    if n in states[|actions|].configurations { FinalizerRemovalExact(az, states, actions, operator, n); }
  }

  /** The invariants hold of the empty store, hence of everything reachable from it. */
  lemma ReachableFromEmpty(az: Authorizer, states: seq<Store>, actions: seq<Action>)
    requires Run(az, states, actions) && states[0] == EMPTY
    ensures AllNamed(states)
    ensures RS.NoOrganizationDeletions(actions) ==> RS.Good(states[|actions|]) && Rooted(states[|actions|])
  {
    assert Named(EMPTY) && RS.Good(EMPTY) && Rooted(EMPTY);
    NamesAlwaysAgree(az, states, actions);
    if RS.NoOrganizationDeletions(actions) {
      RS.RootsAreTrueAndStable(az, states, actions);
      RootsOfConfigurationsStay(az, states, actions);
    }
  }
}
