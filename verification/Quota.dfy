/**
  The project quota as a protocol. Admission counts the stored projects; the store commits
  admitted projects later, so creates admitted together do not see each other, and the listing a
  check counts may lag behind the store.
 */
module Quota {
  import opened Objects
  import opened Authz
  import opened Operator
  import W = Webhooks
  import N = Naming

  /** `pending` holds the creates that were admitted and not yet committed. */
  datatype State = State(store: Store, pending: seq<Project>)

  datatype Move =
    | Check(u: UserInfo, project: Project, rd: Reader)
    | Commit(i: nat)
    | Drop(i: nat)
    | Other(event: Event, rd: Reader)

  function Without<T>(s: seq<T>, i: nat): seq<T>
    requires i < |s|
  {
    s[..i] + s[i + 1..]
  }

  function CommitProject(projects: map<string, Project>, p: Project): map<string, Project> {
    if p.name != "" && p.name !in projects then projects[p.name := p] else projects
  }

  /** The stored projects of the organization that a listing does not show. */
  function Missed(s: State, listed: map<string, Project>, organization: string): set<string> {
    W.ProjectsOf(s.store.projects, organization) - W.ProjectsOf(listed, organization)
  }

  /**
    Reads of a quota check may lag: each profile is one that some state so far held, and the
    listing misses at most `lag` stored projects of the organization. All other reads are free.
   */
  ghost predicate LagsBehind(rd: Reader, history: seq<State>, organization: string, lag: nat) {
    && |history| > 0
    && (forall n :: n in rd.profiles ==>
          exists h :: h in history && n in h.store.profiles && h.store.profiles[n] == rd.profiles[n])
    && |Missed(history[|history| - 1], rd.projects, organization)| <= lag
  }

  ghost predicate Next(az: Authorizer, history: seq<State>, m: Move, s': State, lag: nat)
    requires |history| > 0
  {
    var s := history[|history| - 1];
    match m
    case Check(u, p, rd) =>
      && LagsBehind(rd, history, p.spec.organizationRef, lag)
      && s' == if W.CreateProject(az, rd, u, p) == W.Admit then s.(pending := s.pending + [p]) else s
    case Commit(i) =>
      i < |s.pending| &&
      s' == State(s.store.(projects := CommitProject(s.store.projects, s.pending[i])), Without(s.pending, i))
    case Drop(i) => i < |s.pending| && s' == s.(pending := Without(s.pending, i))
    case Other(e, rd) => !e.CreateProject? && s' == s.(store := Apply(az, rd, s.store, e))
  }

  function PendingFor(pending: seq<Project>, organization: string): nat {
    if pending == [] then 0
    else
      var last := if pending[|pending| - 1].spec.organizationRef == organization then 1 else 0;
      PendingFor(pending[..|pending| - 1], organization) + last
  }

  function Committed(s: State, organization: string): nat {
    |W.ProjectsOf(s.store.projects, organization)|
  }

  function Owned(s: State, organization: string): nat {
    Committed(s, organization) + PendingFor(s.pending, organization)
  }

  /** The limit among these profiles; none and negative ones count as zero. */
  function Limit(profiles: map<string, Profile>, organization: string): nat {
    if organization in profiles && profiles[organization].spec.maxProjects > 0
    then profiles[organization].spec.maxProjects else 0
  }

  function MaxProjects(s: State, organization: string): nat {
    Limit(s.store.profiles, organization)
  }

  /** The highest limit the organization's profile ever carried. */
  function HighWater(states: seq<State>, organization: string): nat {
    if states == [] then 0
    else
      var earlier := HighWater(states[..|states| - 1], organization);
      var last := MaxProjects(states[|states| - 1], organization);
      if last > earlier then last else earlier
  }

  ghost predicate MoveAt(az: Authorizer, states: seq<State>, moves: seq<Move>, k: nat, lag: nat)
    requires k < |moves| && |states| == |moves| + 1
  {
    Next(az, states[..k + 1], moves[k], states[k + 1], lag)
  }

  ghost predicate Run(az: Authorizer, states: seq<State>, moves: seq<Move>, lag: nat) {
    |states| == |moves| + 1 && forall k: nat :: k < |moves| ==> MoveAt(az, states, moves, k, lag)
  }

  // ---------------------------------------------------------------- counting

  lemma {:induction false} PendingConcat(a: seq<Project>, b: seq<Project>, organization: string)
    ensures PendingFor(a + b, organization) == PendingFor(a, organization) + PendingFor(b, organization)
  {
    if b == [] {
      assert a + b == a;
    } else {
      assert (a + b)[..|a + b| - 1] == a + b[..|b| - 1];
      PendingConcat(a, b[..|b| - 1], organization);
    }
  }

  lemma PendingWithout(pending: seq<Project>, i: nat, organization: string)
    requires i < |pending|
    ensures PendingFor(Without(pending, i), organization) == PendingFor(pending, organization)
              - if pending[i].spec.organizationRef == organization then 1 else 0
  {
    var p := [pending[i]];
    assert pending == pending[..i] + p + pending[i + 1..];
    PendingConcat(pending[..i] + p, pending[i + 1..], organization);
    PendingConcat(pending[..i], p, organization);
    PendingConcat(pending[..i], pending[i + 1..], organization);
    assert p[..0] == [];
  }

  lemma StoringCounts(projects: map<string, Project>, p: Project, organization: string)
    requires p.name !in projects
    ensures |W.ProjectsOf(projects[p.name := p], organization)| == |W.ProjectsOf(projects, organization)|
              + if p.spec.organizationRef == organization then 1 else 0
  {
    var before, after := W.ProjectsOf(projects, organization), W.ProjectsOf(projects[p.name := p], organization);
    if p.spec.organizationRef == organization {
      assert after == before + {p.name};
    } else {
      assert after == before;
    }
  }

  lemma CommitCounts(projects: map<string, Project>, p: Project, organization: string)
    ensures |W.ProjectsOf(CommitProject(projects, p), organization)| <= |W.ProjectsOf(projects, organization)|
              + if p.spec.organizationRef == organization then 1 else 0
  {
    if p.name !in projects { StoringCounts(projects, p, organization); }
  }

  lemma SubsetCardinality(a: set<string>, b: set<string>)
    requires a <= b
    ensures |a| <= |b|
  {
    assert b == a + (b - a);
  }

  /** Organization references are immutable, so only a create can give an organization a project. */
  lemma OtherEventsAddNoProject(az: Authorizer, rd: Reader, s: Store, e: Event, organization: string)
    requires !e.CreateProject?
    ensures |W.ProjectsOf(Apply(az, rd, s, e).projects, organization)| <= |W.ProjectsOf(s.projects, organization)|
  {
    var s' := Apply(az, rd, s, e);
    if e.UpdateProject? {
      assert s' == ApplyToProjects(az, rd, s, e);
    } else if e.DeleteProject? {
      assert s'.projects == s.projects - {e.name};
    } else {
      OtherEventsKeepProjects(az, rd, s, e);
    }
    assert W.ProjectsOf(s'.projects, organization) <= W.ProjectsOf(s.projects, organization);
    SubsetCardinality(W.ProjectsOf(s'.projects, organization), W.ProjectsOf(s.projects, organization));
  }

  lemma OtherEventsKeepProjects(az: Authorizer, rd: Reader, s: Store, e: Event)
    requires !e.CreateProject? && !e.UpdateProject? && !e.DeleteProject?
    ensures Apply(az, rd, s, e).projects == s.projects
  {
  }

  // ---------------------------------------------------------------- the bound

  /** A listing that misses at most `lag` projects shows all but that many. */
  lemma ListedAlmostAll(s: State, listed: map<string, Project>, organization: string)
    ensures Committed(s, organization)
         <= |W.ProjectsOf(listed, organization)| + |Missed(s, listed, organization)|
  {
    var stored, shown := W.ProjectsOf(s.store.projects, organization), W.ProjectsOf(listed, organization);
    assert stored == Missed(s, listed, organization) + stored * shown;
    SubsetCardinality(stored * shown, shown);
  }

  /** Only an admitted check increases what an organization owns, and only below the limit it read. */
  lemma MoveIsBounded(az: Authorizer, history: seq<State>, m: Move, s': State, organization: string, lag: nat)
    requires |history| > 0 && Next(az, history, m, s', lag)
    ensures Owned(s', organization) > Owned(history[|history| - 1], organization) ==>
              && m.Check? && m.project.spec.organizationRef == organization
              && W.CreateProject(az, m.rd, m.u, m.project) == W.Admit
              && Committed(s', organization) < Limit(m.rd.profiles, organization) + lag
  {
    var s := history[|history| - 1];
    match m
    case Check(u, p, rd) =>
      if s' != s {
        assert s.pending + [p] == s'.pending;
        PendingConcat(s.pending, [p], organization);
        assert [p][..0] == [];
        ListedAlmostAll(s, rd.projects, organization);
      }
    case Commit(i) =>
      PendingWithout(s.pending, i, organization);
      CommitCounts(s.store.projects, s.pending[i], organization);
    case Drop(i) => PendingWithout(s.pending, i, organization);
    case Other(e, rd) => OtherEventsAddNoProject(az, rd, s.store, e, organization);
  }

  lemma {:induction false} HighWaterCovers(states: seq<State>, i: nat, organization: string)
    requires i < |states|
    ensures HighWater(states, organization) >= MaxProjects(states[i], organization)
  {
    var n := |states| - 1;
    if i < n { HighWaterCovers(states[..n], i, organization); }
  }

  /** No limit a check reads is above the highest limit so far. */
  lemma LimitReadIsCovered(rd: Reader, history: seq<State>, organization: string, lag: nat)
    requires LagsBehind(rd, history, organization, lag)
    ensures Limit(rd.profiles, organization) <= HighWater(history, organization)
  {
    if organization in rd.profiles {
      var h :| && h in history && organization in h.store.profiles
               && h.store.profiles[organization] == rd.profiles[organization];
      var i :| 0 <= i < |history| && history[i] == h;
      HighWaterCovers(history, i, organization);
    }
  }

  lemma MoveKeepsBound(az: Authorizer, history: seq<State>, m: Move, s': State, organization: string, c: nat, lag: nat)
    requires |history| > 0 && Next(az, history, m, s', lag) && c >= 1
    requires PendingFor(s'.pending, organization) <= c
    ensures Owned(s', organization) <= Owned(history[|history| - 1], organization)
         || Owned(s', organization) <= HighWater(history, organization) + c - 1 + lag
  {
    MoveIsBounded(az, history, m, s', organization, lag);
    if Owned(s', organization) > Owned(history[|history| - 1], organization) {
      LimitReadIsCovered(m.rd, history, organization, lag);
    }
  }

  /**
    With at most c uncommitted creates per organization at any time, and listings that miss at most
    `lag` projects, an organization never owns more than the highest limit ever set plus
    c - 1 + lag; with c = 1 and complete listings the limit is exact.
   */
  lemma QuotaBound(az: Authorizer, states: seq<State>, moves: seq<Move>, organization: string, c: nat, lag: nat)
    requires Run(az, states, moves, lag) && c >= 1
    requires states[0].store.projects == map[] && states[0].pending == []
    requires forall i :: 0 <= i < |states| ==> PendingFor(states[i].pending, organization) <= c
    ensures Owned(states[|moves|], organization) <= HighWater(states, organization) + c - 1 + lag
  {
    var slack := c - 1 + lag;
    forall k: nat | k + 1 < |states| ensures Bounded(states, k, organization, slack) {
      assert MoveAt(az, states, moves, k, lag);
      MoveKeepsBound(az, states[..k + 1], moves[k], states[k + 1], organization, c, lag);
    }
    assert W.ProjectsOf(states[0].store.projects, organization) == {};
    BoundAlongStates(states, organization, slack);
  }

  /** Step k does not increase what the organization owns, or keeps it within the slack over the highest limit. */
  ghost predicate Bounded(states: seq<State>, k: nat, organization: string, slack: nat)
    requires k + 1 < |states|
  {
    || Owned(states[k + 1], organization) <= Owned(states[k], organization)
    || Owned(states[k + 1], organization) <= HighWater(states[..k + 1], organization) + slack
  }

  lemma {:induction false} BoundAlongStates(states: seq<State>, organization: string, slack: nat)
    requires |states| > 0 && Owned(states[0], organization) == 0
    requires forall k: nat :: k + 1 < |states| ==> Bounded(states, k, organization, slack)
    ensures Owned(states[|states| - 1], organization) <= HighWater(states, organization) + slack
  {
    var n := |states| - 1;
    if n > 0 {
      forall k: nat | k + 1 < n ensures Bounded(states[..n], k, organization, slack) {
        assert Bounded(states, k, organization, slack);
        assert states[..n][..k + 1] == states[..k + 1];
      }
      BoundAlongStates(states[..n], organization, slack);
      assert Bounded(states, n - 1, organization, slack);
    }
  }

  // ---------------------------------------------------------------- the bound is reached

  /** New projects of one organization under distinct unused names. */
  ghost predicate Fresh(projects: map<string, Project>, ps: seq<Project>, organization: string) {
    && (forall i :: 0 <= i < |ps| ==>
          ps[i].name != "" && ps[i].name !in projects && ps[i].spec.organizationRef == organization)
    && (forall i, j :: 0 <= i < j < |ps| ==> ps[i].name != ps[j].name)
  }

  /** A run that keeps the profiles, with at most c uncommitted creates and the limit at `limit` throughout. */
  ghost predicate Steady(az: Authorizer, states: seq<State>, moves: seq<Move>, organization: string, lag: nat, c: nat,
                         limit: nat) {
    && Run(az, states, moves, lag)
    && (forall i :: 0 <= i < |states| ==> PendingFor(states[i].pending, organization) <= c)
    && HighWater(states, organization) == MaxProjects(states[|moves|], organization) == limit
  }

  lemma SteadyExtends(az: Authorizer, states: seq<State>, moves: seq<Move>, organization: string, lag: nat, c: nat,
                      limit: nat, m: Move, s': State)
    requires Steady(az, states, moves, organization, lag, c, limit) && Next(az, states, m, s', lag)
    requires s'.store.profiles == states[|moves|].store.profiles && PendingFor(s'.pending, organization) <= c
    ensures Steady(az, states + [s'], moves + [m], organization, lag, c, limit)
  {
    var states', moves' := states + [s'], moves + [m];
    assert states'[..|moves| + 1] == states;
    forall k: nat | k < |moves'| ensures MoveAt(az, states', moves', k, lag) {
      assert k < |moves| ==> MoveAt(az, states, moves, k, lag) && states'[..k + 1] == states[..k + 1];
    }
  }

  lemma {:induction false} AllPending(ps: seq<Project>, organization: string)
    requires forall i :: 0 <= i < |ps| ==> ps[i].spec.organizationRef == organization
    ensures PendingFor(ps, organization) == |ps|
  {
    if ps != [] { AllPending(ps[..|ps| - 1], organization); }
  }

  /** A listing that misses `lag` of the organization's projects, or all of them when there are no more. */
  lemma {:induction false} SomeMissed(projects: map<string, Project>, organization: string, lag: nat)
    returns (listed: map<string, Project>)
    ensures W.ProjectsOf(listed, organization) <= W.ProjectsOf(projects, organization)
    ensures var stored, shown := W.ProjectsOf(projects, organization), W.ProjectsOf(listed, organization);
            |stored - shown| <= lag && (shown == {} || |shown| == |stored| - lag)
  {
    listed := projects;
    var stored := W.ProjectsOf(projects, organization);
    assert stored - stored == {};
    for i := 0 to lag
      invariant W.ProjectsOf(listed, organization) <= stored
      invariant |stored - W.ProjectsOf(listed, organization)| <= i
      invariant W.ProjectsOf(listed, organization) == {} || |W.ProjectsOf(listed, organization)| == |stored| - i
    {
      var shown := W.ProjectsOf(listed, organization);
      if n :| n in shown {
        listed := listed - {n};
        assert W.ProjectsOf(listed, organization) == shown - {n};
        assert stored - (shown - {n}) == (stored - shown) + {n};
      }
    }
  }

  /** While fewer than limit + lag projects are stored, some lagging reader admits a trusted create. */
  lemma LaggingCheckAdmits(az: Authorizer, history: seq<State>, u: UserInfo, p: Project, lag: nat) returns (rd: Reader)
    requires |history| > 0 && Trusted(az, u)
    requires var organization := p.spec.organizationRef;
             var s := history[|history| - 1];
             MaxProjects(s, organization) > 0 && Committed(s, organization) < MaxProjects(s, organization) + lag
    ensures LagsBehind(rd, history, p.spec.organizationRef, lag) && W.CreateProject(az, rd, u, p) == W.Admit
  {
    var s := history[|history| - 1];
    var listed := SomeMissed(s.store.projects, p.spec.organizationRef, lag);
    rd := N.Current(s.store).(projects := listed);
  }

  /** Below the limit, checks in a row are all admitted: none of them sees the others. */
  lemma AdmitAll(az: Authorizer, states0: seq<State>, moves0: seq<Move>, ps: seq<Project>, u: UserInfo,
                 organization: string, lag: nat, c: nat, limit: nat)
    returns (states: seq<State>, moves: seq<Move>)
    requires Steady(az, states0, moves0, organization, lag, c, limit) && |ps| <= c && limit > 0
    requires Trusted(az, u) && states0[|moves0|].pending == []
    requires Fresh(states0[|moves0|].store.projects, ps, organization)
    requires Committed(states0[|moves0|], organization) < limit + lag
    ensures Steady(az, states, moves, organization, lag, c, limit) && states[0] == states0[0]
    ensures states[|moves|] == State(states0[|moves0|].store, ps)
  {
    var store := states0[|moves0|].store;
    states, moves := states0, moves0;
    for k := 0 to |ps|
      invariant Steady(az, states, moves, organization, lag, c, limit) && states[0] == states0[0]
      invariant states[|moves|] == State(store, ps[..k])
    {
      assert ps[..k + 1] == ps[..k] + [ps[k]];
      AllPending(ps[..k + 1], organization);
      var next := State(store, ps[..k + 1]);
      var rd := LaggingCheckAdmits(az, states, u, ps[k], lag);
      SteadyExtends(az, states, moves, organization, lag, c, limit, Check(u, ps[k], rd), next);
      states, moves := states + [next], moves + [Check(u, ps[k], rd)];
    }
    assert ps[..|ps|] == ps;
  }

  ghost function ProjectNames(ps: seq<Project>): set<string> {
    set p | p in ps :: p.name
  }

  /** Storing the first of the new projects. */
  lemma StoringFirst(s: State, organization: string)
    requires s.pending != [] && Fresh(s.store.projects, s.pending, organization)
    ensures var next := State(s.store.(projects := CommitProject(s.store.projects, s.pending[0])), s.pending[1..]);
            && Without(s.pending, 0) == s.pending[1..] && Fresh(next.store.projects, next.pending, organization)
            && PendingFor(next.pending, organization) == |next.pending|
            && Committed(next, organization) == Committed(s, organization) + 1
            && next.store.projects.Keys + ProjectNames(next.pending) == s.store.projects.Keys + ProjectNames(s.pending)
  {
    StoringCounts(s.store.projects, s.pending[0], organization);
    AllPending(s.pending[1..], organization);
    assert s.pending == [s.pending[0]] + s.pending[1..];
    assert ProjectNames(s.pending) == {s.pending[0].name} + ProjectNames(s.pending[1..]);
  }

  /** All pending creates of new projects commit, the oldest first. */
  lemma {:induction false} CommitAll(az: Authorizer, states0: seq<State>, moves0: seq<Move>,
                                     organization: string, lag: nat, c: nat, limit: nat)
    returns (states: seq<State>, moves: seq<Move>)
    requires Steady(az, states0, moves0, organization, lag, c, limit)
    requires var s := states0[|moves0|]; |s.pending| <= c && Fresh(s.store.projects, s.pending, organization)
    ensures Steady(az, states, moves, organization, lag, c, limit) && states[0] == states0[0]
    ensures var s, s' := states0[|moves0|], states[|moves|];
            && s'.pending == [] && s'.store.projects.Keys == s.store.projects.Keys + ProjectNames(s.pending)
            && Committed(s', organization) == Committed(s, organization) + |s.pending|
    decreases |states0[|moves0|].pending|
  {
    var s := states0[|moves0|];
    if s.pending == [] {
      states, moves := states0, moves0;
    } else {
      StoringFirst(s, organization);
      var next := State(s.store.(projects := CommitProject(s.store.projects, s.pending[0])), s.pending[1..]);
      SteadyExtends(az, states0, moves0, organization, lag, c, limit, Commit(0), next);
      states, moves := CommitAll(az, states0 + [next], moves0 + [Commit(0)], organization, lag, c, limit);
    }
  }

  /** A batch of creates admitted together below the limit all commit. */
  lemma BatchCommits(az: Authorizer, states0: seq<State>, moves0: seq<Move>, ps: seq<Project>, u: UserInfo,
                     organization: string, lag: nat, c: nat, limit: nat)
    returns (states: seq<State>, moves: seq<Move>)
    requires Steady(az, states0, moves0, organization, lag, c, limit) && |ps| <= c && limit > 0
    requires Trusted(az, u) && states0[|moves0|].pending == []
    requires Fresh(states0[|moves0|].store.projects, ps, organization)
    requires Committed(states0[|moves0|], organization) < limit + lag
    ensures Steady(az, states, moves, organization, lag, c, limit) && states[0] == states0[0]
    ensures var s, s' := states0[|moves0|], states[|moves|];
            && s'.pending == [] && s'.store.projects.Keys == s.store.projects.Keys + ProjectNames(ps)
            && Committed(s', organization) == Committed(s, organization) + |ps|
  {
    states, moves := AdmitAll(az, states0, moves0, ps, u, organization, lag, c, limit);
    states, moves := CommitAll(az, states, moves, organization, lag, c, limit);
  }

  /**
    From any state below limit + lag: c creates checked together are all admitted and all commit, with
    at most c uncommitted and the limit unchanged; an organization at limit - 1 + lag ends at the bound.
   */
  lemma QuotaBoundIsReached(az: Authorizer, s: State, ps: seq<Project>, u: UserInfo, organization: string, lag: nat)
    returns (states: seq<State>, moves: seq<Move>)
    requires Trusted(az, u) && s.pending == [] && Fresh(s.store.projects, ps, organization)
    requires 0 < MaxProjects(s, organization) && Committed(s, organization) < MaxProjects(s, organization) + lag
    ensures Run(az, states, moves, lag) && states[0] == s
    ensures forall i :: 0 <= i < |states| ==> PendingFor(states[i].pending, organization) <= |ps|
    ensures HighWater(states, organization) == MaxProjects(s, organization)
    ensures Committed(states[|moves|], organization) == Committed(s, organization) + |ps|
    ensures Committed(s, organization) == MaxProjects(s, organization) - 1 + lag ==>
              Committed(states[|moves|], organization) == HighWater(states, organization) + |ps| - 1 + lag
  {
    var limit := MaxProjects(s, organization);
    assert [s][..0] == [];
    states, moves := BatchCommits(az, [s], [], ps, u, organization, lag, |ps|, limit);
  }

  lemma FreshAfterFirst(projects: map<string, Project>, projects': map<string, Project>, ps: seq<Project>,
                        organization: string)
    requires ps != [] && Fresh(projects, ps, organization) && projects'.Keys == projects.Keys + ProjectNames([ps[0]])
    ensures Fresh(projects', ps[1..], organization)
  {
  }

  /** One create after the other, each committed before the next check, with listings that miss `lag` projects. */
  lemma {:induction false} FillUp(az: Authorizer, states0: seq<State>, moves0: seq<Move>, ps: seq<Project>, n: nat,
                                  u: UserInfo, organization: string, lag: nat, c: nat, limit: nat)
    returns (states: seq<State>, moves: seq<Move>)
    requires Steady(az, states0, moves0, organization, lag, c, limit) && c >= 1 && limit > 0 && n <= |ps|
    requires Trusted(az, u) && states0[|moves0|].pending == []
    requires Fresh(states0[|moves0|].store.projects, ps, organization)
    requires Committed(states0[|moves0|], organization) + n < limit + lag
    ensures Steady(az, states, moves, organization, lag, c, limit) && states[0] == states0[0]
    ensures states[|moves|].pending == [] && Fresh(states[|moves|].store.projects, ps[n..], organization)
    ensures Committed(states[|moves|], organization) == Committed(states0[|moves0|], organization) + n
    decreases n
  {
    states, moves := states0, moves0;
    if n > 0 {
      states, moves := BatchCommits(az, states, moves, [ps[0]], u, organization, lag, c, limit);
      FreshAfterFirst(states0[|moves0|].store.projects, states[|moves|].store.projects, ps, organization);
      states, moves := FillUp(az, states, moves, ps[1..], n - 1, u, organization, lag, c, limit);
      assert ps[1..][n - 1..] == ps[n..];
    } else {
      assert ps[0..] == ps;
    }
  }

  /**
    The bound of QuotaBound is tight for every limit, c and lag, from a store without projects:
    projects are created one after the other up to limit - 1 + lag, and then c at once.
   */
  lemma QuotaBoundIsTight(az: Authorizer, s: State, ps: seq<Project>, u: UserInfo, organization: string, c: nat,
                          lag: nat)
    returns (states: seq<State>, moves: seq<Move>)
    requires Trusted(az, u) && s.pending == [] && s.store.projects == map[] && Fresh(map[], ps, organization)
    requires MaxProjects(s, organization) > 0 && c >= 1 && |ps| == MaxProjects(s, organization) + c - 1 + lag
    ensures Run(az, states, moves, lag) && states[0] == s
    ensures forall i :: 0 <= i < |states| ==> PendingFor(states[i].pending, organization) <= c
    ensures HighWater(states, organization) == MaxProjects(s, organization)
    ensures Owned(states[|moves|], organization) == HighWater(states, organization) + c - 1 + lag
  {
    var limit := MaxProjects(s, organization);
    assert [s][..0] == [] && W.ProjectsOf(s.store.projects, organization) == {};
    var before := limit - 1 + lag;
    states, moves := FillUp(az, [s], [], ps, before, u, organization, lag, c, limit);
    states, moves := BatchCommits(az, states, moves, ps[before..], u, organization, lag, c, limit);
  }
}
