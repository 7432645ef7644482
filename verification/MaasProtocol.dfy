/**
  The finalizer protocol around the AITenant of one configuration name, in small steps. Users and
  the environment act between any two steps of the controller, the controller may stop anywhere,
  and its cache of the configuration may lag: it only never goes back to a version older than one it
  has shown. The AITenant is read uncached.
 */
module MaasProtocol {
  import opened Objects
  import opened Rendering

  const GROUP_VERSION := "organization.opendatahub.io/v1alpha1"
  const CONFIGURATION_KIND := "MaaSConfiguration"

  datatype Uid = ConfigurationUid(n: nat) | OtherUid(id: string)
  datatype OwnerReference = OwnerReference(apiVersion: string, kind: string, name: string, uid: Uid, controller: bool)

  /** `held` says that finalizers of other parties delay the deletion. */
  datatype AITenant = AITenant(
    owners: seq<OwnerReference>, labels: map<string, string>, doc: Document, held: bool, deleting: bool)

  /** The first owner marked as controller. */
  function ControllerOf(owners: seq<OwnerReference>): Option<OwnerReference> {
    if owners == [] then None
    else if owners[0].controller then Some(owners[0])
    else ControllerOf(owners[1..])
  }

  predicate Controlled(t: Option<AITenant>, uid: nat) {
    && t.Some? && ControllerOf(t.value.owners).Some?
    && ControllerOf(t.value.owners).value.uid == ConfigurationUid(uid)
  }

  predicate ControlledByAny(t: Option<AITenant>) {
    t.Some? && ControllerOf(t.value.owners).Some? && ControllerOf(t.value.owners).value.uid.ConfigurationUid?
  }

  predicate Live(t: Option<AITenant>) {
    t.Some? && !t.value.deleting
  }

  // ---------------------------------------------------------------- the controller's position

  datatype Worker =
    | Idle
    // provisioning: read without the finalizer; finalizer known stored; AITenant read
    | Provisioning(copy: Configuration, at: nat)
    | Guarded(copy: Configuration)
    | Looked(copy: Configuration, found: Option<AITenant>)
    // cleanup: read as deleting; AITenant read; AITenant deleted
    | Cleaning(copy: Configuration, at: nat)
    | Checked(copy: Configuration, at: nat, controlled: bool)
    | Released(copy: Configuration, at: nat)

  /** Everything stored under one name: all versions of the configuration (the last is current) and the AITenant. */
  datatype Slot = Slot(versions: seq<Option<Configuration>>, seen: nat, worker: Worker, tenant: Option<AITenant>)

  const INITIAL := Slot([None], 0, Idle, None)

  predicate WellFormed(s: Slot) {
    |s.versions| > 0 && s.seen < |s.versions|
  }

  function Last(s: Slot): nat
    requires WellFormed(s)
  {
    |s.versions| - 1
  }

  function Current(s: Slot): Option<Configuration>
    requires WellFormed(s)
  {
    s.versions[Last(s)]
  }

  function Append(s: Slot, c: Option<Configuration>): Slot {
    s.(versions := s.versions + [c])
  }

  /** A deleted configuration is gone once it has no finalizers. */
  function Kept(c: Configuration): Option<Configuration> {
    if c.deleting && c.finalizers == {} then None else Some(c)
  }

  // ---------------------------------------------------------------- steps

  datatype Step =
    | UserCreate(c: Configuration)
    | UserUpdate(c: Configuration)
    | UserDelete
    | Environment(t: Option<AITenant>)
    | Read(at: nat)
    | AddFinalizer
    | LookUp
    | Write(written: AITenant)
    | Check
    | DeleteTenant
    | RemoveFinalizer
    | Stop

  /** Users never touch the cleanup finalizer, and nobody adds finalizers to a deleted object. */
  ghost predicate UserStep(s: Slot, st: Step, s': Slot)
    requires WellFormed(s)
  {
    match st
    case UserCreate(c) =>
      && Current(s).None? && !c.deleting && MAAS_FINALIZER !in c.finalizers
      && (forall i :: 0 <= i < |s.versions| && s.versions[i].Some? ==> s.versions[i].value.uid != c.uid)
      && s' == Append(s, Some(c))
    case UserUpdate(c) =>
      && Current(s).Some? && var o := Current(s).value;
      && c.uid == o.uid && c.deleting == o.deleting
      && (MAAS_FINALIZER in c.finalizers <==> MAAS_FINALIZER in o.finalizers)
      && (o.deleting ==> c.finalizers <= o.finalizers)
      && s' == Append(s, Kept(c))
    case UserDelete =>
      Current(s).Some? && s' == Append(s, Kept(Current(s).value.(deleting := true)))
    case Environment(t) =>
      // others may do as they like with the AITenant, short of making a configuration its controller
      && (ControlledByAny(t) ==> s.tenant.Some? && ControllerOf(t.value.owners) == ControllerOf(s.tenant.value.owners)
                                 && (s.tenant.value.deleting ==> t.value.deleting))
      && s' == s.(tenant := t)
    case _ => false
  }

  /** Writes of the configuration carry the version they were read at and fail on any other. */
  ghost predicate ProvisionStep(s: Slot, st: Step, s': Slot)
    requires WellFormed(s)
  {
    match st
    case Read(at) =>
      && s.worker.Idle? && s.seen <= at < |s.versions|
      && s' == s.(seen := at, worker :=
                match s.versions[at]
                case None => Idle
                case Some(c) =>
                  if c.deleting then Cleaning(c, at)
                  else if MAAS_FINALIZER in c.finalizers then Guarded(c)
                  else Provisioning(c, at))
    case AddFinalizer =>
      && s.worker.Provisioning? && s.worker.at == Last(s)
      && var c := WithFinalizer(s.worker.copy);
      s' == Append(s, Some(c)).(worker := Guarded(c))
    case LookUp =>
      s.worker.Guarded? && s' == s.(worker := Looked(s.worker.copy, s.tenant))
    case Write(t) =>
      && s.worker.Looked? && s.tenant == s.worker.found
      && (if s.tenant.None? then Controlled(Some(t), s.worker.copy.uid) && !t.deleting
          else && Controlled(s.tenant, s.worker.copy.uid) && t.owners == s.tenant.value.owners
               && t.deleting == s.tenant.value.deleting)
      && s' == s.(tenant := Some(t), worker := Idle)
    case Stop => s' == s.(worker := Idle)
    case _ => false
  }

  function AfterDelete(t: Option<AITenant>): Option<AITenant> {
    if t.None? || !t.value.held then None else Some(t.value.(deleting := true))
  }

  ghost predicate CleanupStep(s: Slot, st: Step, s': Slot)
    requires WellFormed(s)
  {
    match st
    case Check =>
      && s.worker.Cleaning?
      && s' == s.(worker := Checked(s.worker.copy, s.worker.at, Controlled(s.tenant, s.worker.copy.uid)))
    case DeleteTenant =>
      // deletes whatever is stored under the name by now
      && s.worker.Checked? && s.worker.controlled
      && s' == s.(tenant := AfterDelete(s.tenant), worker := Released(s.worker.copy, s.worker.at))
    case RemoveFinalizer =>
      && (s.worker.Released? || (s.worker.Checked? && !s.worker.controlled)) && s.worker.at == Last(s)
      && s' == Append(s, Kept(WithoutFinalizer(s.worker.copy))).(worker := Idle)
    case _ => false
  }

  ghost predicate Next(s: Slot, st: Step, s': Slot) {
    WellFormed(s) && (UserStep(s, st, s') || ProvisionStep(s, st, s') || CleanupStep(s, st, s'))
  }

  // ---------------------------------------------------------------- the invariant

  /** The configuration with this uid is stored and carries the cleanup finalizer. */
  ghost predicate Guards(s: Slot, uid: nat)
    requires WellFormed(s)
  {
    Current(s).Some? && Current(s).value.uid == uid && MAAS_FINALIZER in Current(s).value.finalizers
  }

  /** The property: a live AITenant controlled by a configuration is guarded by it. */
  ghost predicate NoOrphan(s: Slot) {
    WellFormed(s) && forall uid :: Live(s.tenant) && Controlled(s.tenant, uid) ==> Guards(s, uid)
  }

  /** Whatever version the cache may still show as guarded and undeleted is guarded now. */
  ghost predicate CacheIsHonest(s: Slot)
    requires WellFormed(s)
  {
    forall i :: s.seen <= i < |s.versions| && s.versions[i].Some?
             && !s.versions[i].value.deleting && MAAS_FINALIZER in s.versions[i].value.finalizers
             ==> Guards(s, s.versions[i].value.uid)
  }

  ghost predicate WorkerIsHonest(s: Slot)
    requires WellFormed(s)
  {
    match s.worker
    case Idle => true
    case Provisioning(copy, at) => at == s.seen && s.versions[at] == Some(copy) && !copy.deleting
    case Guarded(copy) => Guards(s, copy.uid)
    case Looked(copy, _) => Guards(s, copy.uid)
    case Cleaning(copy, at) => at == s.seen && s.versions[at] == Some(copy) && copy.deleting
    case Checked(copy, at, controlled) =>
      && at == s.seen && s.versions[at] == Some(copy) && copy.deleting
      && (!controlled ==> !(Live(s.tenant) && Controlled(s.tenant, copy.uid)))
    case Released(copy, at) =>
      && at == s.seen && s.versions[at] == Some(copy) && copy.deleting
      && !(Live(s.tenant) && Controlled(s.tenant, copy.uid))
  }

  ghost predicate Inv(s: Slot) {
    NoOrphan(s) && CacheIsHonest(s) && WorkerIsHonest(s)
  }

  lemma UserStepKeepsInv(s: Slot, st: Step, s': Slot)
    requires Inv(s) && UserStep(s, st, s')
    ensures Inv(s')
  {
    forall uid | Live(s'.tenant) && Controlled(s'.tenant, uid) ensures Live(s.tenant) && Controlled(s.tenant, uid) {
      assert ControlledByAny(s'.tenant);
    }
  }

  lemma ProvisionStepKeepsInv(s: Slot, st: Step, s': Slot)
    requires Inv(s) && ProvisionStep(s, st, s')
    ensures Inv(s')
  {
  }

  lemma CleanupStepKeepsInv(s: Slot, st: Step, s': Slot)
    requires Inv(s) && CleanupStep(s, st, s')
    ensures Inv(s')
  {
  }

  lemma NextKeepsInv(s: Slot, st: Step, s': Slot)
    requires Inv(s) && Next(s, st, s')
    ensures Inv(s')
  {
    if UserStep(s, st, s') {
      UserStepKeepsInv(s, st, s');
    } else if ProvisionStep(s, st, s') {
      ProvisionStepKeepsInv(s, st, s');
    } else {
      CleanupStepKeepsInv(s, st, s');
    }
  }

  // ---------------------------------------------------------------- all names together

  type System = map<string, Slot>

  function SlotOf(sys: System, name: string): Slot {
    if name in sys then sys[name] else INITIAL
  }

  datatype Event = Event(name: string, step: Step)

  ghost predicate SystemNext(sys: System, e: Event, sys': System) {
    sys' == sys[e.name := SlotOf(sys', e.name)] && Next(SlotOf(sys, e.name), e.step, SlotOf(sys', e.name))
  }

  ghost predicate EventAt(states: seq<System>, events: seq<Event>, k: nat)
    requires k < |events| && |states| == |events| + 1
  {
    SystemNext(states[k], events[k], states[k + 1])
  }

  ghost predicate Run(states: seq<System>, events: seq<Event>) {
    |states| == |events| + 1 && forall k: nat :: k < |events| ==> EventAt(states, events, k)
  }

  lemma RunPrefix(states: seq<System>, events: seq<Event>, n: nat)
    requires Run(states, events) && n <= |events|
    ensures Run(states[..n + 1], events[..n])
  {
    var earlier, done := states[..n + 1], events[..n];
    forall k: nat | k < |done| ensures EventAt(earlier, done, k) {
      assert EventAt(states, events, k);
    }
  }

  lemma RunExtends(states: seq<System>, events: seq<Event>, e: Event, sys: System)
    requires Run(states, events) && SystemNext(states[|events|], e, sys)
    ensures Run(states + [sys], events + [e])
  {
    var states', events' := states + [sys], events + [e];
    forall k: nat | k < |events'| ensures EventAt(states', events', k) {
      assert k < |events| ==> EventAt(states, events, k);
    }
  }

  /** In every run, whatever the interleaving, no live AITenant outlives the configuration that controls it. */
  lemma {:induction false} NoOrphanedTenant(states: seq<System>, events: seq<Event>, name: string)
    requires Run(states, events) && states[0] == map[]
    ensures Inv(SlotOf(states[|events|], name)) && NoOrphan(SlotOf(states[|events|], name))
    decreases |events|
  {
    var n := |events|;
    if n > 0 {
      RunPrefix(states, events, n - 1);
      NoOrphanedTenant(states[..n], events[..n - 1], name);
      assert EventAt(states, events, n - 1);
      if events[n - 1].name == name {
        NextKeepsInv(SlotOf(states[n - 1], name), events[n - 1].step, SlotOf(states[n], name));
      }
    }
  }

  // ---------------------------------------------------------------- what the deletion hits

  /** Steps of users and of the environment, as opposed to those of the controller. */
  predicate FromOutside(st: Step) {
    st.UserCreate? || st.UserUpdate? || st.UserDelete? || st.Environment?
  }

  /** The controller makes no step on the name after event i and before event j. */
  ghost predicate ControllerRests(events: seq<Event>, name: string, i: nat, j: nat)
    requires j <= |events|
  {
    forall k :: i < k < j && events[k].name == name ==> FromOutside(events[k].step)
  }

  /** What the last environment step on the name between events i and j left there; None without such a step. */
  function LastLeft(events: seq<Event>, name: string, i: nat, j: nat): Option<Option<AITenant>>
    requires i < j <= |events|
  {
    if j == i + 1 then None
    else if events[j - 1].name == name && events[j - 1].step.Environment? then Some(events[j - 1].step.t)
    else LastLeft(events, name, i, j - 1)
  }

  lemma OutsideStepsKeepPosition(s: Slot, st: Step, s': Slot)
    requires Next(s, st, s') && FromOutside(st)
    ensures s'.worker == s.worker && s'.tenant == if st.Environment? then st.t else s.tenant
  {
  }

  /** While the controller rests, its position stays and the AITenant is what the environment made of it. */
  lemma {:induction false} RestingKeepsPosition(states: seq<System>, events: seq<Event>, name: string, i: nat, j: nat)
    requires Run(states, events) && i < j <= |events| && ControllerRests(events, name, i, j)
    ensures SlotOf(states[j], name).worker == SlotOf(states[i + 1], name).worker
    ensures var left := LastLeft(events, name, i, j);
            SlotOf(states[j], name).tenant == if left.Some? then left.value else SlotOf(states[i + 1], name).tenant
    decreases j
  {
    if j > i + 1 {
      RestingKeepsPosition(states, events, name, i, j - 1);
      assert EventAt(states, events, j - 1);
      if events[j - 1].name == name {
        OutsideStepsKeepPosition(SlotOf(states[j - 1], name), events[j - 1].step, SlotOf(states[j], name));
      }
    }
  }

  /**
    The deletion names the AITenant but not its uid. It hits the configuration's own AITenant
    exactly when the environment did not touch the name since the check, or last left it under the
    same control; it hits somebody else's exactly when that is what the environment last left there.
   */
  lemma DeletionHitsOwnExactly(states: seq<System>, events: seq<Event>, name: string, i: nat, j: nat)
    requires Run(states, events) && i < j < |events| && ControllerRests(events, name, i, j)
    requires events[i] == Event(name, Check) && events[j] == Event(name, DeleteTenant)
    ensures SlotOf(states[j], name).worker.Checked?
    ensures var hit, uid := SlotOf(states[j], name).tenant, SlotOf(states[j], name).worker.copy.uid;
            var left := LastLeft(events, name, i, j);
            && (Controlled(hit, uid) <==> left.None? || Controlled(left.value, uid))
            && (hit.Some? && !Controlled(hit, uid) <==> left.Some? && left.value.Some? && !Controlled(left.value, uid))
            && SlotOf(states[j + 1], name).tenant == AfterDelete(hit)
  {
    assert EventAt(states, events, i) && EventAt(states, events, j);
    RestingKeepsPosition(states, events, name, i, j);
  }

  /** Steps on one name from the initial slot are a run from the empty system. */
  lemma RunOfOneName(name: string, slots: seq<Slot>, steps: seq<Step>) returns (states: seq<System>, events: seq<Event>)
    requires |slots| == |steps| + 1 && slots[0] == INITIAL
    requires forall i :: 0 <= i < |steps| ==> Next(slots[i], steps[i], slots[i + 1])
    ensures Run(states, events) && states[0] == map[] && |events| == |steps|
    ensures forall i :: 0 <= i < |steps| ==> events[i] == Event(name, steps[i])
    ensures forall i :: 0 <= i <= |steps| ==> SlotOf(states[i], name) == slots[i]
  {
    states, events := [map[]], [];
    for n := 0 to |steps|
      invariant |states| == n + 1 && |events| == n && Run(states, events) && states[0] == map[]
      invariant states[n].Keys <= {name}
      invariant forall i :: 0 <= i < n ==> events[i] == Event(name, steps[i])
      invariant forall i :: 0 <= i <= n ==> SlotOf(states[i], name) == slots[i]
    {
      var sys, e := states[n][name := slots[n + 1]], Event(name, steps[n]);
      RunExtends(states, events, e, sys);
      states, events := states + [sys], events + [e];
    }
  }

  /** A configuration is provisioned, deleted and checked; then a foreign AITenant takes the name. */
  function ReplacementSlots(c: Configuration, own: AITenant, foreign: AITenant): seq<Slot> {
    var guarded := WithFinalizer(c);
    var deleted := guarded.(deleting := true);
    var created := [None, Some(c)];
    var finalized := [None, Some(c), Some(guarded)];
    var marked := [None, Some(c), Some(guarded), Some(deleted)];
    [ INITIAL,
      Slot(created, 0, Idle, None),
      Slot(created, 1, Provisioning(c, 1), None),
      Slot(finalized, 1, Guarded(guarded), None),
      Slot(finalized, 1, Looked(guarded, None), None),
      Slot(finalized, 1, Idle, Some(own)),
      Slot(marked, 1, Idle, Some(own)),
      Slot(marked, 3, Cleaning(deleted, 3), Some(own)),
      Slot(marked, 3, Checked(deleted, 3, true), Some(own)),
      Slot(marked, 3, Checked(deleted, 3, true), Some(foreign)),
      Slot(marked, 3, Released(deleted, 3), None) ]
  }

  function ReplacementSteps(c: Configuration, own: AITenant, foreign: AITenant): seq<Step> {
    [UserCreate(c), Read(1), AddFinalizer, LookUp, Write(own), UserDelete, Read(3), Check,
     Environment(Some(foreign)), DeleteTenant]
  }

  lemma ReplacementIsPossible(c: Configuration, own: AITenant, foreign: AITenant, i: nat)
    requires !c.deleting && MAAS_FINALIZER !in c.finalizers
    requires Controlled(Some(own), c.uid) && !own.deleting
    requires !ControlledByAny(Some(foreign)) && !foreign.held
    requires i < 10
    ensures var slots := ReplacementSlots(c, own, foreign);
            Next(slots[i], ReplacementSteps(c, own, foreign)[i], slots[i + 1])
  {
    assert MAAS_FINALIZER in WithFinalizer(c).finalizers;
  }

  /**
    And this does happen: a run from the empty system in which the configuration's own AITenant
    passes the check, is replaced by a foreign one, and the foreign one is deleted.
   */
  lemma CleanupMayDeleteForeignTenant(c: Configuration, own: AITenant, foreign: AITenant)
    returns (states: seq<System>, events: seq<Event>)
    requires !c.deleting && MAAS_FINALIZER !in c.finalizers
    requires Controlled(Some(own), c.uid) && !own.deleting
    requires !ControlledByAny(Some(foreign)) && !foreign.held
    ensures Run(states, events) && states[0] == map[] && |events| == 10
    ensures events[7..] == [Event(c.name, Check),
                            Event(c.name, Environment(Some(foreign))),
                            Event(c.name, DeleteTenant)]
    ensures SlotOf(states[7], c.name).tenant == Some(own) && SlotOf(states[9], c.name).tenant == Some(foreign)
    ensures SlotOf(states[10], c.name).tenant == None
  {
    var slots, steps := ReplacementSlots(c, own, foreign), ReplacementSteps(c, own, foreign);
    forall i | 0 <= i < 10 ensures Next(slots[i], steps[i], slots[i + 1]) {
      ReplacementIsPossible(c, own, foreign, i);
    }
    states, events := RunOfOneName(c.name, slots, steps);
  }
}
