/** The MaaS controller's code, call by call, as runs of the finalizer protocol. */
module MaasController {
  import opened Objects
  import opened Rendering
  import opened Authz
  import opened MaasProtocol
  import W = Webhooks

  const MANAGED_BY_LABEL := "maas.opendatahub.io/managed-by"
  const MANAGED_BY := "tenancy-operator"
  const MAX_NAME := 41

  datatype Outcome = Done | CapabilityMissing | RootRequired | NameTooLong | NotOwned | ApiError | RenderError

  // ---------------------------------------------------------------- events back to the configuration

  predicate IsConfigurationController(o: OwnerReference) {
    o.apiVersion == GROUP_VERSION && o.kind == CONFIGURATION_KIND && o.controller
  }

  function Mapped(owners: seq<OwnerReference>): seq<string> {
    if owners == [] then []
    else if IsConfigurationController(owners[0]) then [owners[0].name]
    else Mapped(owners[1..])
  }

  /** Which configuration an AITenant event wakes up. */
  method MapAITenant(owners: seq<OwnerReference>) returns (requests: seq<string>)
    ensures requests == Mapped(owners)
  {
    for i := 0 to |owners|
      invariant Mapped(owners) == Mapped(owners[i..])
    {
      if IsConfigurationController(owners[i]) { return [owners[i].name]; }
    }
    return [];
  }

  /**
    With the single controller the API allows, events go to the controller if it is a
    configuration, and nowhere else.
   */
  lemma {:induction false} EventsFollowTheController(owners: seq<OwnerReference>)
    requires forall i, j :: 0 <= i < j < |owners| ==> !(owners[i].controller && owners[j].controller)
    ensures Mapped(owners) ==
            var c := ControllerOf(owners);
            if c.Some? && c.value.apiVersion == "organization.opendatahub.io/v1alpha1"
               && c.value.kind == "MaaSConfiguration"
            then [c.value.name] else []
  {
    if owners != [] {
      if owners[0].controller {
        NoControllerNoEvent(owners[1..]);
      } else {
        EventsFollowTheController(owners[1..]);
      }
    }
  }

  lemma {:induction false} NoControllerNoEvent(owners: seq<OwnerReference>)
    requires forall i :: 0 <= i < |owners| ==> !owners[i].controller
    ensures Mapped(owners) == []
  {
    if owners != [] { NoControllerNoEvent(owners[1..]); }
  }

  /** The owners of an AITenant this controller creates. */
  function OwnersFor(c: Configuration, organization: Organization): seq<OwnerReference> {
    [OwnerReference(GROUP_VERSION, CONFIGURATION_KIND, c.name, ConfigurationUid(c.uid), true),
     OwnerReference(GROUP_VERSION, "Organization", organization.name, OtherUid(organization.name), false)]
  }

  function LabelsFor(labels: map<string, string>, organization: string): map<string, string> {
    labels[ORGANIZATION_LABEL := organization][MANAGED_BY_LABEL := MANAGED_BY]
  }

  /** What a reconcile of c makes of the AITenant under its name; None when the document cannot be rendered. */
  function Desired(existing: Option<AITenant>, c: Configuration, organization: Organization,
                   profile: Profile): Option<AITenant> {
    var base := if existing.Some? then existing.value
                else AITenant(OwnersFor(c, organization), map[], map[], false, false);
    match Rendered(base.doc, c.spec, profile.spec)
    case None => None
    case Some(doc) => Some(base.(labels := LabelsFor(base.labels, c.spec.organizationRef), doc := doc))
  }

  /**
    What is written by value: owners, labels and everything that is kept. The document is a
    rendering of the old one.
   */
  lemma DesiredExactly(existing: Option<AITenant>, c: Configuration, organization: Organization, profile: Profile,
                       t: AITenant)
    requires Desired(existing, c, organization, profile) == Some(t)
    ensures var labels := if existing.Some? then existing.value.labels else map[];
            && t.labels.Keys == labels.Keys + {"organization.opendatahub.io/name", "maas.opendatahub.io/managed-by"}
            && t.labels["organization.opendatahub.io/name"] == c.spec.organizationRef
            && t.labels["maas.opendatahub.io/managed-by"] == "tenancy-operator"
            && (forall l ::
                  l in labels.Keys - {"organization.opendatahub.io/name", "maas.opendatahub.io/managed-by"} ==>
                    t.labels[l] == labels[l])
    ensures if existing.Some?
            then
              && t.owners == existing.value.owners
              && t.held == existing.value.held && t.deleting == existing.value.deleting
            else
              && !t.held && !t.deleting
              && t.owners
              == [OwnerReference("organization.opendatahub.io/v1alpha1", "MaaSConfiguration", c.name,
                                 ConfigurationUid(c.uid), true),
                  OwnerReference("organization.opendatahub.io/v1alpha1", "Organization", organization.name,
                                 OtherUid(organization.name), false)]
    ensures Rendered(if existing.Some? then existing.value.doc else map[], c.spec, profile.spec) == Some(t.doc)
  {
    assert ORGANIZATION_LABEL[0] != MANAGED_BY_LABEL[0];
  }

  /**
    So every edit reaches the AITenant: after a provisioning reconcile the quotas and the labels
    stored are those of the configuration, whatever was stored before.
   */
  lemma EditsReachTheTenant(before: Contents, after: Contents, c: Configuration, p: Progress,
                            orgs: map<string, Organization>, profiles: map<string, Profile>)
    requires Reconciled(before, after, c, p, orgs, profiles) && p.TenantWritten?
    requires c.name in before.tenants ==> SpecUsable(before.tenants[c.name].doc)
    ensures c.name in after.tenants
    ensures var t := after.tenants[c.name];
            && "organization.opendatahub.io/name" in t.labels
            && t.labels["organization.opendatahub.io/name"] == c.spec.organizationRef
            && match c.spec.quotas
               case None => "resourceQuotas" !in SpecFields(t.doc)
               case Some(q) =>
                 && "resourceQuotas" in SpecFields(t.doc)
                 && SpecFields(t.doc)["resourceQuotas"]
                 == Object(map["maxModels" := Number(q.maxModels), "maxSubscriptions" := Number(q.maxSubscriptions),
                               "maxApiKeys" := Number(q.maxApiKeys)])
  {
    var existing := before.At(c.name).tenant;
    DesiredExactly(existing, c, orgs[c.name], profiles[c.name], p.t);
    RenderedExactly(if existing.Some? then existing.value.doc else map[], c.spec, profiles[c.name].spec, p.t.doc);
  }

  /** Clearing by value: the configuration is gone exactly when that was the last finalizer of a deleted object. */
  lemma ClearedExactly(c: Configuration, tenant: Option<AITenant>)
    ensures var others := c.finalizers - {"organization.opendatahub.io/maas-cleanup"};
            After(c, tenant, FinalizerCleared).configuration
            == if c.deleting && others == {} then None else Some(c.(finalizers := others))
    ensures var t := After(c, tenant, FinalizerCleared).tenant;
            if Controlled(tenant, c.uid) then t.None? || t.value.deleting else t == tenant
  {
  }

  /** An AITenant this controller creates is controlled by the configuration and sends its events back to exactly it. */
  lemma CreatedTenantMapsBack(c: Configuration, organization: Organization, profile: Profile, t: AITenant)
    requires Desired(None, c, organization, profile) == Some(t)
    ensures Controlled(Some(t), c.uid) && Mapped(t.owners) == [c.name]
  {
    assert t.owners == OwnersFor(c, organization);
    EventsFollowTheController(t.owners);
  }

  /** Owner references on a new object, then labels, then the rendered document. */
  method PrepareTenant(existing: Option<AITenant>, c: Configuration, organization: Organization, profile: Profile)
    returns (prepared: Option<AITenant>)
    ensures prepared == Desired(existing, c, organization, profile)
  {
    var tenant := if existing.Some? then existing.value
                  else AITenant(OwnersFor(c, organization), map[], map[], false, false);
    tenant := tenant.(labels := tenant.labels[ORGANIZATION_LABEL := c.spec.organizationRef]);
    tenant := tenant.(labels := tenant.labels[MANAGED_BY_LABEL := MANAGED_BY]);
    var obj := new Unstructured(tenant.doc);
    var ok := obj.Render(c.spec, profile.spec);
    if !ok { return None; }
    return Some(tenant.(doc := obj.doc));
  }

  // ---------------------------------------------------------------- protocol traces

  ghost predicate Joined(s: Slot, s': Slot) {
    exists st :: Next(s, st, s')
  }

  /** A step of the protocol leads from slot i to the next one. */
  ghost predicate JoinedAt(slots: seq<Slot>, i: nat)
    requires i + 1 < |slots|
  {
    Joined(slots[i], slots[i + 1])
  }

  /** A sequence of slots joined by protocol steps. */
  ghost predicate Trace(slots: seq<Slot>) {
    |slots| > 0 && forall i: nat :: i + 1 < |slots| ==> JoinedAt(slots, i)
  }

  lemma TraceExtends(slots: seq<Slot>, st: Step, s: Slot)
    requires Trace(slots) && Next(slots[|slots| - 1], st, s)
    ensures Trace(slots + [s])
  {
    var longer := slots + [s];
    forall i: nat | i + 1 < |longer| ensures JoinedAt(longer, i) {
      if i + 1 < |slots| {
        assert JoinedAt(slots, i);
      } else {
        assert Next(longer[i], st, longer[i + 1]);
      }
    }
  }

  /** How far a reconcile got before it stopped. */
  datatype Progress = Begun | FinalizerSet | TenantWritten(t: AITenant) | TenantDropped | FinalizerCleared

  /** What is stored under the name of c after an undisturbed reconcile that got as far as p. */
  datatype Entry = Entry(configuration: Option<Configuration>, tenant: Option<AITenant>)

  function Dropped(tenant: Option<AITenant>, uid: nat): Option<AITenant> {
    if Controlled(tenant, uid) then AfterDelete(tenant) else tenant
  }

  function After(c: Configuration, tenant: Option<AITenant>, p: Progress): Entry {
    match p
    case Begun => Entry(Some(c), tenant)
    case FinalizerSet => Entry(Some(WithFinalizer(c)), tenant)
    case TenantWritten(t) => Entry(Some(WithFinalizer(c)), Some(t))
    case TenantDropped => Entry(Some(c), Dropped(tenant, c.uid))
    case FinalizerCleared => Entry(Kept(WithoutFinalizer(c)), Dropped(tenant, c.uid))
  }

  /** The controller is free to reconcile c, the current configuration of the slot. */
  ghost predicate Ready(v: Slot, c: Configuration) {
    WellFormed(v) && v.worker.Idle? && Current(v) == Some(c)
  }

  /** The slot stores this entry, and the controller is done with it. */
  ghost predicate Rests(v: Slot, entry: Entry) {
    WellFormed(v) && v.worker.Idle? && Current(v) == entry.configuration && v.tenant == entry.tenant
  }

  lemma StopTrace(slots: seq<Slot>) returns (r: seq<Slot>)
    requires Trace(slots) && WellFormed(slots[|slots| - 1])
    ensures Trace(r) && r[0] == slots[0] && r[|r| - 1] == slots[|slots| - 1].(worker := Idle)
  {
    var s := slots[|slots| - 1].(worker := Idle);
    TraceExtends(slots, Stop, s);
    r := slots + [s];
  }

  /** Cleanup, wherever it stops, is a run of the protocol. */
  lemma CleanupIsTrace(v: Slot, c: Configuration, p: Progress) returns (slots: seq<Slot>)
    requires Ready(v, c) && c.deleting && (p.Begun? || p.TenantDropped? || p.FinalizerCleared?)
    ensures Trace(slots) && slots[0] == v && Rests(slots[|slots| - 1], After(c, v.tenant, p))
  {
    var at := Last(v);
    slots := [v];
    var s := v.(seen := at, worker := Cleaning(c, at));
    TraceExtends(slots, Read(at), s);
    slots := slots + [s];
    if !p.Begun? {
      s := s.(worker := Checked(c, at, Controlled(v.tenant, c.uid)));
      TraceExtends(slots, Check, s);
      slots := slots + [s];
      if Controlled(v.tenant, c.uid) {
        s := s.(tenant := AfterDelete(v.tenant), worker := Released(c, at));
        TraceExtends(slots, DeleteTenant, s);
        slots := slots + [s];
      }
      if p.FinalizerCleared? {
        s := Append(s, Kept(WithoutFinalizer(c))).(worker := Idle);
        TraceExtends(slots, RemoveFinalizer, s);
        slots := slots + [s];
        return;
      }
    }
    slots := StopTrace(slots);
  }

  /** Up to the stored finalizer. */
  lemma GuardingIsTrace(v: Slot, c: Configuration) returns (slots: seq<Slot>)
    requires Ready(v, c) && !c.deleting
    ensures Trace(slots) && slots[0] == v
    ensures var s := slots[|slots| - 1];
            && WellFormed(s) && s.worker == Guarded(WithFinalizer(c))
            && Current(s) == Some(WithFinalizer(c)) && s.tenant == v.tenant
  {
    var at := Last(v);
    slots := [v];
    var guarded := Guarded(WithFinalizer(c));
    if MAAS_FINALIZER in c.finalizers {
      assert WithFinalizer(c) == c;
      TraceExtends(slots, Read(at), v.(seen := at, worker := guarded));
      slots := slots + [v.(seen := at, worker := guarded)];
    } else {
      var read := v.(seen := at, worker := Provisioning(c, at));
      TraceExtends(slots, Read(at), read);
      slots := slots + [read];
      var s := Append(read, Some(WithFinalizer(c))).(worker := guarded);
      TraceExtends(slots, AddFinalizer, s);
      slots := slots + [s];
    }
  }

  /** The AITenant t may be written for the configuration with this uid. */
  predicate Writable(tenant: Option<AITenant>, uid: nat, t: AITenant) {
    if tenant.None? then Controlled(Some(t), uid) && !t.deleting
    else Controlled(tenant, uid) && t.owners == tenant.value.owners && t.deleting == tenant.value.deleting
  }

  /** From the stored finalizer to the written AITenant. */
  lemma WritingIsTrace(slots: seq<Slot>, copy: Configuration, t: AITenant) returns (r: seq<Slot>)
    requires Trace(slots)
    requires var s := slots[|slots| - 1];
             WellFormed(s) && s.worker == Guarded(copy) && Writable(s.tenant, copy.uid, t)
    ensures Trace(r) && r[0] == slots[0]
    ensures r[|r| - 1] == slots[|slots| - 1].(tenant := Some(t), worker := Idle)
  {
    var s := slots[|slots| - 1];
    var looked := s.(worker := Looked(copy, s.tenant));
    TraceExtends(slots, LookUp, looked);
    TraceExtends(slots + [looked], Write(t), s.(tenant := Some(t), worker := Idle));
    r := slots + [looked] + [s.(tenant := Some(t), worker := Idle)];
  }

  /** Provisioning, wherever it stops, is a run of the protocol. */
  lemma ProvisioningIsTrace(v: Slot, c: Configuration, p: Progress) returns (slots: seq<Slot>)
    requires Ready(v, c) && !c.deleting && (p.Begun? || p.FinalizerSet? || p.TenantWritten?)
    requires p.TenantWritten? ==> Writable(v.tenant, c.uid, p.t)
    ensures Trace(slots) && slots[0] == v && Rests(slots[|slots| - 1], After(c, v.tenant, p))
  {
    if p.Begun? {
      slots := StopTrace([v]);
    } else {
      slots := GuardingIsTrace(v, c);
      if p.FinalizerSet? {
        slots := StopTrace(slots);
      } else {
        slots := WritingIsTrace(slots, WithFinalizer(c), p.t);
      }
    }
  }

  // ---------------------------------------------------------------- the whole store

  /** The configurations and AITenants the controller works on. */
  datatype Contents = Contents(configurations: map<string, Configuration>, tenants: map<string, AITenant>) {
    function At(name: string): Entry {
      Entry(if name in configurations then Some(configurations[name]) else None,
            if name in tenants then Some(tenants[name]) else None)
    }
  }

  /** The progress is one that reconciling c can make, and an AITenant it wrote is the desired one. */
  ghost predicate Reachable(p: Progress, c: Configuration, tenant: Option<AITenant>,
                            orgs: map<string, Organization>, profiles: map<string, Profile>) {
    && (if c.deleting then p.Begun? || p.TenantDropped? || p.FinalizerCleared?
        else p.Begun? || p.FinalizerSet? || p.TenantWritten?)
    && (p.TenantWritten? ==>
          && (tenant.Some? ==> Controlled(tenant, c.uid))
          && c.name in orgs && c.name in profiles
          && Desired(tenant, c, orgs[c.name], profiles[c.name]) == Some(p.t))
  }

  /**
    A reconcile of c took the store from `before` to `after`: under its own name as far as it got,
    and nothing under any other name.
   */
  ghost predicate Reconciled(before: Contents, after: Contents, c: Configuration, p: Progress,
                             orgs: map<string, Organization>, profiles: map<string, Profile>) {
    && before.At(c.name).configuration == Some(c)
    && Reachable(p, c, before.At(c.name).tenant, orgs, profiles)
    && after.At(c.name) == After(c, before.At(c.name).tenant, p)
    && forall n :: n != c.name ==> after.At(n) == before.At(n)
  }

  lemma ProvisionedUnderName(before: Contents, after: Contents, c: Configuration, p: Progress,
                             orgs: map<string, Organization>, profiles: map<string, Profile>)
    requires before.At(c.name).configuration == Some(c) && !c.deleting && (p.FinalizerSet? || p.TenantWritten?)
    requires Reachable(p, c, before.At(c.name).tenant, orgs, profiles)
    requires after.configurations == before.configurations[c.name := WithFinalizer(c)]
    requires after.tenants == if p.TenantWritten? then before.tenants[c.name := p.t] else before.tenants
    ensures Reconciled(before, after, c, p, orgs, profiles)
  {
  }

  /** No AITenant but the one under this name that c controls is touched. */
  lemma OthersKept(before: Contents, after: Contents, c: Configuration, p: Progress,
                   orgs: map<string, Organization>, profiles: map<string, Profile>, n: string)
    requires Reconciled(before, after, c, p, orgs, profiles)
    requires n != c.name || !Controlled(before.At(n).tenant, c.uid)
    ensures before.At(n).tenant.Some? ==> after.At(n).tenant == before.At(n).tenant
  {
  }

  /** Every name of the system stores what the objects hold. */
  ghost predicate Represents(sys: System, objects: Contents) {
    forall n: string ::
      var v := SlotOf(sys, n);
      WellFormed(v) && Current(v) == objects.At(n).configuration && v.tenant == objects.At(n).tenant
  }

  /** The stored objects themselves: a live AITenant is guarded by the configuration that controls it. */
  ghost predicate NothingOrphaned(objects: Contents) {
    forall n, uid :: var e := objects.At(n);
      Live(e.tenant) && Controlled(e.tenant, uid) ==>
        && e.configuration.Some? && e.configuration.value.uid == uid
        && MAAS_FINALIZER in e.configuration.value.finalizers
  }

  lemma RepresentedIsGuarded(states: seq<System>, events: seq<Event>, objects: Contents)
    requires Run(states, events) && states[0] == map[] && Represents(states[|events|], objects)
    ensures NothingOrphaned(objects)
  {
    forall n, uid | Live(objects.At(n).tenant) && Controlled(objects.At(n).tenant, uid)
      ensures Guards(SlotOf(states[|events|], n), uid)
    {
      NoOrphanedTenant(states, events, n);
    }
  }

  lemma TracePrefix(slots: seq<Slot>, n: nat)
    requires Trace(slots) && 0 < n <= |slots|
    ensures Trace(slots[..n])
  {
    var prefix := slots[..n];
    forall i: nat | i + 1 < |prefix| ensures JoinedAt(prefix, i) {
      assert JoinedAt(slots, i);
    }
  }

  /** One more step, on one name. */
  lemma RunGoesOn(states: seq<System>, events: seq<Event>, name: string, st: Step, v: Slot) returns (sys: System)
    requires Run(states, events) && Next(SlotOf(states[|events|], name), st, v)
    ensures Run(states + [sys], events + [Event(name, st)]) && SlotOf(sys, name) == v
    ensures forall n :: n != name ==> SlotOf(sys, n) == SlotOf(states[|events|], n)
  {
    sys := states[|events|][name := v];
    RunExtends(states, events, Event(name, st), sys);
  }

  /** A trace of one slot continues a run of the whole system. */
  lemma {:induction false} TraceContinuesRun(states0: seq<System>, events0: seq<Event>, name: string, slots: seq<Slot>)
    returns (states: seq<System>, events: seq<Event>)
    requires Run(states0, events0) && Trace(slots) && slots[0] == SlotOf(states0[|events0|], name)
    ensures Run(states, events) && states0 <= states && events0 <= events
    ensures SlotOf(states[|events|], name) == slots[|slots| - 1]
    ensures forall n :: n != name ==> SlotOf(states[|events|], n) == SlotOf(states0[|events0|], n)
    decreases |slots|
  {
    var last := |slots| - 1;
    if last == 0 {
      states, events := states0, events0;
    } else {
      TracePrefix(slots, last);
      states, events := TraceContinuesRun(states0, events0, name, slots[..last]);
      assert JoinedAt(slots, last - 1);
      var st :| Next(slots[last - 1], st, slots[last]);
      var sys := RunGoesOn(states, events, name, st, slots[last]);
      states, events := states + [sys], events + [Event(name, st)];
    }
  }

  /** One reconcile of the code from any slot, wherever it stopped, is a trace of the protocol. */
  lemma ReconcileIsTrace(v: Slot, c: Configuration, p: Progress, orgs: map<string, Organization>,
                         profiles: map<string, Profile>)
    returns (slots: seq<Slot>)
    requires Ready(v, c) && Reachable(p, c, v.tenant, orgs, profiles)
    ensures Trace(slots) && slots[0] == v && Rests(slots[|slots| - 1], After(c, v.tenant, p))
  {
    if c.deleting {
      slots := CleanupIsTrace(v, c, p);
    } else {
      if p.TenantWritten? && v.tenant.None? { CreatedTenantMapsBack(c, orgs[c.name], profiles[c.name], p.t); }
      slots := ProvisioningIsTrace(v, c, p);
    }
  }

  /**
    Code and protocol together: from a store that a run of the system has reached, with the
    controller idle on that name, a reconcile that stops anywhere reaches a store that a longer run
    reaches, with the controller idle again; so no AITenant of any name is orphaned, before or after.
   */
  lemma ReconcileIsProtocolRun(states0: seq<System>, events0: seq<Event>, before: Contents, after: Contents,
                               c: Configuration, p: Progress, orgs: map<string, Organization>,
                               profiles: map<string, Profile>)
    returns (states: seq<System>, events: seq<Event>)
    requires Run(states0, events0) && states0[0] == map[] && Represents(states0[|events0|], before)
    requires SlotOf(states0[|events0|], c.name).worker.Idle?
    requires Reconciled(before, after, c, p, orgs, profiles)
    ensures Run(states, events) && states0 <= states && events0 <= events
    ensures Represents(states[|events|], after) && SlotOf(states[|events|], c.name).worker.Idle?
    ensures NothingOrphaned(before) && NothingOrphaned(after)
  {
    var slots := ReconcileIsTrace(SlotOf(states0[|events0|], c.name), c, p, orgs, profiles);
    states, events := TraceContinuesRun(states0, events0, c.name, slots);
    RepresentedIsGuarded(states0, events0, before);
    RepresentedIsGuarded(states, events, after);
  }

  // ---------------------------------------------------------------- the client

  datatype TenantRead = Present(tenant: AITenant) | Absent | NoMatch | ReadFailed

  class Client {
    const fails: nat -> bool
    const crdInstalled: bool
    const az: Authorizer
    /** The operator's own identity. */
    const operator: UserInfo
    const orgs: map<string, Organization>
    const profiles: map<string, Profile>
    var calls: nat
    var configurations: map<string, Configuration>
    var tenants: map<string, AITenant>

    ghost predicate NoFaults() {
      forall n :: !fails(n)
    }

    /**
      Names agree with references, as in every state admitted by the webhooks; without its CRD
      there is no AITenant.
     */
    ghost predicate Valid()
      reads this
    {
      && Trusted(az, operator)
      && (!crdInstalled ==> tenants == map[])
      && (forall n :: n in configurations ==>
            n != "" && configurations[n].name == n && configurations[n].spec.organizationRef == n)
    }

    function Reading(): Reader
      reads this
    {
      Reader(orgs, profiles, map[], configurations, {})
    }

    predicate RootExists(name: string) {
      name in orgs && orgs[name].parent == ""
    }

    constructor (fails: nat -> bool, crdInstalled: bool, az: Authorizer, operator: UserInfo,
                 orgs: map<string, Organization>, profiles: map<string, Profile>,
                 configurations: map<string, Configuration>, tenants: map<string, AITenant>)
      ensures this.fails == fails && this.crdInstalled == crdInstalled && this.az == az && this.operator == operator
      ensures this.orgs == orgs && this.profiles == profiles
      ensures this.configurations == configurations && this.tenants == tenants && calls == 0
    {
      this.fails, this.crdInstalled, this.az, this.operator := fails, crdInstalled, az, operator;
      this.orgs, this.profiles, this.configurations, this.tenants, this.calls :=
        orgs, profiles, configurations, tenants, 0;
    }

    method Call() returns (ok: bool)
      modifies this`calls
      ensures NoFaults() ==> ok
    {
      ok := !fails(calls);
      calls := calls + 1;
    }

    /** An update of a configuration passes the configuration webhook like anybody else's. */
    method UpdateConfiguration(c: Configuration) returns (ok: bool)
      requires Valid() && c.name in configurations
      requires c.spec == configurations[c.name].spec && c.uid == configurations[c.name].uid
      modifies this`calls, this`configurations
      ensures Valid()
      ensures !ok ==> configurations == old(configurations)
      ensures ok ==> configurations == if Kept(c).None? then old(configurations) - {c.name}
                                       else old(configurations)[c.name := c]
      ensures ok ==> RootExists(c.name)
      ensures NoFaults() ==> (ok <==> RootExists(c.name))
    {
      assert !W.HasDuplicate(configurations, c);
      ok := Call();
      if W.UpdateConfiguration(az, Reading(), operator, configurations[c.name], c) != W.Admit { ok := false; }
      if ok {
        configurations := if Kept(c).None? then configurations - {c.name} else configurations[c.name := c];
      }
    }

    method GetTenant(name: string) returns (r: TenantRead)
      modifies this`calls
      ensures r.Present? ==> name in tenants && tenants[name] == r.tenant
      ensures r == Absent ==> name !in tenants
      ensures r == NoMatch ==> !crdInstalled
      ensures NoFaults() ==> r != ReadFailed
      ensures crdInstalled ==> r != NoMatch
    {
      var ok := Call();
      r := if !ok then ReadFailed
           else if !crdInstalled then NoMatch
           else if name in tenants then Present(tenants[name]) else Absent;
    }

    /** Create fails on an existing name. */
    method CreateTenant(name: string, t: AITenant) returns (ok: bool)
      requires crdInstalled && Valid()
      modifies this`calls, this`tenants
      ensures Valid()
      ensures tenants == if ok then old(tenants)[name := t] else old(tenants)
      ensures ok ==> name !in old(tenants)
      ensures NoFaults() ==> (ok <==> name !in old(tenants))
    {
      ok := Call();
      if name in tenants { ok := false; }
      if ok { tenants := tenants[name := t]; }
    }

    method UpdateTenant(name: string, t: AITenant) returns (ok: bool)
      requires Valid() && name in tenants
      modifies this`calls, this`tenants
      ensures Valid()
      ensures tenants == if ok then old(tenants)[name := t] else old(tenants)
      ensures NoFaults() ==> ok
    {
      ok := Call();
      if ok { tenants := tenants[name := t]; }
    }

    method DeleteAITenant(name: string) returns (ok: bool)
      requires Valid() && name in tenants
      modifies this`calls, this`tenants
      ensures Valid()
      ensures !ok ==> tenants == old(tenants)
      ensures ok ==> tenants == if AfterDelete(Some(old(tenants)[name])).None? then old(tenants) - {name}
                                else old(tenants)[name := AfterDelete(Some(old(tenants)[name])).value]
      ensures NoFaults() ==> ok
    {
      ok := Call();
      if ok {
        tenants := if tenants[name].held then tenants[name := tenants[name].(deleting := true)] else tenants - {name};
      }
    }

    // -------------------------------------------------------------- cleanup

    /**
      Deletes the AITenant if this configuration controls it, then removes the finalizer. The last
      write goes through the webhook, so without API errors cleanup ends exactly while the
      organization still exists as a root.
     */
    method CleanupMaaS(configuration: Configuration) returns (outcome: Outcome, ghost progress: Progress)
      requires Valid() && Instance(configuration) && configuration.deleting
      modifies this`calls, this`configurations, this`tenants
      ensures Valid() && outcome in {Done, ApiError}
      ensures Reconciled(old(Holds()), Holds(), configuration, progress, orgs, profiles)
      ensures outcome == Done <==> progress == FinalizerCleared
      ensures NoFaults() ==> (outcome == Done <==> RootExists(configuration.name)) && progress != Begun
    {
      var r := GetTenant(configuration.name);
      if r == ReadFailed { return ApiError, Begun; }
      if r.Present? && Controlled(Some(r.tenant), configuration.uid) {
        var ok := DeleteAITenant(configuration.name);
        if !ok { return ApiError, Begun; }
      }
      var ok := UpdateConfiguration(WithoutFinalizer(configuration));
      if !ok { return ApiError, TenantDropped; }
      return Done, FinalizerCleared;
    }

    // -------------------------------------------------------------- provisioning

    /** Read the AITenant, refuse a foreign one, render, then create or update. */
    method WriteTenant(c: Configuration, organization: Organization, profile: Profile)
      returns (outcome: Outcome, ghost written: Option<AITenant>)
      requires Valid() && crdInstalled
      modifies this`calls, this`tenants
      ensures Valid() && (outcome == Done <==> written.Some?)
      ensures tenants == if written.Some? then old(tenants)[c.name := written.value] else old(tenants)
      ensures var before := old(Tenant(c.name));
              var desired := Desired(before, c, organization, profile);
              var writable := (before.Some? ==> Controlled(before, c.uid)) && desired.Some?;
              && (written.Some? ==> writable && written == desired)
              && (NoFaults() ==>
                    outcome == if before.Some? && !Controlled(before, c.uid) then NotOwned
                               else if desired.None? then RenderError else Done)
    {
      var r := GetTenant(c.name);
      if r == ReadFailed || r == NoMatch { return ApiError, None; }
      if r.Present? && !Controlled(Some(r.tenant), c.uid) { return NotOwned, None; }
      var prepared := PrepareTenant(if r.Present? then Some(r.tenant) else None, c, organization, profile);
      if prepared.None? { return RenderError, None; }
      var ok;
      if r == Absent {
        ok := CreateTenant(c.name, prepared.value);
      } else {
        ok := UpdateTenant(c.name, prepared.value);
      }
      if !ok { return ApiError, None; }
      return Done, prepared;
    }

    method EnsureFinalizer(c: Configuration) returns (ok: bool)
      requires Valid() && Instance(c) && !c.deleting
      modifies this`calls, this`configurations
      ensures Valid()
      ensures configurations == if ok then old(configurations)[c.name := WithFinalizer(c)] else old(configurations)
      ensures MAAS_FINALIZER in c.finalizers ==> ok && WithFinalizer(c) == c
      ensures NoFaults() ==> (ok <==> MAAS_FINALIZER in c.finalizers || RootExists(c.name))
    {
      if MAAS_FINALIZER in c.finalizers {
        assert WithFinalizer(c) == c;
        return true;
      }
      ok := UpdateConfiguration(WithFinalizer(c));
    }

    /** The capability, the root organization and its profile, or the reason why one is missing. */
    method ReadInputs(c: Configuration) returns (outcome: Outcome, inputs: Option<(Organization, Profile)>)
      requires c.spec.organizationRef == c.name
      modifies this`calls
      ensures inputs.Some? ==> Supported(c.name) && inputs.value == (orgs[c.name], profiles[c.name])
      ensures inputs.None? ==> outcome != Done
      ensures NoFaults() ==> (inputs.Some? <==> Supported(c.name))
      ensures NoFaults() ==>
                outcome == if !crdInstalled then CapabilityMissing
                           else if c.name !in orgs then ApiError
                           else if orgs[c.name].parent != "" then RootRequired
                           else if |c.name| > 41 then NameTooLong
                           else if c.name !in profiles then ApiError
                           else Done
    {
      var ok := Call();
      if !ok || !crdInstalled { return CapabilityMissing, None; }
      var organizationName := c.spec.organizationRef;
      ok := Call();
      if !ok || organizationName !in orgs { return ApiError, None; }
      if orgs[organizationName].parent != "" { return RootRequired, None; }
      if |c.name| > MAX_NAME { return NameTooLong, None; }
      ok := Call();
      if !ok || organizationName !in profiles { return ApiError, None; }
      return Done, Some((orgs[organizationName], profiles[organizationName]));
    }

    predicate Supported(name: string) {
      crdInstalled && RootExists(name) && |name| <= MAX_NAME && name in profiles
    }

    /** The path of a configuration that is not being deleted. */
    method ProvisionMaaS(instance: Configuration) returns (outcome: Outcome, ghost progress: Progress)
      requires Valid() && Instance(instance) && !instance.deleting
      modifies this`calls, this`configurations, this`tenants
      ensures Valid()
      ensures Reconciled(old(Holds()), Holds(), instance, progress, orgs, profiles)
      ensures outcome == Done <==> progress.TenantWritten?
      ensures NoFaults() ==> (outcome == Done <==> Provisionable(instance, old(Tenant(instance.name))))
      ensures NoFaults() ==> outcome == FaultFreeOutcome(instance, old(Tenant(instance.name)))
    {
      ghost var before := Holds();
      var ok := EnsureFinalizer(instance);
      if !ok { return ApiError, Begun; }
      var inputs;
      outcome, inputs := ReadInputs(instance);
      if inputs.None? {
        ProvisionedUnderName(before, Holds(), instance, FinalizerSet, orgs, profiles);
        return outcome, FinalizerSet;
      }
      ghost var written;
      outcome, written := WriteTenant(instance, inputs.value.0, inputs.value.1);
      progress := if written.Some? then TenantWritten(written.value) else FinalizerSet;
      ProvisionedUnderName(before, Holds(), instance, progress, orgs, profiles);
    }

    /**
      One reconcile. It touches no AITenant it does not control, writes exactly the desired one,
      and what it leaves is where a run of the protocol leaves it, whichever calls fail.
     */
    method ReconcileMaaS(instance: Configuration) returns (outcome: Outcome, ghost progress: Progress)
      requires Valid() && Instance(instance)
      modifies this`calls, this`configurations, this`tenants
      ensures Valid()
      ensures Reconciled(old(Holds()), Holds(), instance, progress, orgs, profiles)
      ensures outcome == Done <==> progress.TenantWritten? || progress.FinalizerCleared?
      ensures NoFaults() && instance.deleting ==> (outcome == Done <==> RootExists(instance.name))
      ensures NoFaults() && !instance.deleting ==>
                var name, existing := instance.name, old(Tenant(instance.name));
                outcome == if MAAS_FINALIZER !in instance.finalizers && !RootExists(name) then ApiError
                           else if !crdInstalled then CapabilityMissing
                           else if name !in orgs then ApiError
                           else if orgs[name].parent != "" then RootRequired
                           else if |name| > 41 then NameTooLong
                           else if name !in profiles then ApiError
                           else if existing.Some? && !Controlled(existing, instance.uid) then NotOwned
                           else if Desired(existing, instance, orgs[name], profiles[name]).None? then RenderError
                           else Done
    {
      if instance.deleting {
        outcome, progress := CleanupMaaS(instance);
      } else {
        outcome, progress := ProvisionMaaS(instance);
      }
    }

    /**
      Everything provisioning needs: the capability, an undeleted root with a profile, a short
      name, and a free or own AITenant.
     */
    ghost predicate Provisionable(c: Configuration, tenant: Option<AITenant>) {
      && Supported(c.name) && (tenant.Some? ==> Controlled(tenant, c.uid))
      && Desired(tenant, c, orgs[c.name], profiles[c.name]).Some?
    }

    /** The outcome of provisioning when no call fails, in the order of the checks. */
    ghost function FaultFreeOutcome(c: Configuration, tenant: Option<AITenant>): Outcome {
      if MAAS_FINALIZER !in c.finalizers && !RootExists(c.name) then ApiError
      else if !crdInstalled then CapabilityMissing
      else if c.name !in orgs then ApiError
      else if orgs[c.name].parent != "" then RootRequired
      else if |c.name| > MAX_NAME then NameTooLong
      else if c.name !in profiles then ApiError
      else if tenant.Some? && !Controlled(tenant, c.uid) then NotOwned
      else if Desired(tenant, c, orgs[c.name], profiles[c.name]).None? then RenderError
      else Done
    }

    /** c is the stored configuration of its name. */
    predicate Instance(c: Configuration)
      reads this
    {
      c.name in configurations && configurations[c.name] == c
    }

    function Tenant(name: string): Option<AITenant>
      reads this
    {
      if name in tenants then Some(tenants[name]) else None
    }

    ghost function Holds(): Contents
      reads this
    {
      Contents(configurations, tenants)
    }
  }
}
