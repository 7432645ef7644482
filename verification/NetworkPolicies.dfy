/** What NetworkPolicies permit, and what may be permitted while the operator replaces them. */
module NetworkPolicies {
  import opened Objects

  // ---------------------------------------------------------------- policies and traffic

  datatype Requirement =
    | In(key: string, values: set<string>)
    | NotIn(key: string, values: set<string>)
    | Exists(key: string)
    | DoesNotExist(key: string)
  {
    predicate Holds(labels: map<string, string>) {
      match this
      case In(k, vs) => k in labels && labels[k] in vs
      case NotIn(k, vs) => k !in labels || labels[k] !in vs
      case Exists(k) => k in labels
      case DoesNotExist(k) => k !in labels
    }
  }

  datatype Selector = Selector(matchLabels: map<string, string>, expressions: seq<Requirement>) {
    predicate Matches(labels: map<string, string>) {
      && (forall k :: k in matchLabels ==> k in labels && labels[k] == matchLabels[k])
      && (forall i :: 0 <= i < |expressions| ==> expressions[i].Holds(labels))
    }
  }

  const EVERYTHING := Selector(map[], [])

  datatype Peer =
    | Pods(namespaceSelector: Option<Selector>, podSelector: Option<Selector>)
    | Addresses(block: set<int>)

  /** An empty list of peers admits every source, an empty set of ports every port. */
  datatype Rule = Rule(from: seq<Peer>, ports: set<int>)

  /** `ingress` says whether the policy types include Ingress. */
  datatype PolicySpec = PolicySpec(podSelector: Selector, ingress: bool, rules: seq<Rule>)
  datatype NetworkPolicy = NetworkPolicy(spec: PolicySpec, controller: Option<nat>)
  datatype Key = Key(namespace: string, name: string)

  datatype Traffic = Traffic(
    sourceNamespace: string, sourceNamespaceLabels: map<string, string>,
    sourceLabels: map<string, string>, address: int,
    targetLabels: map<string, string>, port: int)

  predicate PeerAdmits(peer: Peer, namespace: string, t: Traffic) {
    match peer
    case Addresses(block) => t.address in block
    case Pods(namespaces, pods) =>
      && (if namespaces.Some? then namespaces.value.Matches(t.sourceNamespaceLabels)
          else t.sourceNamespace == namespace)
      && (pods.Some? ==> pods.value.Matches(t.sourceLabels))
  }

  predicate RuleAdmits(rule: Rule, namespace: string, t: Traffic) {
    && (rule.ports == {} || t.port in rule.ports)
    && (rule.from == [] || exists i :: 0 <= i < |rule.from| && PeerAdmits(rule.from[i], namespace, t))
  }

  predicate SpecAdmits(spec: PolicySpec, namespace: string, t: Traffic) {
    exists i :: 0 <= i < |spec.rules| && RuleAdmits(spec.rules[i], namespace, t)
  }

  type Policies = map<Key, NetworkPolicy>

  predicate Applies(m: Policies, k: Key, namespace: string, t: Traffic) {
    k in m && k.namespace == namespace && m[k].spec.ingress && m[k].spec.podSelector.Matches(t.targetLabels)
  }

  /** A pod no policy applies to accepts everything; otherwise some applying policy must admit. */
  predicate Permits(m: Policies, namespace: string, t: Traffic) {
    || (forall k :: k in m ==> !Applies(m, k, namespace, t))
    || (exists k :: k in m && Applies(m, k, namespace, t) && SpecAdmits(m[k].spec, namespace, t))
  }

  // ---------------------------------------------------------------- the presets

  const DENY_INGRESS := "default-deny-ingress"
  const ALLOW_ORGANIZATION := "allow-from-organization"
  const ALLOW_SAME_NAMESPACE := "allow-same-namespace"
  const MANAGED := [DENY_INGRESS, ALLOW_ORGANIZATION, ALLOW_SAME_NAMESPACE]

  datatype Desired = Desired(name: string, spec: PolicySpec)
  datatype NamespaceRef = NamespaceRef(name: string, uid: nat)

  function DenyIngress(): Desired {
    Desired(DENY_INGRESS, PolicySpec(EVERYTHING, true, []))
  }

  function AllowFromOrganization(organization: string): Desired {
    var peer := Pods(Some(Selector(map[ORGANIZATION_LABEL := organization], [])), None);
    Desired(ALLOW_ORGANIZATION, PolicySpec(EVERYTHING, true, [Rule([peer], {})]))
  }

  function AllowSameNamespace(): Desired {
    Desired(ALLOW_SAME_NAMESPACE, PolicySpec(EVERYTHING, true, [Rule([Pods(None, Some(EVERYTHING))], {})]))
  }

  function DesiredPolicies(organization: string, isolation: string): (desired: seq<Desired>)
    ensures Sensible(desired)
  {
    match isolation
    case "none" => []
    case "strict" => [DenyIngress(), AllowSameNamespace()]
    case _ => [DenyIngress(), AllowFromOrganization(organization)]
  }

  /** The names of each preset's policies, in the order they are written. */
  lemma PresetNames(organization: string, isolation: string)
    ensures var desired := DesiredPolicies(organization, isolation);
            match isolation
            case "none" => |desired| == 0
            case "strict" => |desired| == 2 && desired[0].name == "default-deny-ingress"
                             && desired[1].name == "allow-same-namespace"
            case _ => |desired| == 2 && desired[0].name == "default-deny-ingress"
                      && desired[1].name == "allow-from-organization"
  {
  }

  /** Every preset policy applies to every pod, under distinct managed names. */
  predicate Sensible(desired: seq<Desired>) {
    && (forall i :: 0 <= i < |desired| ==>
          desired[i].name in MANAGED && desired[i].spec.ingress && desired[i].spec.podSelector == EVERYTHING)
    && (forall i, j :: 0 <= i < j < |desired| ==> desired[i].name != desired[j].name)
  }

  // ---------------------------------------------------------------- the target of a reconcile

  function At(m: Policies, k: Key): Option<NetworkPolicy> {
    if k in m then Some(m[k]) else None
  }

  /** Managed names in the namespace that no other controller holds. */
  predicate Ours(m: Policies, ns: NamespaceRef, k: Key) {
    k.namespace == ns.name && k.name in MANAGED && (k in m ==> m[k].controller == Some(ns.uid))
  }

  function Find(desired: seq<Desired>, name: string): Option<PolicySpec> {
    if desired == [] then None
    else if desired[0].name == name then Some(desired[0].spec)
    else Find(desired[1..], name)
  }

  lemma {:induction false} FindExact(desired: seq<Desired>, i: nat)
    requires Sensible(desired) && i < |desired|
    ensures Find(desired, desired[i].name) == Some(desired[i].spec)
  {
    if i > 0 { FindExact(desired[1..], i - 1); }
  }

  lemma {:induction false} FoundIsDesired(desired: seq<Desired>, name: string)
    ensures Find(desired, name).Some? <==> exists i :: 0 <= i < |desired| && desired[i].name == name
    ensures Find(desired, name).Some? ==>
              exists i :: 0 <= i < |desired| && desired[i].name == name && desired[i].spec == Find(desired, name).value
  {
    if desired != [] { FoundIsDesired(desired[1..], name); }
  }

  /** Exactly the preset where the name is ours; whatever was there everywhere else. */
  function TargetAt(m: Policies, ns: NamespaceRef, desired: seq<Desired>, k: Key): Option<NetworkPolicy> {
    if !Ours(m, ns, k) then At(m, k)
    else
      match Find(desired, k.name)
      case Some(spec) => Some(NetworkPolicy(spec, Some(ns.uid)))
      case None => None
  }

  function ManagedKeys(ns: NamespaceRef): set<Key> {
    set n | n in MANAGED :: Key(ns.name, n)
  }

  function Target(m: Policies, ns: NamespaceRef, desired: seq<Desired>): Policies {
    map k | k in m.Keys + ManagedKeys(ns) && TargetAt(m, ns, desired, k).Some? :: TargetAt(m, ns, desired, k).value
  }

  lemma TargetIsTargetAt(m: Policies, ns: NamespaceRef, desired: seq<Desired>, k: Key)
    ensures At(Target(m, ns, desired), k) == TargetAt(m, ns, desired, k)
  {
    assert Ours(m, ns, k) ==> k in ManagedKeys(ns);
  }

  /** The target by value: what is left alone, what is written, and what is gone. */
  lemma TargetExactly(m: Policies, ns: NamespaceRef, desired: seq<Desired>, k: Key)
    requires Sensible(desired)
    ensures var m' := Target(m, ns, desired);
            var managed := k.namespace == ns.name
                           && k.name in {"default-deny-ingress", "allow-from-organization", "allow-same-namespace"};
            if !managed || (k in m && m[k].controller != Some(ns.uid))
            then (k in m' <==> k in m) && (k in m ==> m'[k] == m[k])
            else
              && (k in m' <==> exists i :: 0 <= i < |desired| && desired[i].name == k.name)
              && (forall i :: 0 <= i < |desired| && desired[i].name == k.name ==>
                    m'[k] == NetworkPolicy(desired[i].spec, Some(ns.uid)))
  {
    TargetIsTargetAt(m, ns, desired, k);
    FoundIsDesired(desired, k.name);
    forall i | 0 <= i < |desired| && desired[i].name == k.name ensures Find(desired, k.name) == Some(desired[i].spec) {
      FindExact(desired, i);
    }
  }

  /** A second run has nothing left to change. */
  lemma TargetIsFixed(m: Policies, ns: NamespaceRef, desired: seq<Desired>)
    ensures Target(Target(m, ns, desired), ns, desired) == Target(m, ns, desired)
  {
    var once := Target(m, ns, desired);
    forall k ensures At(Target(once, ns, desired), k) == At(once, k) {
      TargetIsTargetAt(m, ns, desired, k);
      TargetIsTargetAt(once, ns, desired, k);
    }
    SamePolicies(Target(once, ns, desired), once);
  }

  lemma SamePolicies(a: Policies, b: Policies)
    requires forall k :: At(a, k) == At(b, k)
    ensures a == b
  {
    forall k ensures k in a <==> k in b {
      assert At(a, k) == At(b, k);
    }
    forall k | k in a ensures a[k] == b[k] {
      assert At(a, k) == At(b, k);
    }
  }

  // ---------------------------------------------------------------- between start and target

  ghost predicate InPlace(m: Policies, ns: NamespaceRef, d: Desired) {
    At(m, Key(ns.name, d.name)) == Some(NetworkPolicy(d.spec, Some(ns.uid)))
  }

  /**
    A state of the policies on the way: each name still holds its old policy or already its target,
    and nothing has been deleted before the whole preset is in place.
   */
  ghost predicate Underway(m0: Policies, m: Policies, ns: NamespaceRef, desired: seq<Desired>) {
    && (forall k :: At(m, k) == At(m0, k) || At(m, k) == TargetAt(m0, ns, desired, k))
    && ((exists k :: k in m0 && k !in m) ==> forall i :: 0 <= i < |desired| ==> InPlace(m, ns, desired[i]))
  }

  /** The policies after the first i preset policies have been written. */
  function Upserted(m: Policies, ns: NamespaceRef, desired: seq<Desired>, i: nat): Policies
    requires i <= |desired|
  {
    if i == 0 then m
    else
      var d := desired[i - 1];
      Upserted(m, ns, desired, i - 1)[Key(ns.name, d.name) := NetworkPolicy(d.spec, Some(ns.uid))]
  }

  /** The policies after the first j managed names have been checked for removal. */
  function Pruned(m: Policies, ns: NamespaceRef, desired: seq<Desired>, j: nat): Policies
    requires j <= |MANAGED|
  {
    if j == 0 then m
    else
      var before := Pruned(m, ns, desired, j - 1);
      var k := Key(ns.name, MANAGED[j - 1]);
      if Find(desired, k.name).None? && k in before && before[k].controller == Some(ns.uid)
      then before - {k} else before
  }

  lemma {:induction false} UpsertedAt(m: Policies, ns: NamespaceRef, desired: seq<Desired>, i: nat, k: Key)
    requires Sensible(desired) && i <= |desired|
    ensures (exists j :: 0 <= j < i && k == Key(ns.name, desired[j].name)) ==>
              Find(desired, k.name).Some?
              && At(Upserted(m, ns, desired, i), k) == Some(NetworkPolicy(Find(desired, k.name).value, Some(ns.uid)))
    ensures (forall j :: 0 <= j < i ==> k != Key(ns.name, desired[j].name)) ==>
            At(Upserted(m, ns, desired, i), k) == At(m, k)
    decreases i
  {
    if i > 0 {
      if k == Key(ns.name, desired[i - 1].name) {
        FindExact(desired, i - 1);
      } else {
        UpsertedAt(m, ns, desired, i - 1, k);
      }
    }
  }

  lemma {:induction false} PrunedAt(m: Policies, ns: NamespaceRef, desired: seq<Desired>, j: nat, k: Key)
    requires j <= |MANAGED|
    ensures At(Pruned(m, ns, desired, j), k)
         == if k.namespace == ns.name && k.name in MANAGED[..j] && Find(desired, k.name).None?
                && k in m && m[k].controller == Some(ns.uid)
            then None else At(m, k)
    decreases j
  {
    if j > 0 {
      PrunedAt(m, ns, desired, j - 1, k);
      assert MANAGED[..j] == MANAGED[..j - 1] + [MANAGED[j - 1]];
    }
  }

  ghost predicate AllOurs(m: Policies, ns: NamespaceRef, desired: seq<Desired>, i: nat)
    requires i <= |desired|
  {
    forall j :: 0 <= j < i ==> Ours(m, ns, Key(ns.name, desired[j].name))
  }

  lemma UpsertedIsUnderway(m: Policies, ns: NamespaceRef, desired: seq<Desired>, i: nat)
    requires Sensible(desired) && i <= |desired| && AllOurs(m, ns, desired, i)
    ensures Underway(m, Upserted(m, ns, desired, i), ns, desired)
  {
    forall k
      ensures k in m ==> k in Upserted(m, ns, desired, i)
      ensures At(Upserted(m, ns, desired, i), k) == At(m, k)
           || At(Upserted(m, ns, desired, i), k) == TargetAt(m, ns, desired, k)
    {
      UpsertedAt(m, ns, desired, i, k);
    }
  }

  /** Where a policy stands once the whole preset is written and j names have been checked. */
  lemma PrunedUpserted(m: Policies, ns: NamespaceRef, desired: seq<Desired>, j: nat, k: Key)
    requires Sensible(desired) && AllOurs(m, ns, desired, |desired|) && j <= |MANAGED|
    ensures var m' := Pruned(Upserted(m, ns, desired, |desired|), ns, desired, j);
            At(m', k) == At(m, k) || At(m', k) == TargetAt(m, ns, desired, k)
    ensures j == |MANAGED| ==>
              At(Pruned(Upserted(m, ns, desired, |desired|), ns, desired, j), k) == TargetAt(m, ns, desired, k)
  {
    UpsertedAt(m, ns, desired, |desired|, k);
    PrunedAt(Upserted(m, ns, desired, |desired|), ns, desired, j, k);
    FoundIsDesired(desired, k.name);
    assert MANAGED[..|MANAGED|] == MANAGED;
  }

  lemma PrunedIsUnderway(m: Policies, ns: NamespaceRef, desired: seq<Desired>, j: nat)
    requires Sensible(desired) && AllOurs(m, ns, desired, |desired|) && j <= |MANAGED|
    ensures Underway(m, Pruned(Upserted(m, ns, desired, |desired|), ns, desired, j), ns, desired)
  {
    var full := Upserted(m, ns, desired, |desired|);
    var m' := Pruned(full, ns, desired, j);
    forall k ensures At(m', k) == At(m, k) || At(m', k) == TargetAt(m, ns, desired, k) {
      PrunedUpserted(m, ns, desired, j, k);
    }
    forall i | 0 <= i < |desired| ensures InPlace(m', ns, desired[i]) {
      var k := Key(ns.name, desired[i].name);
      UpsertedAt(m, ns, desired, |desired|, k);
      PrunedAt(full, ns, desired, j, k);
      FindExact(desired, i);
    }
  }

  lemma PrunedIsTarget(m: Policies, ns: NamespaceRef, desired: seq<Desired>)
    requires Sensible(desired) && AllOurs(m, ns, desired, |desired|)
    ensures Pruned(Upserted(m, ns, desired, |desired|), ns, desired, |MANAGED|) == Target(m, ns, desired)
  {
    var m' := Pruned(Upserted(m, ns, desired, |desired|), ns, desired, |MANAGED|);
    forall k ensures At(m', k) == At(Target(m, ns, desired), k) {
      PrunedUpserted(m, ns, desired, |MANAGED|, k);
      TargetIsTargetAt(m, ns, desired, k);
    }
    SamePolicies(m', Target(m, ns, desired));
  }

  ghost predicate Contained(m0: Policies, m: Policies, ns: NamespaceRef, desired: seq<Desired>) {
    forall t :: Permits(m, ns.name, t) ==> Permits(m0, ns.name, t) || Permits(Target(m0, ns, desired), ns.name, t)
  }

  /** Traffic admitted by a policy on the way is admitted by the start or by the target. */
  lemma AdmittedUnderway(m0: Policies, m: Policies, ns: NamespaceRef, desired: seq<Desired>, t: Traffic, k: Key)
    requires Underway(m0, m, ns, desired)
    requires Applies(m, k, ns.name, t) && SpecAdmits(m[k].spec, ns.name, t)
    ensures Permits(m0, ns.name, t) || Permits(Target(m0, ns, desired), ns.name, t)
  {
    TargetIsTargetAt(m0, ns, desired, k);
    assert At(m, k) == Some(m[k]);
    if At(m, k) == At(m0, k) {
      assert Applies(m0, k, ns.name, t) && SpecAdmits(m0[k].spec, ns.name, t);
    } else {
      var target := Target(m0, ns, desired);
      assert Applies(target, k, ns.name, t) && SpecAdmits(target[k].spec, ns.name, t);
    }
  }

  /** A pod left unguarded on the way was unguarded at the start or is unguarded in the target. */
  lemma UnguardedUnderway(m0: Policies, m: Policies, ns: NamespaceRef, desired: seq<Desired>, t: Traffic)
    requires Sensible(desired) && Underway(m0, m, ns, desired)
    requires forall k :: k in m ==> !Applies(m, k, ns.name, t)
    ensures Permits(m0, ns.name, t) || Permits(Target(m0, ns, desired), ns.name, t)
  {
    if k0 :| k0 in m0 && Applies(m0, k0, ns.name, t) {
      PresetGuards(m0, m, ns, desired, t, k0);
      assert desired == [];
      var target := Target(m0, ns, desired);
      forall k | k in target ensures !Applies(target, k, ns.name, t) {
        TargetIsTargetAt(m0, ns, desired, k);
        assert At(target, k) == At(m0, k);
        assert At(m, k) == At(m0, k) || At(m, k) == TargetAt(m0, ns, desired, k);
      }
    }
  }

  /** An old policy that applied can only have gone if the preset is empty: preset policies apply to every pod. */
  lemma PresetGuards(m0: Policies, m: Policies, ns: NamespaceRef, desired: seq<Desired>, t: Traffic, k0: Key)
    requires Sensible(desired) && Underway(m0, m, ns, desired)
    requires forall k :: k in m ==> !Applies(m, k, ns.name, t)
    requires k0 in m0 && Applies(m0, k0, ns.name, t)
    ensures desired == []
  {
    assert At(m, k0) == At(m0, k0) || At(m, k0) == TargetAt(m0, ns, desired, k0);
    assert At(m, k0) != At(m0, k0);
    if k0 in m {
      FoundIsDesired(desired, k0.name);
      assert Applies(m, k0, ns.name, t);
    } else if desired != [] {
      assert InPlace(m, ns, desired[0]);
      var k := Key(ns.name, desired[0].name);
      assert k in m && Applies(m, k, ns.name, t);
    }
  }

  /** Whatever the operator has written so far, ingress stays within the start or the target. */
  lemma TransitionSafety(m0: Policies, m: Policies, ns: NamespaceRef, desired: seq<Desired>)
    requires Sensible(desired) && Underway(m0, m, ns, desired)
    ensures Contained(m0, m, ns, desired)
  {
    forall t | Permits(m, ns.name, t)
      ensures Permits(m0, ns.name, t) || Permits(Target(m0, ns, desired), ns.name, t)
    {
      if k :| k in m && Applies(m, k, ns.name, t) && SpecAdmits(m[k].spec, ns.name, t) {
        AdmittedUnderway(m0, m, ns, desired, t, k);
      } else {
        UnguardedUnderway(m0, m, ns, desired, t);
      }
    }
  }

  /** Deleting first is not safe: a namespace with only an owned allow policy would be opened to everyone. */
  lemma DeletingFirstOpensTheNamespace(ns: NamespaceRef, organization: string, other: string)
    requires other != ns.name
    ensures var desired := DesiredPolicies(organization, "strict");
            var allow := NetworkPolicy(AllowFromOrganization(organization).spec, Some(ns.uid));
            var m0 := map[Key(ns.name, ALLOW_ORGANIZATION) := allow];
            !Contained(m0, m0 - {Key(ns.name, ALLOW_ORGANIZATION)}, ns, desired)
  {
    var desired := DesiredPolicies(organization, "strict");
    var k := Key(ns.name, ALLOW_ORGANIZATION);
    var m0: Policies := map[k := NetworkPolicy(AllowFromOrganization(organization).spec, Some(ns.uid))];
    var t := Traffic(other, map[], map[], 0, map[], 0);
    assert Permits(m0 - {k}, ns.name, t);
    assert Applies(m0, k, ns.name, t);
    assert !SpecAdmits(m0[k].spec, ns.name, t) by {
      assert !PeerAdmits(m0[k].spec.rules[0].from[0], ns.name, t) by {
        var selector := m0[k].spec.rules[0].from[0].namespaceSelector.value;
        assert ORGANIZATION_LABEL in selector.matchLabels;
      }
    }
    assert !Permits(m0, ns.name, t);
    StrictOnly(m0, ns, organization, t);
  }

  // ---------------------------------------------------------------- what the presets mean

  /** The namespace holds no policy but the ones the operator manages. */
  ghost predicate OnlyManaged(m: Policies, ns: NamespaceRef) {
    forall k :: k in m && k.namespace == ns.name ==> Ours(m, ns, k)
  }

  /** The policies of the namespace after a reconcile are exactly the preset. */
  lemma OnlyThePreset(m: Policies, ns: NamespaceRef, desired: seq<Desired>, k: Key)
    requires Sensible(desired) && OnlyManaged(m, ns) && k.namespace == ns.name
    ensures At(Target(m, ns, desired), k)
         == if Find(desired, k.name).Some? then Some(NetworkPolicy(Find(desired, k.name).value, Some(ns.uid))) else None
  {
    TargetIsTargetAt(m, ns, desired, k);
    FoundIsDesired(desired, k.name);
  }

  /** A preset of a deny policy and one allow policy permits what the allow policy admits. */
  lemma PresetOfTwo(m: Policies, ns: NamespaceRef, allow: Desired, t: Traffic)
    requires Sensible([DenyIngress(), allow]) && OnlyManaged(m, ns)
    ensures Permits(Target(m, ns, [DenyIngress(), allow]), ns.name, t) <==> SpecAdmits(allow.spec, ns.name, t)
  {
    var desired := [DenyIngress(), allow];
    var target := Target(m, ns, desired);
    var deny, permit := Key(ns.name, DENY_INGRESS), Key(ns.name, allow.name);
    FindExact(desired, 0);
    FindExact(desired, 1);
    OnlyThePreset(m, ns, desired, deny);
    OnlyThePreset(m, ns, desired, permit);
    assert Applies(target, deny, ns.name, t) && Applies(target, permit, ns.name, t);
    forall k | k in target && k.namespace == ns.name ensures k == deny || k == permit {
      OnlyThePreset(m, ns, desired, k);
      FoundIsDesired(desired, k.name);
    }
    assert !SpecAdmits(DenyIngress().spec, ns.name, t);
  }

  lemma StrictOnly(m: Policies, ns: NamespaceRef, organization: string, t: Traffic)
    requires OnlyManaged(m, ns)
    ensures Permits(Target(m, ns, DesiredPolicies(organization, "strict")), ns.name, t)
        <==> t.sourceNamespace == ns.name
  {
    PresetOfTwo(m, ns, AllowSameNamespace(), t);
    OnePeerAdmits(AllowSameNamespace().spec, AllowSameNamespace().spec.rules[0].from[0], ns.name, t);
  }

  lemma NoneOnly(m: Policies, ns: NamespaceRef, organization: string, t: Traffic)
    requires OnlyManaged(m, ns)
    ensures Permits(Target(m, ns, DesiredPolicies(organization, "none")), ns.name, t)
  {
    var target := Target(m, ns, []);
    forall k | k in target ensures !Applies(target, k, ns.name, t) {
      if k.namespace == ns.name { OnlyThePreset(m, ns, [], k); }
    }
  }

  lemma OneLabelMatches(key: string, value: string, labels: map<string, string>)
    ensures Selector(map[key := value], []).Matches(labels) <==> key in labels && labels[key] == value
  {
    assert key in Selector(map[key := value], []).matchLabels;
  }

  lemma TenantOnly(m: Policies, ns: NamespaceRef, organization: string, isolation: string, t: Traffic)
    requires OnlyManaged(m, ns) && isolation != "none" && isolation != "strict"
    ensures Permits(Target(m, ns, DesiredPolicies(organization, isolation)), ns.name, t)
        <==> ORGANIZATION_LABEL in t.sourceNamespaceLabels
             && t.sourceNamespaceLabels[ORGANIZATION_LABEL] == organization
  {
    var allow := AllowFromOrganization(organization);
    PresetOfTwo(m, ns, allow, t);
    OneLabelMatches(ORGANIZATION_LABEL, organization, t.sourceNamespaceLabels);
    OnePeerAdmits(allow.spec, allow.spec.rules[0].from[0], ns.name, t);
  }

  lemma OnePeerAdmits(spec: PolicySpec, peer: Peer, namespace: string, t: Traffic)
    requires spec.rules == [Rule([peer], {})]
    ensures SpecAdmits(spec, namespace, t) <==> PeerAdmits(peer, namespace, t)
  {
    var rule := spec.rules[0];
    assert RuleAdmits(rule, namespace, t) <==> PeerAdmits(rule.from[0], namespace, t);
  }
}
