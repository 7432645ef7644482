/** Rendering a MaaS configuration into the unstructured AITenant object. */
module Rendering {
  import opened Objects

  datatype Json =
    | Null
    | Text(text: string)
    | Number(number: int)
    | Flag(flag: bool)
    | Array(items: seq<Json>)
    | Object(fields: map<string, Json>)

  type Document = map<string, Json>

  const SPEC := "spec"
  const OIDC := "oidc"
  const GATEWAY := "gateway"
  const TLS := "tls"
  const RESOURCE_QUOTAS := "resourceQuotas"
  const MANAGED_FIELDS := {OIDC, GATEWAY, TLS, RESOURCE_QUOTAS}

  // ---------------------------------------------------------------- what is wanted

  function IssuerUrl(profile: ProfileSpec): Option<string> {
    if profile.platform.Some? then profile.platform.value.issuerUrl else None
  }

  function Gateway(profile: ProfileSpec): Option<GatewayReference> {
    if profile.platform.Some? then profile.platform.value.gateway else None
  }

  function WantedOidc(spec: ConfigurationSpec, profile: ProfileSpec): Option<Json> {
    if IssuerUrl(profile).None? && spec.oidcClientId.None? then None
    else
      var none: map<string, Json> := map[];
      var shared := if IssuerUrl(profile).Some? then none["issuerUrl" := Text(IssuerUrl(profile).value)] else none;
      Some(Object(if spec.oidcClientId.Some? then shared["clientId" := Text(spec.oidcClientId.value)] else shared))
  }

  function WantedGateway(profile: ProfileSpec): Option<Json> {
    if Gateway(profile).None? then None else Some(Object(map["name" := Text(Gateway(profile).value.name)]))
  }

  function WantedTls(spec: ConfigurationSpec): Option<Json> {
    match spec.certificate
    case None => None
    case Some(c) =>
      Some(Object(map["certificateRef" := Object(map["name" := Text(c.name), "namespace" := Text(c.namespace)])]))
  }

  function WantedQuotas(spec: ConfigurationSpec): Option<Json> {
    match spec.quotas
    case None => None
    case Some(q) =>
      Some(Object(map["maxModels" := Number(q.maxModels), "maxSubscriptions" := Number(q.maxSubscriptions),
                      "maxApiKeys" := Number(q.maxApiKeys)]))
  }

  /** The value a managed field is to have; None where it is to be absent. */
  function Wanted(spec: ConfigurationSpec, profile: ProfileSpec, field: string): Option<Json> {
    if field == OIDC then WantedOidc(spec, profile)
    else if field == GATEWAY then WantedGateway(profile)
    else if field == TLS then WantedTls(spec)
    else if field == RESOURCE_QUOTAS then WantedQuotas(spec)
    else None
  }

  /** The value of a field of the document's spec, if it has one. */
  function Field(doc: Document, field: string): Option<Json> {
    if SPEC in doc && doc[SPEC].Object? && field in doc[SPEC].fields then Some(doc[SPEC].fields[field]) else None
  }

  predicate SpecUsable(doc: Document) {
    SPEC in doc ==> doc[SPEC].Object?
  }

  // ---------------------------------------------------------------- one field at a time

  /** Set a field of the spec, or remove it; setting fails on a spec that is no object. */
  function Put(doc: Document, field: string, value: Option<Json>): Option<Document> {
    match value
    case Some(v) =>
      if !SpecUsable(doc) then None
      else
        var fields := if SPEC in doc then doc[SPEC].fields else map[];
        Some(doc[SPEC := Object(fields[field := v])])
    case None =>
      if SPEC in doc && doc[SPEC].Object? then Some(doc[SPEC := Object(doc[SPEC].fields - {field})]) else Some(doc)
  }

  function Then(doc: Option<Document>, field: string, value: Option<Json>): Option<Document> {
    if doc.None? then None else Put(doc.value, field, value)
  }

  function Rendered(doc: Document, spec: ConfigurationSpec, profile: ProfileSpec): Option<Document> {
    var a := Put(doc, OIDC, WantedOidc(spec, profile));
    var b := Then(a, GATEWAY, WantedGateway(profile));
    var c := Then(b, TLS, WantedTls(spec));
    Then(c, RESOURCE_QUOTAS, WantedQuotas(spec))
  }

  /** The object being rendered, changed in place. */
  class Unstructured {
    var doc: Document

    constructor (doc: Document)
      ensures this.doc == doc
    {
      this.doc := doc;
    }

    method SetNestedField(field: string, value: Json) returns (ok: bool)
      modifies this
      ensures ok ==> Put(old(doc), field, Some(value)) == Some(doc)
      ensures !ok ==> Put(old(doc), field, Some(value)).None? && doc == old(doc)
    {
      if SPEC in doc {
        if !doc[SPEC].Object? { return false; }
      } else {
        doc := doc[SPEC := Object(map[])];
      }
      doc := doc[SPEC := Object(doc[SPEC].fields[field := value])];
      assert doc == old(doc)[SPEC := doc[SPEC]];
      return true;
    }

    method RemoveNestedField(field: string)
      modifies this
      ensures Put(old(doc), field, None) == Some(doc)
    {
      if SPEC in doc && doc[SPEC].Object? {
        doc := doc[SPEC := Object(doc[SPEC].fields - {field})];
      }
    }

    method Render(spec: ConfigurationSpec, profile: ProfileSpec) returns (ok: bool)
      modifies this
      ensures ok ==> Rendered(old(doc), spec, profile) == Some(doc)
      ensures !ok ==> Rendered(old(doc), spec, profile).None?
    {
      var oidc: map<string, Json> := map[];
      var hasOidc := false;
      if profile.platform.Some? && profile.platform.value.issuerUrl.Some? {
        oidc := oidc["issuerUrl" := Text(profile.platform.value.issuerUrl.value)];
        hasOidc := true;
      }
      if spec.oidcClientId.Some? {
        oidc := oidc["clientId" := Text(spec.oidcClientId.value)];
        hasOidc := true;
      }
      assert WantedOidc(spec, profile) == if hasOidc then Some(Object(oidc)) else None;
      if hasOidc {
        ok := SetNestedField(OIDC, Object(oidc));
        if !ok { return; }
      } else {
        RemoveNestedField(OIDC);
      }
      if profile.platform.Some? && profile.platform.value.gateway.Some? {
        ok := SetNestedField(GATEWAY, Object(map["name" := Text(profile.platform.value.gateway.value.name)]));
        if !ok { return; }
      } else {
        RemoveNestedField(GATEWAY);
      }
      if spec.certificate.Some? {
        var certificate := map["name" := Text(spec.certificate.value.name),
                               "namespace" := Text(spec.certificate.value.namespace)];
        ok := SetNestedField(TLS, Object(map["certificateRef" := Object(certificate)]));
        if !ok { return; }
      } else {
        RemoveNestedField(TLS);
      }
      if spec.quotas.Some? {
        var q := spec.quotas.value;
        ok := SetNestedField(RESOURCE_QUOTAS, Object(map["maxModels" := Number(q.maxModels),
          "maxSubscriptions" := Number(q.maxSubscriptions), "maxApiKeys" := Number(q.maxApiKeys)]));
        if !ok { return; }
      } else {
        RemoveNestedField(RESOURCE_QUOTAS);
      }
      return true;
    }
  }

  // ---------------------------------------------------------------- what rendering means

  predicate NothingWanted(spec: ConfigurationSpec, profile: ProfileSpec) {
    WantedOidc(spec, profile).None? && WantedGateway(profile).None? && WantedTls(spec).None? && WantedQuotas(spec).None?
  }

  lemma PutExact(doc: Document, field: string, value: Option<Json>)
    requires SpecUsable(doc)
    ensures Put(doc, field, value).Some? && SpecUsable(Put(doc, field, value).value)
    ensures var doc' := Put(doc, field, value).value;
            && Field(doc', field) == value
            && (forall f :: f != field ==> Field(doc', f) == Field(doc, f))
            && doc' - {SPEC} == doc - {SPEC}
  {
  }

  /** The managed fields are as wanted whatever stood there before, and nothing else changes. */
  lemma RenderIsLastWriteWins(doc: Document, spec: ConfigurationSpec, profile: ProfileSpec)
    requires SpecUsable(doc)
    ensures Rendered(doc, spec, profile).Some? && SpecUsable(Rendered(doc, spec, profile).value)
    ensures var doc' := Rendered(doc, spec, profile).value;
            && (forall f :: f in MANAGED_FIELDS ==> Field(doc', f) == Wanted(spec, profile, f))
            && (forall f :: f !in MANAGED_FIELDS ==> Field(doc', f) == Field(doc, f))
            && doc' - {SPEC} == doc - {SPEC}
  {
    PutExact(doc, OIDC, WantedOidc(spec, profile));
    var a := Put(doc, OIDC, WantedOidc(spec, profile)).value;
    PutExact(a, GATEWAY, WantedGateway(profile));
    var b := Put(a, GATEWAY, WantedGateway(profile)).value;
    PutExact(b, TLS, WantedTls(spec));
    var c := Put(b, TLS, WantedTls(spec)).value;
    PutExact(c, RESOURCE_QUOTAS, WantedQuotas(spec));
  }

  /** Two documents with usable specs, both present or both absent, are equal when all fields are. */
  lemma SameDocument(a: Document, b: Document)
    requires SpecUsable(a) && SpecUsable(b) && (SPEC in a <==> SPEC in b)
    requires a - {SPEC} == b - {SPEC} && forall f :: Field(a, f) == Field(b, f)
    ensures a == b
  {
    if SPEC in a {
      forall f ensures f in a[SPEC].fields <==> f in b[SPEC].fields {
        assert Field(a, f) == Field(b, f);
      }
      forall f | f in a[SPEC].fields ensures a[SPEC].fields[f] == b[SPEC].fields[f] {
        assert Field(a, f) == Field(b, f);
      }
      assert a[SPEC].fields == b[SPEC].fields;
    }
    assert forall k :: k in a <==> (k == SPEC && SPEC in a) || k in a - {SPEC};
    assert forall k :: k in b <==> (k == SPEC && SPEC in b) || k in b - {SPEC};
    forall k | k in a ensures k in b && a[k] == b[k] {
      if k != SPEC { assert (a - {SPEC})[k] == (b - {SPEC})[k]; }
    }
  }

  lemma SpecPresence(doc: Document, spec: ConfigurationSpec, profile: ProfileSpec)
    requires SpecUsable(doc)
    ensures Rendered(doc, spec, profile).Some?
    ensures SPEC in Rendered(doc, spec, profile).value <==> SPEC in doc || !NothingWanted(spec, profile)
  {
    RenderIsLastWriteWins(doc, spec, profile);
  }

  /** Rendering twice is rendering once. */
  lemma RenderIsIdempotent(doc: Document, spec: ConfigurationSpec, profile: ProfileSpec)
    requires SpecUsable(doc)
    ensures Rendered(doc, spec, profile).Some?
    ensures Rendered(Rendered(doc, spec, profile).value, spec, profile) == Rendered(doc, spec, profile)
  {
    RenderIsLastWriteWins(doc, spec, profile);
    var once := Rendered(doc, spec, profile).value;
    RenderIsLastWriteWins(once, spec, profile);
    SpecPresence(doc, spec, profile);
    SpecPresence(once, spec, profile);
    var twice := Rendered(once, spec, profile).value;
    forall f ensures Field(twice, f) == Field(once, f) {
      assert f in MANAGED_FIELDS || f !in MANAGED_FIELDS;
    }
    SameDocument(twice, once);
  }

  /**
    Rendering over an earlier rendering leaves no trace of it, with one exact exception: a spec
    that the earlier rendering had to create stays behind, empty, when nothing is wanted any more.
   */
  lemma EarlierRenderingLeavesNoTraceExactly(doc: Document, spec0: ConfigurationSpec, profile0: ProfileSpec,
                                             spec: ConfigurationSpec, profile: ProfileSpec)
    requires SpecUsable(doc)
    ensures Rendered(doc, spec0, profile0).Some?
    ensures Rendered(Rendered(doc, spec0, profile0).value, spec, profile) == Rendered(doc, spec, profile)
        <==> SPEC in doc || NothingWanted(spec0, profile0) || !NothingWanted(spec, profile)
  {
    RenderIsLastWriteWins(doc, spec0, profile0);
    var earlier := Rendered(doc, spec0, profile0).value;
    RenderIsLastWriteWins(doc, spec, profile);
    RenderIsLastWriteWins(earlier, spec, profile);
    SpecPresence(doc, spec0, profile0);
    SpecPresence(doc, spec, profile);
    SpecPresence(earlier, spec, profile);
    var over, direct := Rendered(earlier, spec, profile).value, Rendered(doc, spec, profile).value;
    if SPEC in over <==> SPEC in direct {
      forall f ensures Field(over, f) == Field(direct, f) {
        assert f in MANAGED_FIELDS || f !in MANAGED_FIELDS;
      }
      SameDocument(over, direct);
    }
  }

  /** The fields of the document's spec. */
  function SpecFields(doc: Document): map<string, Json> {
    if "spec" in doc && doc["spec"].Object? then doc["spec"].fields else map[]
  }

  /** A field holds the object with exactly these members, or is absent. */
  predicate Holds(fields: map<string, Json>, field: string, wanted: Option<map<string, Json>>) {
    match wanted
    case None => field !in fields
    case Some(members) => field in fields && fields[field] == Object(members)
  }

  /**
    Rendering by value: what each managed field holds afterwards, read off the configuration and the
    profile, with every other field and everything outside the spec kept.
   */
  lemma RenderedExactly(doc: Document, c: ConfigurationSpec, p: ProfileSpec, doc': Document)
    requires Rendered(doc, c, p) == Some(doc') && ("spec" in doc ==> doc["spec"].Object?)
    ensures var issuer := if p.platform.Some? then p.platform.value.issuerUrl else None;
            var oidc := SpecFields(doc');
            match (issuer, c.oidcClientId)
            case (None, None) => Holds(oidc, "oidc", None)
            case (Some(url), None) => Holds(oidc, "oidc", Some(map["issuerUrl" := Text(url)]))
            case (None, Some(id)) => Holds(oidc, "oidc", Some(map["clientId" := Text(id)]))
            case (Some(url), Some(id)) =>
              Holds(oidc, "oidc", Some(map["issuerUrl" := Text(url), "clientId" := Text(id)]))
    ensures Holds(SpecFields(doc'), "gateway",
                  if p.platform.Some? && p.platform.value.gateway.Some?
                  then Some(map["name" := Text(p.platform.value.gateway.value.name)]) else None)
    ensures match c.certificate
            case None => Holds(SpecFields(doc'), "tls", None)
            case Some(ref) =>
              var members := map["name" := Text(ref.name), "namespace" := Text(ref.namespace)];
              Holds(SpecFields(doc'), "tls", Some(map["certificateRef" := Object(members)]))
    ensures match c.quotas
            case None => Holds(SpecFields(doc'), "resourceQuotas", None)
            case Some(q) =>
              Holds(SpecFields(doc'), "resourceQuotas",
                    Some(map["maxModels" := Number(q.maxModels), "maxSubscriptions" := Number(q.maxSubscriptions),
                             "maxApiKeys" := Number(q.maxApiKeys)]))
    ensures forall f :: f !in {"oidc", "gateway", "tls", "resourceQuotas"} ==>
              (f in SpecFields(doc') <==> f in SpecFields(doc))
              && (f in SpecFields(doc) ==> SpecFields(doc')[f] == SpecFields(doc)[f])
    ensures doc' - {"spec"} == doc - {"spec"}
  {
    RenderIsLastWriteWins(doc, c, p);
    forall f ensures Field(doc', f) == if f in SpecFields(doc') then Some(SpecFields(doc')[f]) else None {}
    forall f ensures Field(doc, f) == if f in SpecFields(doc) then Some(SpecFields(doc)[f]) else None {}
    assert Field(doc', OIDC) == WantedOidc(c, p);
    assert Field(doc', GATEWAY) == WantedGateway(p);
    assert Field(doc', TLS) == WantedTls(c);
    assert Field(doc', RESOURCE_QUOTAS) == WantedQuotas(c);
  }

  /** Rendering fails exactly on a spec that is no object while something has to be set in it. */
  lemma RenderFailsExactly(doc: Document, spec: ConfigurationSpec, profile: ProfileSpec)
    ensures Rendered(doc, spec, profile).None? <==>
            && "spec" in doc && !doc["spec"].Object?
            && (|| spec.oidcClientId.Some? || spec.certificate.Some? || spec.quotas.Some?
                || (profile.platform.Some?
                    && (profile.platform.value.issuerUrl.Some? || profile.platform.value.gateway.Some?)))
    ensures !SpecUsable(doc) && Rendered(doc, spec, profile).Some? ==> Rendered(doc, spec, profile) == Some(doc)
  {
    if SpecUsable(doc) { RenderIsLastWriteWins(doc, spec, profile); }
  }
}
