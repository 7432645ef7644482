/** The stored objects of the organization API and the reads the webhooks make of them. */
module Objects {

  datatype Option<+T> = None | Some(value: T)

  /** Identity of an admission requester. */
  datatype UserInfo = UserInfo(username: string, groups: seq<string>)

  /** An admin entry of a profile. The kind is free text: unknown kinds match nobody. */
  datatype Subject = Subject(kind: string, name: string, namespace: string)

  /** `root` is status, written by the organization controller only. */
  datatype Organization = Organization(name: string, parent: string, root: string)

  datatype GatewayReference = GatewayReference(group: string, kind: string, name: string, namespace: string)
  datatype PlatformConfig = PlatformConfig(issuerUrl: Option<string>, gateway: Option<GatewayReference>)

  /** `admins` is None for an absent list, which deep equality tells apart from an empty one. */
  datatype ProfileSpec = ProfileSpec(
    organizationRef: string,
    admins: Option<seq<Subject>>,
    networkIsolation: string,
    maxProjects: int,
    platform: Option<PlatformConfig>)
  {
    function AdminList(): seq<Subject> {
      match admins
      case None => []
      case Some(list) => list
    }
  }
  datatype Profile = Profile(name: string, labels: map<string, string>, controller: Option<string>, spec: ProfileSpec)

  datatype ProjectUser = ProjectUser(kind: string, name: string, namespace: string, role: string)
  datatype ProjectSpec = ProjectSpec(organizationRef: string, users: seq<ProjectUser>, networkIsolation: string)
  datatype Project = Project(name: string, uid: nat, spec: ProjectSpec, statusNamespace: string)

  datatype CertificateRef = CertificateRef(name: string, namespace: string)
  datatype Quotas = Quotas(maxModels: int, maxSubscriptions: int, maxApiKeys: int)
  datatype ConfigurationSpec = ConfigurationSpec(
    organizationRef: string,
    oidcClientId: Option<string>,
    certificate: Option<CertificateRef>,
    quotas: Option<Quotas>)
  datatype Configuration = Configuration(
    name: string, uid: nat, spec: ConfigurationSpec, finalizers: set<string>, deleting: bool)

  datatype Namespace = Namespace(uid: nat, labels: map<string, string>, controller: Option<nat>)

  const ORGANIZATION_LABEL := "organization.opendatahub.io/name"
  const ROOT_LABEL := "organization.opendatahub.io/root"

  const MAAS_FINALIZER := "organization.opendatahub.io/maas-cleanup"

  function WithFinalizer(c: Configuration): Configuration {
    c.(finalizers := c.finalizers + {MAAS_FINALIZER})
  }

  function WithoutFinalizer(c: Configuration): Configuration {
    c.(finalizers := c.finalizers - {MAAS_FINALIZER})
  }

  /** Outcome of reading one object: a read may also fail for reasons of its own. */
  datatype Lookup<+T> = Found(value: T) | NotFound | Failed

  datatype ReadKey =
    | OrganizationKey(name: string)
    | ProfileKey(name: string)
    | ProjectListKey
    | ConfigurationListKey

  /** What the reads of one request return: an arbitrary snapshot plus the reads that fail. */
  datatype Reader = Reader(
    orgs: map<string, Organization>,
    profiles: map<string, Profile>,
    projects: map<string, Project>,
    configurations: map<string, Configuration>,
    failing: set<ReadKey>)
  {
    function GetOrganization(name: string): Lookup<Organization> {
      if OrganizationKey(name) in failing then Failed
      else if name in orgs then Found(orgs[name]) else NotFound
    }

    function GetProfile(name: string): Lookup<Profile> {
      if ProfileKey(name) in failing then Failed
      else if name in profiles then Found(profiles[name]) else NotFound
    }
  }

  /** The API server stores each organization under its own non-empty name. */
  ghost predicate WellNamed(orgs: map<string, Organization>) {
    forall n :: n in orgs ==> n != "" && orgs[n].name == n
  }
}
