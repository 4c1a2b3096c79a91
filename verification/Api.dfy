// The Kubernetes values that the operator reads and writes.
module Api {
  import opened Prelude
  import opened EnvVars

  // A container of a pod spec.  probePort is the port of its three HTTP probes; image and
  // resources are carried along unread.
  datatype ContainerSpec = ContainerSpec(
    name: string,
    image: string,
    resources: string,
    args: seq<string>,
    env: seq<EnvVar>,
    ports: seq<int32>,
    probePort: Option<int32>)

  // spec.authProxyContainer.
  datatype ProxySettings = ProxySettings(
    container: Option<ContainerSpec>,
    image: string,
    resources: Option<string>,
    sqlAdminAPIEndpoint: string,
    maxConnections: Option<int>,
    maxSigtermDelay: Option<int>)

  type Labels = map<string, string>

  datatype OwnerRef = OwnerRef(apiVersion: string, kind: string, name: string)

  datatype ObjectMeta = ObjectMeta(
    kind: string,
    namespace: string,
    name: string,
    labels: Labels,
    owners: seq<OwnerRef>)

  datatype Requirement =
    | In(key: string, values: set<string>)
    | NotIn(key: string, values: set<string>)
    | Exists(key: string)
    | DoesNotExist(key: string)

  // A label selector that is absent, one that cannot be parsed, or a list of requirements.
  datatype LabelSelector = Absent | Malformed | Requirements(all: seq<Requirement>)

  datatype WorkloadSelector = WorkloadSelector(kind: string, name: string, labels: LabelSelector)

  datatype AuthProxyWorkload = AuthProxyWorkload(
    id: NamespacedName,
    deleting: bool,
    selector: WorkloadSelector,
    settings: Option<ProxySettings>,
    instances: seq<Instance>)
  {
    // The proxy container was replaced wholesale by the user.
    predicate Overridden() {
      settings.Some? && settings.value.container.Some?
    }
  }

  ghost predicate IdsDistinct(ps: seq<AuthProxyWorkload>) {
    forall i, j :: 0 <= i < j < |ps| ==> ps[i].id != ps[j].id
  }
}
