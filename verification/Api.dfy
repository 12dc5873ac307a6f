/** The custom resources, as far as the operator reads and writes them. */
module Api {
  import opened Options

  datatype ConditionStatus = True | False | Unknown

  datatype Condition = Condition(
    kind: string, status: ConditionStatus, reason: string, message: string, lastTransitionTime: nat)

  datatype VIPServiceSpec = VIPServiceSpec(name: string, ports: seq<string>, tags: seq<string>, comment: string)

  datatype BackendSpec = BackendSpec(
    kind: string, service: string, address: string, tailscaleService: string,
    weight: Option<int>, priority: Option<int>)

  datatype ProxySpec = ProxySpec(replicas: Option<int>, connectionType: string, image: string)

  datatype ServiceSpec = ServiceSpec(
    vipService: VIPServiceSpec, backends: seq<BackendSpec>, proxy: Option<ProxySpec>, tailnet: string)

  datatype VIPStatus = VIPStatus(
    created: bool, serviceName: string, addresses: seq<string>, dnsName: string,
    backendCount: nat, healthyBackendCount: nat, serviceTags: seq<string>)

  datatype ProxyStatus = ProxyStatus(statefulSetName: string, replicas: int, serviceName: string)

  datatype BackendStatus = BackendStatus(kind: string, target: string, healthy: bool, weight: int, priority: int)

  datatype ServiceStatus = ServiceStatus(
    conditions: seq<Condition>, vip: Option<VIPStatus>, proxy: Option<ProxyStatus>, backends: seq<BackendStatus>,
    totalBackends: nat, healthyBackends: nat, lastUpdate: Option<nat>)

  datatype TailscaleService = TailscaleService(
    namespace: string, name: string, spec: ServiceSpec, status: ServiceStatus)
}
