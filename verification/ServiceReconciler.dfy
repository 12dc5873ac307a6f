/** One reconcile of a TailscaleService: the VIP service, the proxy, the status and the finalizer. */
module ServiceReconciler {
  import opened Options
  import opened Api
  import opened Conditions
  import opened Ports
  import opened ConfigPrinter
  import opened VIPClient
  import B = ProxyBuilder

  const FINALIZER := "tailscale.com/finalizer"

  datatype ObjectKey = ObjectKey(namespace: string, name: string)

  // The object on the API server.
  datatype Resource = Resource(
    uid: string, finalizers: set<string>, deleting: bool, spec: ServiceSpec, status: ServiceStatus)

  // A VIP service on the Tailscale side, and whether the controller created it.
  datatype VIPService = VIPService(
    ports: seq<string>, tags: seq<string>, comment: string, addrs: seq<string>, byController: bool)

  type VIPs = map<string, VIPService>

  datatype Cluster = Cluster(objects: map<ObjectKey, Resource>, vips: VIPs, store: B.Store)

  const EMPTY_VIP := VIPStatus(false, "", [], "", 0, 0, [])
  const EMPTY_STATUS := ServiceStatus([], None, None, [], 0, 0, None)

  // Whether the Tailscale client is set, how the calls of one reconcile end and with which errors, what
  // the clock shows, and in which order the map of the proxy's configuration is iterated.
  datatype Outcome = Outcome(
    clientSet: bool, getOk: bool, updateOk: bool, statusUpdateOk: bool,
    lookupOk: bool, createError: Option<string>, addrs: seq<string>, secondLookupOk: bool, deleteOk: bool,
    answers: seq<B.Answer>, proxyFailure: string, order: seq<string>,
    vipAt: nat, proxyAt: nat, readyAt: nat, updatedAt: nat)
  {
    predicate Possible() {
      |answers| == B.OBJECT_COUNT && IsOrder(B.ConfigOf("bidirectional"), order)
    }
  }

  // ------------------------------------------------------------------ the VIP service

  datatype VIPResult = VIPResult(status: VIPStatus, vips: VIPs, error: Option<string>)

  /** GetVIPService finds nothing under an invalid name. */
  predicate Found(vips: VIPs, vipName: string, lookupOk: bool) {
    ValidateName(vipName).None? && lookupOk && vipName in vips
  }

  function CreateError(vipName: string, spec: VIPServiceSpec, o: Outcome): Option<string> {
    var invalid := ValidateVIPService(vipName, spec.ports, spec.tags);
    if invalid.Some? then Some("invalid VIP service: " + invalid.value) else o.createError
  }

  function DNSNameOf(vipName: string): string {
    vipName + ".tailnet.ts.net"
  }

  function ReconciledVIP(status: VIPStatus, name: string, spec: ServiceSpec, vips: VIPs, o: Outcome): VIPResult {
    var vipName := VipServiceName(spec, name);
    var named := status.(serviceName := vipName, serviceTags := spec.vipService.tags);
    if !o.clientSet then VIPResult(named.(created := false, dnsName := DNSNameOf(vipName)), vips, None)
    else if Found(vips, vipName, o.lookupOk) then VIPResult(named.(created := true), vips, None)
    else
      var error := CreateError(vipName, spec.vipService, o);
      if error.Some? then VIPResult(status, vips, Some("failed to create VIP service: " + error.value))
      else
        var vip := VIPService(spec.vipService.ports, spec.vipService.tags, spec.vipService.comment, o.addrs, true);
        var created := named.(created := true);
        VIPResult(if o.secondLookupOk then created.(addresses := o.addrs, dnsName := DNSNameOf(vipName)) else created,
                  vips[vipName := vip], None)
  }

  /** The VIP part fails exactly if the client neither finds the VIP service nor can create it. */
  lemma {:induction false} VIPFails(before: VIPStatus, name: string, spec: ServiceSpec, vips: VIPs, o: Outcome)
    ensures ReconciledVIP(before, name, spec, vips, o).error.Some? <==>
              && o.clientSet && !Found(vips, VipServiceName(spec, name), o.lookupOk)
              && CreateError(VipServiceName(spec, name), spec.vipService, o).Some?
  {
    hide Found, CreateError, VipServiceName;
  }

  // ------------------------------------------------------------------ the proxy

  function ProxyLabels(name: string): B.Labels {
    map["app" := "tailscale-proxy", "tailscale.com/managed" := "true",
        "tailscale.com/parent-resource" := name, "tailscale.com/parent-type" := "TailscaleService"]
  }

  function ReplicasOf(proxy: ProxySpec): int {
    proxy.replicas.GetOr(2)
  }

  function ProxySpecOf(key: ObjectKey, uid: string, spec: ServiceSpec): B.ProxySpec
    requires spec.proxy.Some?
  {
    B.ProxySpec(key.name + "-proxy", key.namespace, spec.tailnet, "bidirectional", MappingsOf(spec.vipService.ports),
                Some(spec.proxy.value.image), uid, ProxyLabels(key.name), ReplicasOf(spec.proxy.value))
  }

  datatype ProxyResult = ProxyResult(store: B.Store, error: Option<string>)

  function ReconciledProxy(key: ObjectKey, uid: string, spec: ServiceSpec, store: B.Store, o: Outcome): ProxyResult
    requires spec.proxy.Some? && o.Possible()
  {
    if spec.tailnet == "" then ProxyResult(store, Some("tailnet is required when proxy is specified"))
    else
      var (after, ok) := B.Advance(store, ProxySpecOf(key, uid, spec), o.order, o.answers, 0, B.OBJECT_COUNT);
      ProxyResult(after, if ok then None else Some("failed to create proxy infrastructure: " + o.proxyFailure))
  }

  function ProxyStatusOf(key: ObjectKey, spec: ServiceSpec): ProxyStatus
    requires spec.proxy.Some?
  {
    ProxyStatus(key.name + "-proxy", ReplicasOf(spec.proxy.value), key.name + "-proxy")
  }

  // ------------------------------------------------------------------ the status

  function BackendStatusOf(backend: BackendSpec): BackendStatus {
    var target :=
      match backend.kind
      case "kubernetes" => backend.service
      case "external" => backend.address
      case "tailscale" => backend.tailscaleService
      case _ => "";
    BackendStatus(backend.kind, target, true, backend.weight.GetOr(1), backend.priority.GetOr(0))
  }

  function BackendStatuses(backends: seq<BackendSpec>): seq<BackendStatus> {
    seq(|backends|, i requires 0 <= i < |backends| => BackendStatusOf(backends[i]))
  }

  function WithBackends(status: ServiceStatus, backends: seq<BackendSpec>): ServiceStatus {
    var n := |backends|;
    status.(
      backends := BackendStatuses(backends), totalBackends := n, healthyBackends := n,
      vip := if status.vip.Some? then Some(status.vip.value.(backendCount := n, healthyBackendCount := n)) else None)
  }

  /** The first condition of the type is replaced, time and all; without one the condition is appended. */
  function Replaced(conditions: seq<Condition>, condition: Condition): seq<Condition> {
    match FirstOf(conditions, condition.kind)
    case None => conditions + [condition]
    case Some(i) => conditions[i := condition]
  }

  function VIPReport(error: Option<string>, now: nat): Condition {
    if error.Some? then Condition("VIPServiceReady", False, "VIPServiceError", error.value, now)
    else Condition("VIPServiceReady", True, "VIPServiceReady", "VIP service is ready", now)
  }

  function ProxyReport(error: Option<string>, now: nat): Condition {
    if error.Some? then Condition("ProxyReady", False, "ProxyError", error.value, now)
    else Condition("ProxyReady", True, "ProxyReady", "Proxy infrastructure is ready", now)
  }

  function ReadyReport(now: nat): Condition {
    Condition("Ready", True, "Ready", "TailscaleService is ready", now)
  }

  function Report(status: ServiceStatus, condition: Condition): ServiceStatus {
    status.(conditions := Replaced(status.conditions, condition))
  }

  function Finish(status: ServiceStatus, spec: ServiceSpec, o: Outcome): ServiceStatus {
    Report(WithBackends(status, spec.backends), ReadyReport(o.readyAt)).(lastUpdate := Some(o.updatedAt))
  }

  // ------------------------------------------------------------------ one reconcile

  /** The status that a reconcile writes, and what it has done by then. */
  datatype Work = Work(status: ServiceStatus, vips: VIPs, store: B.Store)

  function ProxyWork(
    key: ObjectKey, resource: Resource, status: ServiceStatus, vips: VIPs, store: B.Store, o: Outcome): Work
    requires resource.spec.proxy.Some? && o.Possible()
  {
    var proxy := ReconciledProxy(key, resource.uid, resource.spec, store, o);
    if proxy.error.Some? then
      Work(Report(status, ProxyReport(proxy.error, o.proxyAt)).(lastUpdate := Some(o.updatedAt)), vips, proxy.store)
    else
      var done := status.(proxy := Some(ProxyStatusOf(key, resource.spec)));
      Work(Finish(Report(done, ProxyReport(None, o.proxyAt)), resource.spec, o), vips, proxy.store)
  }

  function WorkOf(key: ObjectKey, resource: Resource, vips: VIPs, store: B.Store, o: Outcome): Work
    requires o.Possible()
  {
    var vip := ReconciledVIP(resource.status.vip.GetOr(EMPTY_VIP), key.name, resource.spec, vips, o);
    var status := Report(resource.status.(vip := Some(vip.status)), VIPReport(vip.error, o.vipAt));
    if vip.error.Some? then Work(status.(lastUpdate := Some(o.updatedAt)), vip.vips, store)
    else if resource.spec.proxy.None? then Work(Finish(status, resource.spec, o), vip.vips, store)
    else ProxyWork(key, resource, status, vip.vips, store, o)
  }

  /** The VIP services after the deletion of a resource. */
  function WithoutVIP(resource: Resource, vips: VIPs, o: Outcome): VIPs {
    var vip := resource.status.vip;
    if o.clientSet && vip.Some? && vip.value.created && ValidateName(vip.value.serviceName).None? && o.deleteOk
    then vips - {vip.value.serviceName}
    else vips
  }

  /** An update of the finalizers; an object that is being deleted goes away with its last one. */
  function WithFinalizers(
    objects: map<ObjectKey, Resource>, key: ObjectKey, finalizers: set<string>): map<ObjectKey, Resource>
    requires key in objects
  {
    if objects[key].deleting && finalizers == {} then objects - {key}
    else objects[key := objects[key].(finalizers := finalizers)]
  }

  function Step(c: Cluster, key: ObjectKey, o: Outcome): Cluster
    requires o.Possible()
  {
    if key !in c.objects || !o.getOk then c
    else
      var resource := c.objects[key];
      if resource.deleting then
        Cluster(if o.updateOk then WithFinalizers(c.objects, key, resource.finalizers - {FINALIZER}) else c.objects,
                WithoutVIP(resource, c.vips, o), c.store)
      else if FINALIZER !in resource.finalizers then
        if o.updateOk then c.(objects := WithFinalizers(c.objects, key, resource.finalizers + {FINALIZER})) else c
      else
        var work := WorkOf(key, resource, c.vips, c.store, o);
        var objects := if o.statusUpdateOk then c.objects[key := resource.(status := work.status)] else c.objects;
        Cluster(objects, work.vips, work.store)
  }

  // ------------------------------------------------------------------ the reconciler

  /** The reconciler's copy of the object. */
  class TailscaleService {
    const key: ObjectKey
    const uid: string
    const spec: ServiceSpec
    var finalizers: set<string>
    var deleting: bool
    var status: ServiceStatus

    constructor (key: ObjectKey, resource: Resource)
      ensures this.key == key && uid == resource.uid && spec == resource.spec
      ensures finalizers == resource.finalizers && deleting == resource.deleting && status == resource.status
    {
      this.key, uid, spec := key, resource.uid, resource.spec;
      finalizers, deleting, status := resource.finalizers, resource.deleting, resource.status;
    }

    method UpdateCondition(kind: string, value: ConditionStatus, reason: string, message: string, now: nat)
      modifies this`status
      ensures status == Report(old(status), Condition(kind, value, reason, message, now))
    {
      hide FirstOf;
      var condition := Condition(kind, value, reason, message, now);
      var conditions := status.conditions;
      for i := 0 to |conditions|
        invariant status == old(status)
        invariant forall j | 0 <= j < i :: conditions[j].kind != kind
      {
        if conditions[i].kind == kind {
          FirstOfUnique(conditions, kind, i);
          status := status.(conditions := conditions[i := condition]);
          return;
        }
      }
      status := status.(conditions := conditions + [condition]);
    }

    method UpdateBackendStatus()
      modifies this`status
      ensures status == WithBackends(old(status), spec.backends)
    {
      var backendStatus, healthyBackends := [], 0;
      for i := 0 to |spec.backends|
        invariant |backendStatus| == i == healthyBackends
        invariant forall j | 0 <= j < i :: backendStatus[j] == BackendStatusOf(spec.backends[j])
      {
        var backend := spec.backends[i];
        var weight, priority, target := 1, 0, "";
        if backend.weight.Some? {
          weight := backend.weight.value;
        }
        if backend.priority.Some? {
          priority := backend.priority.value;
        }
        if backend.kind == "kubernetes" {
          target := backend.service;
        } else if backend.kind == "external" {
          target := backend.address;
        } else if backend.kind == "tailscale" {
          target := backend.tailscaleService;
        }
        healthyBackends := healthyBackends + 1;
        backendStatus := backendStatus + [BackendStatus(backend.kind, target, true, weight, priority)];
      }
      status := status.(backends := backendStatus, totalBackends := |spec.backends|,
                        healthyBackends := healthyBackends);
      if status.vip.Some? {
        status := status.(
          vip := Some(status.vip.value.(backendCount := |spec.backends|, healthyBackendCount := healthyBackends)));
      }
    }
  }

  class TailscaleServiceReconciler {
    // The objects on the API server, the VIP services behind the client, and the builder of proxies.
    var objects: map<ObjectKey, Resource>
    var vips: VIPs
    const proxyBuilder: B.ProxyBuilder

    constructor (c: Cluster)
      ensures fresh(proxyBuilder) && State() == c
    {
      objects, vips := c.objects, c.vips;
      proxyBuilder := new B.ProxyBuilder(c.store);
    }

    function State(): Cluster
      reads this, proxyBuilder
    {
      Cluster(objects, vips, proxyBuilder.store)
    }

    method ReconcileVIPService(ts: TailscaleService, o: Outcome) returns (error: Option<string>)
      requires ts.status.vip.Some?
      modifies this`vips, ts`status
      ensures var result := ReconciledVIP(old(ts.status.vip.value), ts.key.name, ts.spec, old(vips), o);
              error == result.error && vips == result.vips && ts.status == old(ts.status).(vip := Some(result.status))
    {
      hide ValidateName, ValidateVIPService;
      var vipServiceName := ts.spec.vipService.name;
      if vipServiceName == "" {
        vipServiceName := "svc:" + ts.key.name;
      }
      var status := ts.status.vip.value;
      if !o.clientSet {
        status := status.(created := false, serviceName := vipServiceName, serviceTags := ts.spec.vipService.tags,
                          dnsName := vipServiceName + ".tailnet.ts.net");
        ts.status := ts.status.(vip := Some(status));
        return None;
      }
      if Found(vips, vipServiceName, o.lookupOk) {
        status := status.(created := true, serviceName := vipServiceName, serviceTags := ts.spec.vipService.tags);
        ts.status := ts.status.(vip := Some(status));
        return None;
      }
      var createError := CreateError(vipServiceName, ts.spec.vipService, o);
      if createError.Some? {
        return Some("failed to create VIP service: " + createError.value);
      }
      vips := vips[vipServiceName := VIPService(ts.spec.vipService.ports, ts.spec.vipService.tags,
                                                ts.spec.vipService.comment, o.addrs, true)];
      status := status.(created := true, serviceName := vipServiceName, serviceTags := ts.spec.vipService.tags);
      CreatedNameIsValid(vipServiceName, ts.spec.vipService.ports, ts.spec.vipService.tags);
      if Found(vips, vipServiceName, o.secondLookupOk) {
        status := status.(addresses := vips[vipServiceName].addrs, dnsName := vipServiceName + ".tailnet.ts.net");
      }
      ts.status := ts.status.(vip := Some(status));
      return None;
    }

    method ReconcileProxy(ts: TailscaleService, o: Outcome) returns (error: Option<string>)
      requires ts.spec.proxy.Some? && o.Possible()
      modifies proxyBuilder, ts`status
      ensures var result := ReconciledProxy(ts.key, ts.uid, ts.spec, old(proxyBuilder.store), o);
              && error == result.error && proxyBuilder.store == result.store
              && ts.status == if error.Some? then old(ts.status)
                              else old(ts.status).(proxy := Some(ProxyStatusOf(ts.key, ts.spec)))
    {
      if ts.spec.tailnet == "" {
        return Some("tailnet is required when proxy is specified");
      }
      hide IsOrder, B.ConfigOf, MappingsOf;
      var ports := ConvertVIPPortsToPortMappings(ts.spec.vipService.ports);
      var replicas := 2;
      if ts.spec.proxy.value.replicas.Some? {
        replicas := ts.spec.proxy.value.replicas.value;
      }
      var name := ts.key.name + "-proxy";
      var labels := ProxyLabels(ts.key.name);
      var proxySpec := B.ProxySpec(name, ts.key.namespace, ts.spec.tailnet, "bidirectional", ports,
                                   Some(ts.spec.proxy.value.image), ts.uid, labels, replicas);
      var ok := proxyBuilder.CreateProxyInfrastructure(proxySpec, o.order, o.answers);
      if !ok {
        return Some("failed to create proxy infrastructure: " + o.proxyFailure);
      }
      ts.status := ts.status.(proxy := Some(ProxyStatus(name, replicas, name)));
      return None;
    }

    /** An update writes the finalizers; the status is a resource of its own. */
    method Update(ts: TailscaleService, ok: bool)
      requires ts.key in objects
      modifies this`objects
      ensures objects == if ok then WithFinalizers(old(objects), ts.key, ts.finalizers) else old(objects)
    {
      if ok {
        if objects[ts.key].deleting && ts.finalizers == {} {
          objects := objects - {ts.key};
        } else {
          objects := objects[ts.key := objects[ts.key].(finalizers := ts.finalizers)];
        }
      }
    }

    method UpdateStatus(ts: TailscaleService, o: Outcome)
      requires ts.key in objects
      modifies this`objects, ts`status
      ensures ts.status == old(ts.status).(lastUpdate := Some(o.updatedAt))
      ensures objects == if o.statusUpdateOk then old(objects)[ts.key := old(objects)[ts.key].(status := ts.status)]
                         else old(objects)
    {
      ts.status := ts.status.(lastUpdate := Some(o.updatedAt));
      if o.statusUpdateOk {
        objects := objects[ts.key := objects[ts.key].(status := ts.status)];
      }
    }

    /** A VIP service that cannot be deleted does not hold up the deletion of its object. */
    method HandleDeletion(ts: TailscaleService, o: Outcome)
      requires ts.key in objects && ts.status == objects[ts.key].status && ts.finalizers == objects[ts.key].finalizers
      modifies this, ts
      ensures vips == WithoutVIP(old(objects)[ts.key], old(vips), o)
      ensures objects == if o.updateOk then WithFinalizers(old(objects), ts.key, old(ts.finalizers) - {FINALIZER})
                         else old(objects)
    {
      hide ValidateName;
      if o.clientSet && ts.status.vip.Some? && ts.status.vip.value.created {
        var serviceName := ts.status.vip.value.serviceName;
        if ValidateName(serviceName).None? && o.deleteOk {
          vips := vips - {serviceName};
        }
      }
      ts.finalizers := ts.finalizers - {FINALIZER};
      Update(ts, o.updateOk);
    }

    method Reconcile(key: ObjectKey, o: Outcome)
      requires o.Possible()
      modifies this, proxyBuilder
      ensures State() == Step(old(State()), key, o)
    {
      hide ReconciledVIP, ReconciledProxy, Replaced, WithBackends, IsOrder, B.ConfigOf, WithFinalizers, WithoutVIP;
      if key !in objects || !o.getOk {
        return;
      }
      var ts := new TailscaleService(key, objects[key]);
      if ts.deleting {
        HandleDeletion(ts, o);
        return;
      }
      if FINALIZER !in ts.finalizers {
        ts.finalizers := ts.finalizers + {FINALIZER};
        Update(ts, o.updateOk);
        return;
      }
      if ts.status.vip.None? {
        ts.status := ts.status.(vip := Some(EMPTY_VIP));
      }
      var error := ReconcileVIPService(ts, o);
      if error.Some? {
        ts.UpdateCondition("VIPServiceReady", False, "VIPServiceError", error.value, o.vipAt);
        UpdateStatus(ts, o);
        return;
      }
      ts.UpdateCondition("VIPServiceReady", True, "VIPServiceReady", "VIP service is ready", o.vipAt);
      if ts.spec.proxy.Some? {
        error := ReconcileProxy(ts, o);
        if error.Some? {
          ts.UpdateCondition("ProxyReady", False, "ProxyError", error.value, o.proxyAt);
          UpdateStatus(ts, o);
          return;
        }
        ts.UpdateCondition("ProxyReady", True, "ProxyReady", "Proxy infrastructure is ready", o.proxyAt);
      }
      ts.UpdateBackendStatus();
      ts.UpdateCondition("Ready", True, "Ready", "TailscaleService is ready", o.readyAt);
      UpdateStatus(ts, o);
    }
  }

  lemma {:induction false} CreatedNameIsValid(name: string, ports: seq<string>, tags: seq<string>)
    requires ValidateVIPService(name, ports, tags).None?
    ensures ValidateName(name).None?
  {
  }
}
