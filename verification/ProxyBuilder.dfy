/** The Kubernetes objects behind one proxy, and the ordered writes that create and delete them. */
module ProxyBuilder {
  import opened Options
  import opened Ports
  import opened ConfigPrinter

  datatype Kind = ServiceAccount | Role | RoleBinding | Secret | StatefulSet | Service

  datatype Key = Key(kind: Kind, namespace: string, name: string)

  type Labels = map<string, string>

  datatype PolicyRule = PolicyRule(apiGroups: seq<string>, resources: seq<string>, verbs: seq<string>)

  // A variable of the environment holds a text or a field of its pod.
  datatype EnvVar = TextVar(name: string, value: string) | FieldVar(name: string, fieldPath: string)

  datatype VolumeMount = VolumeMount(name: string, readOnly: bool, mountPath: string)

  // Volumes are all of secrets.
  datatype Volume = Volume(name: string, secretName: string)

  datatype Container = Container(image: string, ports: seq<ContainerPort>, env: seq<EnvVar>, mounts: seq<VolumeMount>)

  datatype Object =
    | AccountObject(labels: Labels, owner: string)
    | RoleObject(labels: Labels, owner: string, rules: seq<PolicyRule>)
    | BindingObject(labels: Labels, owner: string, role: string, account: string, accountNamespace: string)
    | SecretObject(labels: Labels, owner: string, data: map<string, string>)
    | SetObject(
        labels: Labels, owner: string, replicas: int, serviceName: string, selector: Labels, podLabels: Labels,
        account: string, container: Container, volumes: seq<Volume>)
    | ServiceObject(
        labels: Labels, owner: string, serviceType: string, clusterIP: string, selector: Labels,
        servicePorts: seq<ServicePort>)

  type Store = map<Key, Object>

  datatype ProxySpec = ProxySpec(
    name: string, namespace: string, tailnet: string, connectionType: string, ports: seq<PortMapping>,
    image: Option<string>, owner: string, labels: Labels, replicas: int)

  // ------------------------------------------------------------------ the six objects

  const OBJECT_COUNT := 6

  function ConfigSecretName(name: string): string {
    name + "-config"
  }

  /** The objects of a proxy in the order in which they are written. */
  function WriteKey(namespace: string, name: string, i: nat): Key
    requires i < OBJECT_COUNT
  {
    match i
    case 0 => Key(ServiceAccount, namespace, name)
    case 1 => Key(Role, namespace, name)
    case 2 => Key(RoleBinding, namespace, name)
    case 3 => Key(Secret, namespace, ConfigSecretName(name))
    case 4 => Key(StatefulSet, namespace, name)
    case _ => Key(Service, namespace, name)
  }

  function KeysOf(namespace: string, name: string): set<Key> {
    set i: nat | i < OBJECT_COUNT :: WriteKey(namespace, name, i)
  }

  function SanitizedChar(c: char): char {
    if 'a' <= c <= 'z' || 'A' <= c <= 'Z' || '0' <= c <= '9' || c == '-' then c else '-'
  }

  function Sanitized(tailnet: string): string {
    seq(|tailnet|, i requires 0 <= i < |tailnet| => SanitizedChar(tailnet[i]))
  }

  method SanitizeTailnetName(tailnet: string) returns (sanitized: string)
    ensures sanitized == Sanitized(tailnet)
  {
    sanitized := "";
    for i := 0 to |tailnet|
      invariant sanitized == Sanitized(tailnet[..i])
    {
      var r := tailnet[i];
      if 'a' <= r <= 'z' || 'A' <= r <= 'Z' || '0' <= r <= '9' || r == '-' {
        sanitized := sanitized + [r];
      } else {
        sanitized := sanitized + "-";
      }
    }
    assert tailnet[..|tailnet|] == tailnet;
  }

  /** The tailscaled configuration of a proxy. */
  function ConfigOf(connectionType: string): Config {
    var config: Config := map["Version" := Str("alpha0"), "Locked" := Flag(false)];
    if connectionType in {"ingress", "bidirectional"} then config["AdvertiseServices" := List([])] else config
  }

  function ConfigLabels(name: string): Labels {
    map[
      "app.kubernetes.io/name" := "tailscale-proxy",
      "app.kubernetes.io/instance" := name,
      "app.kubernetes.io/component" := "config",
      "tailscale.com/managed" := "true",
      "tailscale.com/parent-type" := "proxy",
      "tailscale.com/parent-name" := name]
  }

  function ImageOf(image: Option<string>): string {
    if image.Some? && image.value != "" then image.value else "tailscale/tailscale:latest"
  }

  // Access to the secrets of the namespace, for the state of tailscaled.
  const SECRET_RULE :=
    PolicyRule([""], ["secrets"], ["get", "list", "watch", "create", "update", "patch"])

  // The file of the configuration in its secret.
  const CONFIG_FILE := "cap-106.hujson"

  function EnvOf(tailnetName: string): seq<EnvVar> {
    [TextVar("TS_KUBE_SECRET", "$(POD_NAME)"),
     TextVar("TS_STATE", "kube:$(POD_NAME)"),
     TextVar("TS_EXPERIMENTAL_VERSIONED_CONFIG_DIR", "/etc/tsconfig/" + tailnetName),
     TextVar("TS_USERSPACE", "true"),
     FieldVar("POD_NAME", "metadata.name"),
     FieldVar("POD_UID", "metadata.uid")]
  }

  function MountsOf(tailnetName: string): seq<VolumeMount> {
    [VolumeMount("tailscaledconfig-" + tailnetName, true, "/etc/tsconfig/" + tailnetName)]
  }

  function VolumesOf(tailnetName: string, configSecretName: string): seq<Volume> {
    [Volume("tailscaledconfig-" + tailnetName, configSecretName)]
  }

  function ContainerPortsOf(ports: seq<PortMapping>): seq<ContainerPort> {
    seq(|ports|, i requires 0 <= i < |ports| =>
      ContainerPort(ports[i].name, ports[i].port, ProtocolOf(ports[i].protocol)))
  }

  function ServicePortsOf(ports: seq<PortMapping>): seq<ServicePort> {
    seq(|ports|, i requires 0 <= i < |ports| =>
      ServicePort(ports[i].name, ports[i].port,
                  ports[i].targetPort.GetOr(ports[i].port), ProtocolOf(ports[i].protocol)))
  }

  /** The object written at each step; `order` is the order in which the configuration map is iterated. */
  function WriteObject(spec: ProxySpec, order: seq<string>, i: nat): Object
    requires i < OBJECT_COUNT && IsOrder(ConfigOf(spec.connectionType), order)
  {
    match i
    case 0 => AccountObject(spec.labels, spec.owner)
    case 1 => RoleObject(spec.labels, spec.owner, [SECRET_RULE])
    case 2 => BindingObject(spec.labels, spec.owner, spec.name, spec.name, spec.namespace)
    case 3 =>
      SecretObject(ConfigLabels(spec.name), spec.owner, map[CONFIG_FILE := Print(ConfigOf(spec.connectionType), order)])
    case 4 =>
      var tailnetName := Sanitized(spec.tailnet);
      var container :=
        Container(ImageOf(spec.image), ContainerPortsOf(spec.ports), EnvOf(tailnetName), MountsOf(tailnetName));
      SetObject(spec.labels, spec.owner, spec.replicas, spec.name, spec.labels, spec.labels, spec.name, container,
                VolumesOf(tailnetName, ConfigSecretName(spec.name)))
    case _ => ServiceObject(spec.labels, spec.owner, "ClusterIP", "None", spec.labels, ServicePortsOf(spec.ports))
  }

  // ------------------------------------------------------------------ one write

  // Whether the API server would accept a create and an update, its own checks of existence aside.
  datatype Answer = Answer(create: bool, update: bool)

  predicate Accepts(store: Store, key: Key, answer: Answer) {
    if key in store then answer.update else answer.create
  }

  /** The writes from `i` up to `n`, up to the first that is not accepted. */
  function Advance(
    store: Store, spec: ProxySpec, order: seq<string>, answers: seq<Answer>, i: nat, n: nat): (Store, bool)
    requires i <= n <= OBJECT_COUNT == |answers| && IsOrder(ConfigOf(spec.connectionType), order)
    decreases n - i
  {
    if i == n then (store, true)
    else
      var key := WriteKey(spec.namespace, spec.name, i);
      if Accepts(store, key, answers[i]) then
        Advance(store[key := WriteObject(spec, order, i)], spec, order, answers, i + 1, n)
      else (store, false)
  }

  /** Without the keys of the first `n` deletes; a delete that is not accepted leaves its object. */
  function Deleted(store: Store, namespace: string, name: string, accepted: seq<bool>, n: nat): Store
    requires n <= OBJECT_COUNT == |accepted|
  {
    if n == 0 then store
    else
      var before := Deleted(store, namespace, name, accepted, n - 1);
      if accepted[n - 1] then before - {DeleteKey(namespace, name, n - 1)} else before
  }

  /** The order of deletes: service, stateful set, secret, role binding, role, service account. */
  function DeleteKey(namespace: string, name: string, i: nat): Key
    requires i < OBJECT_COUNT
  {
    WriteKey(namespace, name, OBJECT_COUNT - 1 - i)
  }

  class ProxyBuilder {
    // The client, as the objects it reaches.
    var store: Store

    constructor (store: Store)
      ensures this.store == store
    {
      this.store := store;
    }

    /** Create fails for an object that exists, update for one that does not. */
    method CreateOrUpdate(key: Key, obj: Object, answer: Answer) returns (ok: bool)
      modifies this
      ensures ok == Accepts(old(store), key, answer)
      ensures store == if ok then old(store)[key := obj] else old(store)
    {
      ok := false;
      if key !in store && answer.create {
        store := store[key := obj];
        ok := true;
      }
      if !ok {
        if key in store && answer.update {
          store := store[key := obj];
          ok := true;
        }
      }
    }

    method CreateProxyServiceAccount(spec: ProxySpec, order: seq<string>, answers: seq<Answer>) returns (ok: bool)
      requires |answers| == OBJECT_COUNT && IsOrder(ConfigOf(spec.connectionType), order)
      modifies this
      ensures (store, ok) == Advance(old(store), spec, order, answers, 0, 3)
    {
      hide IsOrder, ConfigOf, Accepts;
      var account := AccountObject(spec.labels, spec.owner);
      ok := CreateOrUpdate(Key(ServiceAccount, spec.namespace, spec.name), account, answers[0]);
      if !ok {
        return;
      }
      var role := RoleObject(spec.labels, spec.owner, [SECRET_RULE]);
      ok := CreateOrUpdate(Key(Role, spec.namespace, spec.name), role, answers[1]);
      if !ok {
        return;
      }
      var binding := BindingObject(spec.labels, spec.owner, spec.name, spec.name, spec.namespace);
      assert binding == WriteObject(spec, order, 2);
      label Binding:
      ok := CreateOrUpdate(Key(RoleBinding, spec.namespace, spec.name), binding, answers[2]);
      assert (store, ok) == Advance(old@Binding(store), spec, order, answers, 2, 3);
    }

    method CreateProxyConfigSecret(spec: ProxySpec, order: seq<string>, answers: seq<Answer>, configSecretName: string)
      returns (ok: bool)
      requires |answers| == OBJECT_COUNT && IsOrder(ConfigOf(spec.connectionType), order)
      requires configSecretName == ConfigSecretName(spec.name)
      modifies this
      ensures (store, ok) == Advance(old(store), spec, order, answers, 3, 4)
    {
      hide Accepts;
      var config: Config := map["Version" := Str("alpha0"), "Locked" := Flag(false)];
      if spec.connectionType == "ingress" || spec.connectionType == "bidirectional" {
        config := config["AdvertiseServices" := List([])];
      }
      assert config == ConfigOf(spec.connectionType);
      hide IsOrder, ConfigOf, Print;
      var data := MarshalConfig(config, order);
      var secret := SecretObject(ConfigLabels(spec.name), spec.owner, map[CONFIG_FILE := data]);
      ok := CreateOrUpdate(Key(Secret, spec.namespace, configSecretName), secret, answers[3]);
    }

    method CreateProxyStatefulSet(spec: ProxySpec, order: seq<string>, answers: seq<Answer>, configSecretName: string)
      returns (ok: bool)
      requires |answers| == OBJECT_COUNT && IsOrder(ConfigOf(spec.connectionType), order)
      requires configSecretName == ConfigSecretName(spec.name)
      modifies this
      ensures (store, ok) == Advance(old(store), spec, order, answers, 4, 5)
    {
      hide IsOrder, ConfigOf, Accepts, EnvOf, MountsOf, VolumesOf;
      var image := "tailscale/tailscale:latest";
      if spec.image.Some? && spec.image.value != "" {
        image := spec.image.value;
      }
      var containerPorts := ContainerPorts(spec.ports);
      assert containerPorts == ContainerPortsOf(spec.ports);
      var tailnetName := SanitizeTailnetName(spec.tailnet);
      var container := Container(image, containerPorts, EnvOf(tailnetName), MountsOf(tailnetName));
      var statefulSet := SetObject(spec.labels, spec.owner, spec.replicas, spec.name, spec.labels, spec.labels,
                                   spec.name, container, VolumesOf(tailnetName, configSecretName));
      ok := CreateOrUpdate(Key(StatefulSet, spec.namespace, spec.name), statefulSet, answers[4]);
    }

    method CreateProxyService(spec: ProxySpec, order: seq<string>, answers: seq<Answer>) returns (ok: bool)
      requires |answers| == OBJECT_COUNT && IsOrder(ConfigOf(spec.connectionType), order)
      modifies this
      ensures (store, ok) == Advance(old(store), spec, order, answers, 5, 6)
    {
      hide IsOrder, ConfigOf, Accepts;
      var servicePorts := ServicePorts(spec.ports);
      assert servicePorts == ServicePortsOf(spec.ports);
      var service := ServiceObject(spec.labels, spec.owner, "ClusterIP", "None", spec.labels, servicePorts);
      ok := CreateOrUpdate(Key(Service, spec.namespace, spec.name), service, answers[5]);
    }

    /** The six writes in order, up to the first that fails. */
    method CreateProxyInfrastructure(spec: ProxySpec, order: seq<string>, answers: seq<Answer>) returns (ok: bool)
      requires |answers| == OBJECT_COUNT && IsOrder(ConfigOf(spec.connectionType), order)
      modifies this
      ensures (store, ok) == Advance(old(store), spec, order, answers, 0, OBJECT_COUNT)
    {
      AdvanceSplit(store, spec, order, answers, 0, 3, 6);
      ok := CreateProxyServiceAccount(spec, order, answers);
      if !ok {
        return;
      }
      var configSecretName := spec.name + "-config";
      AdvanceSplit(store, spec, order, answers, 3, 4, 6);
      ok := CreateProxyConfigSecret(spec, order, answers, configSecretName);
      if !ok {
        return;
      }
      AdvanceSplit(store, spec, order, answers, 4, 5, 6);
      ok := CreateProxyStatefulSet(spec, order, answers, configSecretName);
      if !ok {
        return;
      }
      ok := CreateProxyService(spec, order, answers);
    }

    /** Deletes the six objects in turn; a failure is logged and the next delete tried. */
    method DeleteProxyInfrastructure(namespace: string, name: string, accepted: seq<bool>)
      requires |accepted| == OBJECT_COUNT
      modifies this
      ensures store == Deleted(old(store), namespace, name, accepted, OBJECT_COUNT)
    {
      var objects := [
        Key(Service, namespace, name),
        Key(StatefulSet, namespace, name),
        Key(Secret, namespace, name + "-config"),
        Key(RoleBinding, namespace, name),
        Key(Role, namespace, name),
        Key(ServiceAccount, namespace, name)];
      assert forall i: nat | i < OBJECT_COUNT :: objects[i] == DeleteKey(namespace, name, i);
      for i := 0 to |objects|
        invariant store == Deleted(old(store), namespace, name, accepted, i)
      {
        if accepted[i] {
          store := store - {objects[i]};
        }
      }
    }
  }

  lemma {:induction false} AdvanceSplit(
    store: Store, spec: ProxySpec, order: seq<string>, answers: seq<Answer>, i: nat, m: nat, n: nat)
    requires i <= m <= n <= OBJECT_COUNT == |answers| && IsOrder(ConfigOf(spec.connectionType), order)
    ensures var (middle, ok) := Advance(store, spec, order, answers, i, m);
            Advance(store, spec, order, answers, i, n) ==
              if ok then Advance(middle, spec, order, answers, m, n) else (middle, false)
    decreases m - i
  {
    hide IsOrder, ConfigOf, Accepts, WriteKey, WriteObject;
    if i < m {
      var key := WriteKey(spec.namespace, spec.name, i);
      AdvanceSplit(store[key := WriteObject(spec, order, i)], spec, order, answers, i + 1, m, n);
    }
  }
}
