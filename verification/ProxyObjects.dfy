/** What a complete creation of a proxy leaves in the store, object by object, and how the objects fit together. */
module ProxyObjects {
  import opened Options
  import opened Ports
  import opened ConfigPrinter
  import opened ConfigRoundTrip
  import opened ProxyBuilder
  import opened ProxyTheorems

  /** A creation that got to its end left `after`. */
  ghost predicate Completes(
    store: Store, spec: ProxySpec, order: seq<string>, answers: seq<Answer>, after: Store)
  {
    && |answers| == OBJECT_COUNT && IsOrder(ConfigOf(spec.connectionType), order)
    && Advance(store, spec, order, answers, 0, OBJECT_COUNT) == (after, true)
  }

  lemma {:induction false} CompleteIsPrefix(
    store: Store, spec: ProxySpec, order: seq<string>, answers: seq<Answer>, after: Store)
    requires Completes(store, spec, order, answers, after)
    ensures after == Prefix(store, spec, order, OBJECT_COUNT)
  {
    hide IsOrder, ConfigOf, Advance, Prefix, StopsAt;
    var k := StopExists(store, spec, answers, 0);
    CreationIsPrefix(store, spec, order, answers, k);
  }

  lemma {:induction false} CompleteHolds(
    store: Store, spec: ProxySpec, order: seq<string>, answers: seq<Answer>, after: Store, i: nat)
    requires Completes(store, spec, order, answers, after) && i < OBJECT_COUNT
    ensures WriteKey(spec.namespace, spec.name, i) in after
    ensures after[WriteKey(spec.namespace, spec.name, i)] == WriteObject(spec, order, i)
  {
    hide IsOrder, ConfigOf, WriteKey, WriteObject, Advance, Prefix, Among;
    CompleteIsPrefix(store, spec, order, answers, after);
    PrefixHolds(store, spec, order, OBJECT_COUNT);
  }

  // ------------------------------------------------------------------ the keys

  /** The keys of one proxy. */
  function ProxyKeys(namespace: string, name: string): set<Key> {
    {Key(ServiceAccount, namespace, name), Key(Role, namespace, name), Key(RoleBinding, namespace, name),
     Key(Secret, namespace, name + "-config"), Key(StatefulSet, namespace, name), Key(Service, namespace, name)}
  }

  /** A complete creation fills exactly these keys and no other. */
  lemma {:induction false} FillsItsKeys(
    store: Store, spec: ProxySpec, order: seq<string>, answers: seq<Answer>, after: Store)
    requires Completes(store, spec, order, answers, after)
    ensures after.Keys == store.Keys + ProxyKeys(spec.namespace, spec.name)
    ensures forall key <- store | key !in ProxyKeys(spec.namespace, spec.name) :: after[key] == store[key]
  {
    hide IsOrder, ConfigOf, WriteObject, Advance, Prefix;
    CompleteIsPrefix(store, spec, order, answers, after);
    PrefixHolds(store, spec, order, OBJECT_COUNT);
    KeysAreWritten(spec.namespace, spec.name);
    hide WriteKey, ProxyKeys;
    forall key ensures key in ProxyKeys(spec.namespace, spec.name) <==>
                         Among(spec.namespace, spec.name, OBJECT_COUNT, key)
    {
    }
    forall key ensures key in after <==> key in store || key in ProxyKeys(spec.namespace, spec.name) {
      assert Among(spec.namespace, spec.name, OBJECT_COUNT, key) || SameAt(store, after, key);
    }
    forall key <- store | key !in ProxyKeys(spec.namespace, spec.name) ensures after[key] == store[key] {
      assert SameAt(store, after, key);
    }
  }

  lemma {:induction false} KeysAreWritten(namespace: string, name: string)
    ensures forall key :: key in ProxyKeys(namespace, name) <==> Among(namespace, name, OBJECT_COUNT, key)
  {
    assert ProxyKeys(namespace, name) == {
      WriteKey(namespace, name, 0), WriteKey(namespace, name, 1), WriteKey(namespace, name, 2),
      WriteKey(namespace, name, 3), WriteKey(namespace, name, 4), WriteKey(namespace, name, 5)};
    hide WriteKey, ProxyKeys;
  }

  /** A deletion whose deletes succeed takes away exactly these keys. */
  lemma {:induction false} EmptiesItsKeys(store: Store, namespace: string, name: string, accepted: seq<bool>)
    requires |accepted| == OBJECT_COUNT && forall i | 0 <= i < OBJECT_COUNT :: accepted[i]
    ensures Deleted(store, namespace, name, accepted, OBJECT_COUNT) == store - ProxyKeys(namespace, name)
  {
    DeletedHolds(store, namespace, name, accepted, OBJECT_COUNT);
    KeysAreWritten(namespace, name);
    hide WriteKey, ProxyKeys, Deleted;
    forall key ensures Among(namespace, name, OBJECT_COUNT, key) <==>
                         exists i: nat | i < OBJECT_COUNT && accepted[i] :: key == DeleteKey(namespace, name, i)
    {
      forall i: nat | i < OBJECT_COUNT
        ensures DeleteKey(namespace, name, OBJECT_COUNT - 1 - i) == WriteKey(namespace, name, i)
      {
      }
    }
    hide Among, DeleteKey;
    assert Deleted(store, namespace, name, accepted, OBJECT_COUNT).Keys == store.Keys - ProxyKeys(namespace, name);
  }

  // ------------------------------------------------------------------ the ports

  /** The ports of the stateful set and of the service are those that were asked for, index by index. */
  ghost predicate PortsAsGiven(
    containerPorts: seq<ContainerPort>, servicePorts: seq<ServicePort>, ports: seq<PortMapping>)
  {
    && |containerPorts| == |servicePorts| == |ports|
    && forall i | 0 <= i < |ports| ::
         && containerPorts[i].name == servicePorts[i].name == ports[i].name
         && containerPorts[i].containerPort == servicePorts[i].port == ports[i].port
         && containerPorts[i].protocol == servicePorts[i].protocol
         && (servicePorts[i].protocol == UDP <==> ports[i].protocol == "UDP")
         && servicePorts[i].targetPort == (if ports[i].targetPort.Some? then ports[i].targetPort.value
                                           else containerPorts[i].containerPort)
  }

  lemma {:induction false} PortsAgree(
    store: Store, spec: ProxySpec, order: seq<string>, answers: seq<Answer>, after: Store)
    requires Completes(store, spec, order, answers, after)
    ensures var setKey, serviceKey :=
              Key(StatefulSet, spec.namespace, spec.name), Key(Service, spec.namespace, spec.name);
            && setKey in after && after[setKey].SetObject? && serviceKey in after && after[serviceKey].ServiceObject?
            && PortsAsGiven(after[setKey].container.ports, after[serviceKey].servicePorts, spec.ports)
  {
    hide Completes, EnvOf, MountsOf, VolumesOf;
    CompleteHolds(store, spec, order, answers, after, 4);
    CompleteHolds(store, spec, order, answers, after, 5);
  }

  // ------------------------------------------------------------------ the workload

  /** The same text with a hyphen for every character but ASCII letters, digits and hyphens. */
  predicate IsSanitized(text: string, tailnet: string) {
    && |text| == |tailnet|
    && forall i | 0 <= i < |tailnet| ::
         var c := tailnet[i];
         text[i] == if 'a' <= c <= 'z' || 'A' <= c <= 'Z' || '0' <= c <= '9' then c else '-'
  }

  /** What the stateful set runs: the image and the number of replicas that were asked for. */
  predicate RunsAsGiven(set_: Object, spec: ProxySpec) {
    && set_.SetObject?
    && set_.container.image == (if spec.image.Some? && spec.image.value != "" then spec.image.value
                                else "tailscale/tailscale:latest")
    && set_.replicas == spec.replicas
  }

  /** The proxy finds its configuration where the secret is mounted. */
  ghost predicate ConfigMounted(set_: Object, secretName: string, tailnet: string) {
    && set_.SetObject? && |set_.container.mounts| == |set_.volumes| == 1
    && set_.volumes[0].secretName == secretName
    && set_.container.mounts[0].name == set_.volumes[0].name && set_.container.mounts[0].readOnly
    && TextVar("TS_EXPERIMENTAL_VERSIONED_CONFIG_DIR", set_.container.mounts[0].mountPath) in set_.container.env
    && exists text :: IsSanitized(text, tailnet) && set_.container.mounts[0].mountPath == "/etc/tsconfig/" + text
  }

  /** Each replica keeps its state in a secret named after its pod, and needs no device of the node. */
  predicate KeepsState(set_: Object) {
    && set_.SetObject?
    && TextVar("TS_KUBE_SECRET", "$(POD_NAME)") in set_.container.env
    && TextVar("TS_STATE", "kube:$(POD_NAME)") in set_.container.env
    && TextVar("TS_USERSPACE", "true") in set_.container.env
    && FieldVar("POD_NAME", "metadata.name") in set_.container.env
    && FieldVar("POD_UID", "metadata.uid") in set_.container.env
    && |set_.container.env| == 6
  }

  lemma {:induction false} WorkloadAsGiven(
    store: Store, spec: ProxySpec, order: seq<string>, answers: seq<Answer>, after: Store)
    requires Completes(store, spec, order, answers, after)
    ensures var setKey := Key(StatefulSet, spec.namespace, spec.name);
            && setKey in after && RunsAsGiven(after[setKey], spec) && KeepsState(after[setKey])
            && ConfigMounted(after[setKey], spec.name + "-config", spec.tailnet)
  {
    hide Completes, ContainerPortsOf;
    CompleteHolds(store, spec, order, answers, after, 4);
    assert IsSanitized(Sanitized(spec.tailnet), spec.tailnet);
    var set_ := after[Key(StatefulSet, spec.namespace, spec.name)];
    assert set_.container.env[2] == TextVar("TS_EXPERIMENTAL_VERSIONED_CONFIG_DIR", set_.container.mounts[0].mountPath);
  }

  // ------------------------------------------------------------------ how the objects refer to each other

  /** The service is headless, selects the pods of the stateful set, and is the one that the set names. */
  ghost predicate Fronts(store: Store, serviceKey: Key, setKey: Key) {
    && serviceKey in store && store[serviceKey].ServiceObject? && setKey in store && store[setKey].SetObject?
    && store[setKey].serviceName == serviceKey.name && store[serviceKey].clusterIP == "None"
    && store[serviceKey].serviceType == "ClusterIP"
    && store[serviceKey].selector == store[setKey].podLabels == store[setKey].selector
  }

  /** Pods of the stateful set may read and write secrets: its account is bound to a role that says so. */
  ghost predicate Authorized(store: Store, setKey: Key, bindingKey: Key, roleKey: Key, accountKey: Key) {
    && setKey in store && store[setKey].SetObject? && bindingKey in store && store[bindingKey].BindingObject?
    && roleKey in store && store[roleKey].RoleObject? && accountKey in store && store[accountKey].AccountObject?
    && store[setKey].account == store[bindingKey].account == accountKey.name
    && store[bindingKey].accountNamespace == accountKey.namespace && store[bindingKey].role == roleKey.name
    && store[roleKey].rules ==
         [PolicyRule([""], ["secrets"], ["get", "list", "watch", "create", "update", "patch"])]
  }

  lemma {:induction false} ServiceFrontsSet(
    store: Store, spec: ProxySpec, order: seq<string>, answers: seq<Answer>, after: Store)
    requires Completes(store, spec, order, answers, after)
    ensures Fronts(after, Key(Service, spec.namespace, spec.name), Key(StatefulSet, spec.namespace, spec.name))
    ensures after[Key(StatefulSet, spec.namespace, spec.name)].podLabels == spec.labels
  {
    hide Completes, EnvOf, MountsOf, VolumesOf, ContainerPortsOf, ServicePortsOf;
    CompleteHolds(store, spec, order, answers, after, 4);
    CompleteHolds(store, spec, order, answers, after, 5);
  }

  lemma {:induction false} SetIsAuthorized(
    store: Store, spec: ProxySpec, order: seq<string>, answers: seq<Answer>, after: Store)
    requires Completes(store, spec, order, answers, after)
    ensures Authorized(
              after, Key(StatefulSet, spec.namespace, spec.name), Key(RoleBinding, spec.namespace, spec.name),
              Key(Role, spec.namespace, spec.name), Key(ServiceAccount, spec.namespace, spec.name))
  {
    hide Completes, EnvOf, MountsOf, VolumesOf, ContainerPortsOf;
    CompleteHolds(store, spec, order, answers, after, 0);
    CompleteHolds(store, spec, order, answers, after, 1);
    CompleteHolds(store, spec, order, answers, after, 2);
    CompleteHolds(store, spec, order, answers, after, 4);
  }

  // ------------------------------------------------------------------ the configuration and the owners

  /** The configuration that the secret holds, as it is read back. */
  function ConfigFor(connectionType: string): Config {
    if connectionType == "ingress" || connectionType == "bidirectional" then
      map["Version" := Str("alpha0"), "Locked" := Flag(false), "AdvertiseServices" := List([])]
    else map["Version" := Str("alpha0"), "Locked" := Flag(false)]
  }

  lemma {:induction false} SecretHoldsConfig(
    store: Store, spec: ProxySpec, order: seq<string>, answers: seq<Answer>, after: Store)
    requires Completes(store, spec, order, answers, after)
    ensures var key := Key(Secret, spec.namespace, spec.name + "-config");
            && key in after && after[key].SecretObject? && after[key].data.Keys == {"cap-106.hujson"}
            && ReadConfig(after[key].data["cap-106.hujson"]) == Some(ConfigFor(spec.connectionType))
            && after[key].labels == map[
                 "app.kubernetes.io/name" := "tailscale-proxy", "app.kubernetes.io/instance" := spec.name,
                 "app.kubernetes.io/component" := "config", "tailscale.com/managed" := "true",
                 "tailscale.com/parent-type" := "proxy", "tailscale.com/parent-name" := spec.name]
  {
    CompleteHolds(store, spec, order, answers, after, 3);
    assert ConfigOf(spec.connectionType) == ConfigFor(spec.connectionType);
    hide Advance, ConfigOf, ConfigFor, IsOrder, Print, ReadConfig;
    SecretReadsBack(spec, order);
  }

  /** Every object belongs to the service that the proxy is for; all but the secret have the labels asked for. */
  lemma {:induction false} AllOwned(
    store: Store, spec: ProxySpec, order: seq<string>, answers: seq<Answer>, after: Store, key: Key)
    requires Completes(store, spec, order, answers, after) && key in ProxyKeys(spec.namespace, spec.name)
    ensures key in after && after[key].owner == spec.owner && (!key.kind.Secret? ==> after[key].labels == spec.labels)
  {
    KeysAreWritten(spec.namespace, spec.name);
    hide Completes, ProxyKeys, WriteKey, WriteObject;
    var i: nat :| i < OBJECT_COUNT && key == WriteKey(spec.namespace, spec.name, i);
    CompleteHolds(store, spec, order, answers, after, i);
    OwnerAndLabels(store, spec, order, answers, after, i);
  }

  lemma {:induction false} OwnerAndLabels(
    store: Store, spec: ProxySpec, order: seq<string>, answers: seq<Answer>, after: Store, i: nat)
    requires Completes(store, spec, order, answers, after) && i < OBJECT_COUNT
    ensures WriteObject(spec, order, i).owner == spec.owner
    ensures WriteKey(spec.namespace, spec.name, i).kind.Secret? || WriteObject(spec, order, i).labels == spec.labels
  {
    hide ConfigOf, IsOrder, Advance, Print, EnvOf, MountsOf, VolumesOf, ContainerPortsOf, ServicePortsOf, Sanitized;
  }
}
