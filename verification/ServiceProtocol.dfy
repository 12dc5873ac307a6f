/** The finalizer protocol over runs of users, other owners of VIP services, and the reconciler. */
module ServiceProtocol {
  import opened Options
  import opened Api
  import opened VIPClient
  import opened ServiceReconciler
  import B = ProxyBuilder

  // ------------------------------------------------------------------ runs

  // A reconcile is one step.  VIP services are also put and removed by others than the controller.
  datatype Action =
    | Create(key: ObjectKey, uid: string, finalizers: set<string>, spec: ServiceSpec)
    | Edit(key: ObjectKey, finalizers: set<string>, spec: ServiceSpec)
    | RequestDeletion(key: ObjectKey)
    | Reconcile(key: ObjectKey, o: Outcome)
    | PutVIP(name: string, vip: VIPService)
    | RemoveVIP(name: string)
  {
    predicate Possible() {
      Reconcile? ==> o.Possible()
    }
  }

  function Perform(c: Cluster, a: Action): Cluster
    requires a.Possible()
  {
    match a
    case Create(key, uid, finalizers, spec) =>
      if key in c.objects then c
      else c.(objects := c.objects[key := Resource(uid, finalizers, false, spec, EMPTY_STATUS)])
    case Edit(key, finalizers, spec) =>
      if key !in c.objects then c
      else c.(objects := WithFinalizers(c.objects[key := c.objects[key].(spec := spec)], key, finalizers))
    case RequestDeletion(key) =>
      if key !in c.objects then c
      else
        var resource := c.objects[key];
        c.(objects := WithFinalizers(c.objects[key := resource.(deleting := true)], key, resource.finalizers))
    case Reconcile(key, o) => Step(c, key, o)
    case PutVIP(name, vip) =>
      c.(vips := c.vips[name := vip.(byController := name in c.vips && c.vips[name].byController)])
    case RemoveVIP(name) => c.(vips := c.vips - {name})
  }

  /**
   What the protocol assumes: users keep the VIP service name and the finalizer, the client
   is set, and status writes and deletes of VIP services succeed.  Every other call may fail.
   */
  predicate Allowed(c: Cluster, a: Action) {
    match a
    case Edit(key, finalizers, spec) =>
      key in c.objects ==>
        && VipServiceName(spec, key.name) == VipServiceName(c.objects[key].spec, key.name)
        && (FINALIZER in c.objects[key].finalizers ==> FINALIZER in finalizers)
    case Reconcile(_, o) => o.clientSet && o.statusUpdateOk && o.deleteOk
    case _ => true
  }

  function Run(start: Cluster, actions: seq<Action>, n: nat): Cluster
    requires n <= |actions| && forall a <- actions :: a.Possible()
  {
    if n == 0 then start else Perform(Run(start, actions, n - 1), actions[n - 1])
  }

  predicate AllAllowed(start: Cluster, actions: seq<Action>, n: nat)
    requires n <= |actions| && forall a <- actions :: a.Possible()
  {
    forall i: nat | i < n :: Allowed(Run(start, actions, i), actions[i])
  }

  // ------------------------------------------------------------------ the invariant

  predicate HasRecord(resource: Resource) {
    resource.status.vip.Some? && resource.status.vip.value.created
  }

  /** The object carries the finalizer and records the VIP service as created. */
  predicate Records(resource: Resource, name: string) {
    FINALIZER in resource.finalizers && HasRecord(resource) && resource.status.vip.value.serviceName == name
  }

  ghost predicate Recorded(c: Cluster, name: string) {
    exists key <- c.objects :: Records(c.objects[key], name)
  }

  predicate ByController(vips: VIPs, name: string) {
    name in vips && vips[name].byController
  }

  ghost predicate Tracked(c: Cluster) {
    forall name | ByController(c.vips, name) :: Recorded(c, name)
  }

  /** What an object records as created is a VIP service of its own name, which a delete accepts. */
  predicate RecordsOwnName(key: ObjectKey, resource: Resource) {
    HasRecord(resource) ==>
      var recorded := resource.status.vip.value.serviceName;
      recorded == VipServiceName(resource.spec, key.name) && ValidateName(recorded).None?
  }

  ghost predicate Inv(c: Cluster) {
    Tracked(c) && forall key <- c.objects :: RecordsOwnName(key, c.objects[key])
  }

  // ------------------------------------------------------------------ one reconcile

  /** The VIP service is put. */
  predicate Creates(c: Cluster, key: ObjectKey, o: Outcome)
    requires key in c.objects
  {
    var spec := c.objects[key].spec;
    var name := VipServiceName(spec, key.name);
    !Found(c.vips, name, o.lookupOk) && CreateError(name, spec.vipService, o).None?
  }

  /** With the client set, the VIP part either fails and changes nothing, or records the VIP service. */
  lemma {:induction false} VIPPartRecords(before: VIPStatus, name: string, spec: ServiceSpec, vips: VIPs, o: Outcome)
    requires o.clientSet
    ensures var result, vipName := ReconciledVIP(before, name, spec, vips, o), VipServiceName(spec, name);
            var creates := !Found(vips, vipName, o.lookupOk) && CreateError(vipName, spec.vipService, o).None?;
            && (result.error.Some? ==> result.vips == vips && result.status == before && !creates)
            && (result.error.None? ==>
                  && result.status.created && result.status.serviceName == vipName && ValidateName(vipName).None?
                  && (creates && o.secondLookupOk ==>
                        vipName in result.vips && result.status.addresses == result.vips[vipName].addrs)
                  && forall n :: ByController(result.vips, n) == (ByController(vips, n) || (n == vipName && creates)))
  {
    var vipName := VipServiceName(spec, name);
    hide ValidateName, ValidateVIPService, VipServiceName;
    if ValidateVIPService(vipName, spec.vipService.ports, spec.vipService.tags).None? {
      CreatedNameIsValid(vipName, spec.vipService.ports, spec.vipService.tags);
    }
  }

  /** What the whole reconcile leaves of the VIP part. */
  lemma {:induction false} WorkKeepsVIPPart(key: ObjectKey, resource: Resource, vips: VIPs, store: B.Store, o: Outcome)
    requires o.Possible()
    ensures var work := WorkOf(key, resource, vips, store, o);
            var result := ReconciledVIP(resource.status.vip.GetOr(EMPTY_VIP), key.name, resource.spec, vips, o);
            && work.vips == result.vips && work.status.vip.Some?
            && work.status.vip.value.created == result.status.created
            && work.status.vip.value.serviceName == result.status.serviceName
  {
    hide ReconciledVIP, Replaced, ReconciledProxy, ProxyStatusOf, VIPReport, ProxyReport, ReadyReport;
  }

  /** With the client set, a reconcile either fails and changes nothing of the VIP service, or records it. */
  lemma {:induction false} VIPIsRecorded(c: Cluster, key: ObjectKey, o: Outcome)
    requires key in c.objects && o.Possible() && o.clientSet
    ensures var resource := c.objects[key];
            var name, before := VipServiceName(resource.spec, key.name), resource.status.vip.GetOr(EMPTY_VIP);
            var work := WorkOf(key, resource, c.vips, c.store, o);
            var failed := ReconciledVIP(before, key.name, resource.spec, c.vips, o).error.Some?;
            && work.status.vip.Some?
            && (failed ==> && work.vips == c.vips && !Creates(c, key, o)
                           && work.status.vip.value.created == before.created
                           && work.status.vip.value.serviceName == before.serviceName)
            && (!failed ==>
                  && work.status.vip.value.created
                  && work.status.vip.value.serviceName == name && ValidateName(name).None?
                  && forall n :: ByController(work.vips, n) ==
                       (ByController(c.vips, n) || (n == name && Creates(c, key, o))))
  {
    hide WorkOf;
    var resource := c.objects[key];
    VIPPartRecords(resource.status.vip.GetOr(EMPTY_VIP), key.name, resource.spec, c.vips, o);
    WorkKeepsVIPPart(key, resource, c.vips, c.store, o);
    hide ReconciledVIP, WorkOf, ValidateName, Found, CreateError;
  }

  lemma {:induction false} RecordedElsewhere(c: Cluster, d: Cluster, key: ObjectKey, name: string)
    requires Recorded(c, name) && (key in c.objects ==> !Records(c.objects[key], name))
    requires forall k <- c.objects | k != key :: k in d.objects && d.objects[k] == c.objects[k]
    ensures Recorded(d, name)
  {
    var k :| k in c.objects && Records(c.objects[k], name);
    assert k in d.objects && Records(d.objects[k], name);
  }

  /** A working reconcile: the object stays, carries the finalizer, and is not being deleted. */
  predicate Works(c: Cluster, key: ObjectKey, o: Outcome) {
    key in c.objects && o.Possible() && o.getOk && !c.objects[key].deleting && FINALIZER in c.objects[key].finalizers
  }

  lemma {:induction false} StepOfWork(c: Cluster, key: ObjectKey, o: Outcome)
    requires Works(c, key, o)
    ensures var work := WorkOf(key, c.objects[key], c.vips, c.store, o);
            Step(c, key, o) ==
              Cluster(if o.statusUpdateOk then c.objects[key := c.objects[key].(status := work.status)] else c.objects,
                      work.vips, work.store)
  {
    hide WorkOf;
  }

  /** A new status that records the own name, or what was recorded before, keeps the invariant. */
  lemma {:induction false} StatusChangeKeepsInv(
    c: Cluster, d: Cluster, key: ObjectKey, status: ServiceStatus, creates: bool)
    requires Inv(c) && key in c.objects && FINALIZER in c.objects[key].finalizers
    requires d.objects == c.objects[key := c.objects[key].(status := status)] && status.vip.Some?
    requires var before, after := c.objects[key].status.vip.GetOr(EMPTY_VIP), status.vip.value;
             var name := VipServiceName(c.objects[key].spec, key.name);
             || (after.created == before.created && after.serviceName == before.serviceName && !creates)
             || (after.created && after.serviceName == name && ValidateName(name).None?)
    requires forall n | ByController(d.vips, n) ::
               ByController(c.vips, n) || (n == VipServiceName(c.objects[key].spec, key.name) && creates)
    ensures Inv(d)
  {
    hide ValidateName, VipServiceName;
    forall n | ByController(d.vips, n) ensures Recorded(d, n) {
      if Records(d.objects[key], n) {
      } else {
        assert Recorded(c, n) && !Records(c.objects[key], n);
        RecordedElsewhere(c, d, key, n);
      }
    }
  }

  lemma {:induction false} WorkKeepsInv(c: Cluster, key: ObjectKey, o: Outcome)
    requires Inv(c) && Works(c, key, o) && o.clientSet && o.statusUpdateOk
    ensures Inv(Step(c, key, o))
  {
    hide Step, WorkOf;
    VIPIsRecorded(c, key, o);
    StepOfWork(c, key, o);
    var work := WorkOf(key, c.objects[key], c.vips, c.store, o);
    hide ReconciledVIP, Creates, ValidateName, VipServiceName, Inv, ByController;
    StatusChangeKeepsInv(c, Step(c, key, o), key, work.status, Creates(c, key, o));
  }

  /** What happens to an object that is being deleted. */
  lemma {:induction false} DeletionKeepsInv(c: Cluster, key: ObjectKey, o: Outcome)
    requires Inv(c) && key in c.objects && o.Possible() && o.getOk
             && c.objects[key].deleting && o.clientSet && o.deleteOk
    ensures Inv(Step(c, key, o))
    ensures forall name | Records(c.objects[key], name) :: name !in Step(c, key, o).vips
  {
    hide ValidateName, WorkOf, VipServiceName;
    var d, resource := Step(c, key, o), c.objects[key];
    assert RecordsOwnName(key, resource);
    forall n | ByController(d.vips, n) ensures Recorded(d, n) {
      assert ByController(c.vips, n) && !Records(resource, n);
      RecordedElsewhere(c, d, key, n);
    }
  }

  /** Anything that keeps what the other objects record, and what this one records, keeps the invariant. */
  lemma {:induction false} ObjectChangeKeepsInv(c: Cluster, d: Cluster, key: ObjectKey)
    requires Inv(c) && c.vips == d.vips
    requires forall k <- c.objects | k != key :: k in d.objects && d.objects[k] == c.objects[k]
    requires forall k <- d.objects | k != key :: k in c.objects
    requires key in c.objects && FINALIZER in c.objects[key].finalizers ==>
               key in d.objects && FINALIZER in d.objects[key].finalizers
    requires key in d.objects ==>
               if key in c.objects
               then && d.objects[key].status == c.objects[key].status
                    && (HasRecord(c.objects[key]) ==>
                          VipServiceName(d.objects[key].spec, key.name) ==
                            VipServiceName(c.objects[key].spec, key.name))
               else d.objects[key].status == EMPTY_STATUS
    ensures Inv(d)
  {
    hide ValidateName, VipServiceName;
    forall n | ByController(d.vips, n) ensures Recorded(d, n) {
      assert Recorded(c, n);
      if key in c.objects && Records(c.objects[key], n) {
        assert Records(d.objects[key], n);
      } else {
        RecordedElsewhere(c, d, key, n);
      }
    }
  }

  lemma {:induction false} ReconcileKeepsInv(c: Cluster, key: ObjectKey, o: Outcome)
    requires Inv(c) && o.Possible() && o.clientSet && o.statusUpdateOk && o.deleteOk
    ensures Inv(Step(c, key, o))
  {
    hide WorkOf;
    if key in c.objects && o.getOk {
      if c.objects[key].deleting {
        DeletionKeepsInv(c, key, o);
      } else if FINALIZER in c.objects[key].finalizers {
        WorkKeepsInv(c, key, o);
      } else {
        hide Inv, WorkOf, VipServiceName;
        ObjectChangeKeepsInv(c, Step(c, key, o), key);
      }
    }
  }

  lemma {:induction false} PerformKeepsInv(c: Cluster, a: Action)
    requires Inv(c) && a.Possible() && Allowed(c, a)
    ensures Inv(Perform(c, a))
  {
    hide Step, ValidateName, VipServiceName;
    match a
    case Create(key, _, _, _) => ObjectChangeKeepsInv(c, Perform(c, a), key);
    case Edit(key, _, _) => if key in c.objects { ObjectChangeKeepsInv(c, Perform(c, a), key); }
    case RequestDeletion(key) => if key in c.objects { ObjectChangeKeepsInv(c, Perform(c, a), key); }
    case Reconcile(key, o) => ReconcileKeepsInv(c, key, o);
    case PutVIP(name, vip) => VIPChangeKeepsInv(c, Perform(c, a));
    case RemoveVIP(name) => VIPChangeKeepsInv(c, Perform(c, a));
  }

  lemma {:induction false} VIPChangeKeepsInv(c: Cluster, d: Cluster)
    requires Inv(c) && d.objects == c.objects && forall n | ByController(d.vips, n) :: ByController(c.vips, n)
    ensures Inv(d)
  {
    hide RecordsOwnName;
    forall n | ByController(d.vips, n) ensures Recorded(d, n) {
      assert Recorded(c, n);
    }
  }

  /** Before there are any objects, all there is to ask is that no VIP service is the controller's. */
  lemma {:induction false} EmptyClusterHasInv(c: Cluster)
    requires c.objects == map[]
    ensures Inv(c) <==> forall name <- c.vips :: !c.vips[name].byController
  {
    assert forall name :: !Recorded(c, name);
    assert forall name <- c.vips :: ByController(c.vips, name) == c.vips[name].byController;
  }

  /**
   In every state of every allowed run, a VIP service that the controller created has a live
   object that carries the finalizer and records it as created, under that name.
   */
  lemma {:induction false} InvAlways(start: Cluster, actions: seq<Action>, n: nat)
    requires n <= |actions| && (forall a <- actions :: a.Possible())
    requires Inv(start) && AllAllowed(start, actions, n)
    ensures Inv(Run(start, actions, n))
  {
    hide Inv, Perform, Allowed;
    if n > 0 {
      InvAlways(start, actions, n - 1);
      PerformKeepsInv(Run(start, actions, n - 1), actions[n - 1]);
    }
  }

  /** So once no object of that VIP service name is left, the controller's VIP service is gone too. */
  lemma {:induction false} GoneMeansGone(start: Cluster, actions: seq<Action>, n: nat, name: string)
    requires n <= |actions| && (forall a <- actions :: a.Possible())
    requires Inv(start) && AllAllowed(start, actions, n)
    requires var objects := Run(start, actions, n).objects;
             forall key <- objects :: VipServiceName(objects[key].spec, key.name) != name
    ensures !ByController(Run(start, actions, n).vips, name)
  {
    InvAlways(start, actions, n);
    hide Run, AllAllowed, ValidateName, VipServiceName;
    var c := Run(start, actions, n);
    assert ByController(c.vips, name) ==> Recorded(c, name);
  }
}
