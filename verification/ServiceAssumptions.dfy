/** What the finalizer protocol loses without each of its assumptions, exactly. */
module ServiceAssumptions {
  import opened Options
  import opened Api
  import opened ConfigPrinter
  import opened VIPClient
  import opened ServiceReconciler
  import opened ServiceProtocol
  import B = ProxyBuilder

  ghost predicate RecordedByOther(c: Cluster, key: ObjectKey, name: string) {
    exists k <- c.objects | k != key :: Records(c.objects[k], name)
  }

  /** The object alone records a VIP service that the controller created. */
  ghost predicate SoleRecorder(c: Cluster, key: ObjectKey)
    requires key in c.objects
  {
    && HasRecord(c.objects[key])
    && var name := c.objects[key].status.vip.value.serviceName;
       Records(c.objects[key], name) && ByController(c.vips, name) && !RecordedByOther(c, key, name)
  }

  /** What the object recorded is no longer recorded; nothing else has changed. */
  lemma {:induction false} RecordLost(c: Cluster, d: Cluster, key: ObjectKey)
    requires Inv(c) && key in c.objects && c.objects - {key} == d.objects - {key}
    requires forall name :: ByController(d.vips, name) == ByController(c.vips, name)
    requires key in d.objects ==>
               RecordsOwnName(key, d.objects[key]) && forall name :: !Records(d.objects[key], name)
    ensures Inv(d) <==> !SoleRecorder(c, key)
  {
    hide RecordsOwnName, ByController;
    assert forall k | k != key :: k in c.objects <==> k in c.objects - {key};
    assert forall k | k != key :: k in d.objects <==> k in d.objects - {key};
    forall name ensures Recorded(d, name) <==> RecordedByOther(c, key, name) {
      if RecordedByOther(c, key, name) {
        var k :| k in c.objects && k != key && Records(c.objects[k], name);
        assert d.objects[k] == (d.objects - {key})[k] == c.objects[k];
      }
      if Recorded(d, name) {
        var k :| k in d.objects && Records(d.objects[k], name);
        assert c.objects[k] == (c.objects - {key})[k] == d.objects[k];
      }
    }
    forall k <- d.objects ensures RecordsOwnName(k, d.objects[k]) {
      if k != key { assert d.objects[k] == (d.objects - {key})[k] == c.objects[k]; }
    }
    hide Records;
    assert forall name :: Recorded(c, name) <==> RecordedByOther(c, key, name) || RecordsHere(c, key, name) by {
      RecordedSomewhere(c, key);
    }
  }

  predicate RecordsHere(c: Cluster, key: ObjectKey, name: string)
    requires key in c.objects
  {
    Records(c.objects[key], name)
  }

  lemma {:induction false} RecordedSomewhere(c: Cluster, key: ObjectKey)
    requires key in c.objects
    ensures forall name :: Recorded(c, name) <==> RecordedByOther(c, key, name) || RecordsHere(c, key, name)
  {
    hide Records;
  }

  // ------------------------------------------------------------------ one reconcile

  /** A failed status write leaks exactly the VIP service that was created and that no object records. */
  lemma {:induction false} FailedStatusWriteLeaksExactly(c: Cluster, key: ObjectKey, o: Outcome)
    requires Inv(c) && Works(c, key, o) && o.clientSet && !o.statusUpdateOk
    ensures Inv(Step(c, key, o)) <==>
              !Creates(c, key, o) || Recorded(c, VipServiceName(c.objects[key].spec, key.name))
  {
    hide Step, WorkOf, ReconciledVIP, Creates, ValidateName, VipServiceName, Records, RecordsOwnName;
    VIPIsRecorded(c, key, o);
    StepOfWork(c, key, o);
    hide Works;
    var d := Step(c, key, o);
    var name := VipServiceName(c.objects[key].spec, key.name);
    assert forall n :: Recorded(d, n) <==> Recorded(c, n);
    assert Creates(c, key, o) ==> ByController(d.vips, name);
  }

  /**
   Where the VIP service is not deleted, for want of a client or because the delete fails, a
   deletion leaks exactly the one that the object alone records, once its finalizer is off.
   */
  lemma {:induction false} FailedDeleteLeaksExactly(c: Cluster, key: ObjectKey, o: Outcome)
    requires Inv(c) && key in c.objects && o.Possible() && o.getOk && c.objects[key].deleting
    requires !o.clientSet || !o.deleteOk
    ensures Inv(Step(c, key, o)) <==> !o.updateOk || !SoleRecorder(c, key)
  {
    hide ValidateName, WorkOf, VipServiceName, Inv, SoleRecorder;
    var d := Step(c, key, o);
    assert d.vips == c.vips;
    if o.updateOk {
      assert d.objects - {key} == c.objects - {key};
      assert RecordsOwnName(key, c.objects[key]) by { OwnName(c, key); }
      RecordLost(c, d, key);
    } else {
      assert d == c;
    }
  }

  lemma {:induction false} OwnName(c: Cluster, key: ObjectKey)
    requires Inv(c) && key in c.objects
    ensures RecordsOwnName(key, c.objects[key])
  {
    hide RecordsOwnName;
  }

  /** Without a client, a status write leaks exactly the VIP service that the object alone records. */
  lemma {:induction false} MissingClientLeaksExactly(c: Cluster, key: ObjectKey, o: Outcome)
    requires Inv(c) && Works(c, key, o) && !o.clientSet
    ensures Inv(Step(c, key, o)) <==> !o.statusUpdateOk || !SoleRecorder(c, key)
  {
    hide Step, WorkOf;
    WorkKeepsVIPPart(key, c.objects[key], c.vips, c.store, o);
    StepOfWork(c, key, o);
    var d := Step(c, key, o);
    var work := WorkOf(key, c.objects[key], c.vips, c.store, o);
    assert work.vips == c.vips && !work.status.vip.value.created;
    hide Works, ReconciledVIP, ValidateName, ValidateVIPService, VipServiceName, Inv, SoleRecorder;
    if o.statusUpdateOk {
      assert d.objects - {key} == c.objects - {key};
      RecordLost(c, d, key);
    } else {
      StoreChangeKeepsInv(c, d);
    }
  }

  lemma {:induction false} StoreChangeKeepsInv(c: Cluster, d: Cluster)
    requires c.objects == d.objects && c.vips == d.vips
    ensures Inv(d) <==> Inv(c)
  {
    hide RecordsOwnName, Records;
    assert forall n :: Recorded(d, n) <==> Recorded(c, n);
  }

  /** What a reconcile leaks, as its caller could tell before the call. */
  ghost predicate StepLeaks(c: Cluster, key: ObjectKey, o: Outcome) {
    && key in c.objects && o.getOk
    && if c.objects[key].deleting then o.updateOk && !(o.clientSet && o.deleteOk) && SoleRecorder(c, key)
       else
         && FINALIZER in c.objects[key].finalizers
         && if o.clientSet
            then !o.statusUpdateOk && Creates(c, key, o) && !Recorded(c, VipServiceName(c.objects[key].spec, key.name))
            else o.statusUpdateOk && SoleRecorder(c, key)
  }

  /** Of all reconciles, whatever their calls do, exactly those that leak break the invariant. */
  lemma {:induction false} StepKeepsInvExactly(c: Cluster, key: ObjectKey, o: Outcome)
    requires Inv(c) && o.Possible()
    ensures Inv(Step(c, key, o)) <==> !StepLeaks(c, key, o)
  {
    hide WorkOf, SoleRecorder, Inv, Recorded, Creates, VipServiceName;
    if key in c.objects && o.getOk {
      if c.objects[key].deleting {
        hide Step;
        if o.clientSet && o.deleteOk {
          DeletionKeepsInv(c, key, o);
        } else {
          FailedDeleteLeaksExactly(c, key, o);
        }
      } else if FINALIZER in c.objects[key].finalizers {
        hide Step;
        if !o.clientSet {
          MissingClientLeaksExactly(c, key, o);
        } else if o.statusUpdateOk {
          WorkKeepsInv(c, key, o);
        } else {
          FailedStatusWriteLeaksExactly(c, key, o);
        }
      } else {
        ObjectChangeKeepsInv(c, Step(c, key, o), key);
      }
    }
  }

  // ------------------------------------------------------------------ what users do

  /** An edit takes the finalizer from the only recorder of a VIP service, or renames a service that is recorded. */
  ghost predicate EditBreaks(c: Cluster, key: ObjectKey, finalizers: set<string>, spec: ServiceSpec) {
    && key in c.objects
    && ((FINALIZER !in finalizers && SoleRecorder(c, key))
        || (&& HasRecord(c.objects[key]) && !(c.objects[key].deleting && finalizers == {})
            && VipServiceName(spec, key.name) != VipServiceName(c.objects[key].spec, key.name)))
  }

  lemma {:induction false} EditKeepsInvExactly(c: Cluster, key: ObjectKey, finalizers: set<string>, spec: ServiceSpec)
    requires Inv(c)
    ensures Inv(Perform(c, Edit(key, finalizers, spec))) <==> !EditBreaks(c, key, finalizers, spec)
  {
    hide Step, WorkOf, ValidateName, VipServiceName, Inv, SoleRecorder;
    if key in c.objects {
      EditChanges(c, key, finalizers, spec);
      OwnName(c, key);
      var d := Perform(c, Edit(key, finalizers, spec));
      hide Perform;
      if key in d.objects && HasRecord(c.objects[key])
         && VipServiceName(spec, key.name) != VipServiceName(c.objects[key].spec, key.name) {
        assert !RecordsOwnName(key, d.objects[key]);
        if Inv(d) { OwnName(d, key); }
      } else if FINALIZER in finalizers {
        ObjectChangeKeepsInv(c, d, key);
      } else {
        RecordLost(c, d, key);
      }
    }
  }

  lemma {:induction false} EditChanges(c: Cluster, key: ObjectKey, finalizers: set<string>, spec: ServiceSpec)
    requires key in c.objects
    ensures var d := Perform(c, Edit(key, finalizers, spec));
            && d.vips == c.vips && d.objects - {key} == c.objects - {key}
            && (key in d.objects <==> !(c.objects[key].deleting && finalizers == {}))
            && (key in d.objects ==> d.objects[key] == c.objects[key].(finalizers := finalizers, spec := spec))
            && forall k | k != key ::
                (k in d.objects <==> k in c.objects) && (k in d.objects ==> d.objects[k] == c.objects[k])
  {
  }

  ghost predicate Breaks(c: Cluster, a: Action) {
    match a
    case Edit(key, finalizers, spec) => EditBreaks(c, key, finalizers, spec)
    case Reconcile(key, o) => StepLeaks(c, key, o)
    case _ => false
  }

  /** Of everything that users, other owners and the reconciler can do, exactly this breaks the invariant. */
  lemma {:induction false} PerformKeepsInvExactly(c: Cluster, a: Action)
    requires Inv(c) && a.Possible()
    ensures Inv(Perform(c, a)) <==> !Breaks(c, a)
  {
    hide StepLeaks, EditBreaks, Inv, Allowed, Step;
    if a.Edit? {
      EditKeepsInvExactly(c, a.key, a.finalizers, a.spec);
    } else if a.Reconcile? {
      StepKeepsInvExactly(c, a.key, a.o);
    } else {
      assert Allowed(c, a) by { OthersAllowed(c, a); }
      PerformKeepsInv(c, a);
    }
  }

  lemma {:induction false} OthersAllowed(c: Cluster, a: Action)
    requires !a.Edit? && !a.Reconcile?
    ensures Allowed(c, a)
  {
  }

  /**
   What a rename comes to: the next reconcile with a client still records the old VIP service
   exactly if it neither finds nor can create one of the new name, and the old one stays.
   */
  lemma {:induction false} RenamingLeaksExactly(c: Cluster, key: ObjectKey, o: Outcome, name: string)
    requires Works(c, key, o) && o.clientSet && o.statusUpdateOk
    requires Records(c.objects[key], name) && ByController(c.vips, name) && !RecordedByOther(c, key, name)
    requires VipServiceName(c.objects[key].spec, key.name) != name
    ensures var newName, spec := VipServiceName(c.objects[key].spec, key.name), c.objects[key].spec.vipService;
            Recorded(Step(c, key, o), name) <==>
              !Found(c.vips, newName, o.lookupOk) && CreateError(newName, spec, o).Some?
    ensures ByController(Step(c, key, o).vips, name)
  {
    hide Step, WorkOf, ReconciledVIP, Creates, ValidateName, VipServiceName, Found, CreateError;
    VIPIsRecorded(c, key, o);
    VIPFails(c.objects[key].status.vip.GetOr(EMPTY_VIP), key.name, c.objects[key].spec, c.vips, o);
    StepOfWork(c, key, o);
    hide Works;
    var d := Step(c, key, o);
    assert Recorded(d, name) <==> Records(d.objects[key], name);
  }

  // ------------------------------------------------------------------ VIP services that are shared

  /** A deletion takes the VIP service away, and it stays recorded exactly if another object shares it. */
  lemma {:induction false} SharedNameLosesVIPExactly(c: Cluster, key: ObjectKey, o: Outcome, name: string)
    requires Inv(c) && o.Possible() && o.getOk && o.clientSet && o.deleteOk && o.updateOk
    requires key in c.objects && c.objects[key].deleting && Records(c.objects[key], name)
    ensures name !in Step(c, key, o).vips
    ensures Recorded(Step(c, key, o), name) <==> RecordedByOther(c, key, name)
  {
    hide ValidateName, WorkOf, VipServiceName, IsOrder, B.ConfigOf;
    DeletionKeepsInv(c, key, o);
    var d := Step(c, key, o);
    hide Inv;
    if RecordedByOther(c, key, name) {
      var k :| k in c.objects && k != key && Records(c.objects[k], name);
      assert k in d.objects && Records(d.objects[k], name);
    }
  }

  /** One reconcile, a request for deletion, and the reconcile of the deletion. */
  function WorkThenDelete(c: Cluster, key: ObjectKey, o: Outcome, p: Outcome): Cluster
    requires o.Possible() && p.Possible()
  {
    Step(Perform(Step(c, key, o), RequestDeletion(key)), key, p)
  }

  /**
   A VIP service that somebody else made goes with the object exactly if it has the object's
   name and the last reconcile before found it, or put its own in its place, or failed to
   but had recorded it before.
   */
  lemma {:induction false} ForeignVIPTakenExactly(c: Cluster, key: ObjectKey, o: Outcome, p: Outcome, name: string)
    requires Inv(c) && Works(c, key, o) && o.clientSet && o.statusUpdateOk
    requires p.Possible() && p.getOk && p.clientSet && p.deleteOk
    requires name in c.vips && !c.vips[name].byController
    ensures var own, spec := VipServiceName(c.objects[key].spec, key.name), c.objects[key].spec.vipService;
            name !in WorkThenDelete(c, key, o, p).vips <==>
              && name == own
              && (|| Found(c.vips, own, o.lookupOk) || CreateError(own, spec, o).None?
                  || Records(c.objects[key], own))
  {
    hide Step, WorkOf;
    var resource := c.objects[key];
    var d := Step(c, key, o);
    var own := VipServiceName(resource.spec, key.name);
    OwnName(c, key);
    VIPIsRecorded(c, key, o);
    VIPKept(resource.status.vip.GetOr(EMPTY_VIP), key.name, resource.spec, c.vips, o, name);
    VIPFails(resource.status.vip.GetOr(EMPTY_VIP), key.name, resource.spec, c.vips, o);
    WorkKeepsVIPPart(key, resource, c.vips, c.store, o);
    StepOfWork(c, key, o);
    WorkKeepsInv(c, key, o);
    hide Step, WorkOf, ReconciledVIP, Creates, ValidateName, VipServiceName, Found, CreateError, Inv, ByController;
    assert name in d.vips && key in d.objects;
    OwnName(d, key);
    DeletesRecorded(d, key, p, name);
  }

  lemma {:induction false} VIPKept(
    before: VIPStatus, name: string, spec: ServiceSpec, vips: VIPs, o: Outcome, kept: string)
    requires kept in vips
    ensures kept in ReconciledVIP(before, name, spec, vips, o).vips
  {
    hide Found, CreateError, VipServiceName;
  }

  lemma {:induction false} DeletesRecorded(d: Cluster, key: ObjectKey, p: Outcome, name: string)
    requires key in d.objects && FINALIZER in d.objects[key].finalizers && RecordsOwnName(key, d.objects[key])
    requires p.Possible() && p.getOk && p.clientSet && p.deleteOk && name in d.vips
    ensures name !in Step(Perform(d, RequestDeletion(key)), key, p).vips <==> Records(d.objects[key], name)
  {
    hide WorkOf, ValidateName, VipServiceName;
  }
}
