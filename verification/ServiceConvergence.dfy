/** Reconciles that meet no failure settle: after at most two of them, further ones change only times. */
module ServiceConvergence {
  import opened Options
  import opened Api
  import opened Conditions
  import opened Ports
  import opened ConfigPrinter
  import opened ConfigRoundTrip
  import opened VIPClient
  import opened ServiceReconciler
  import T = ProxyTheorems
  import B = ProxyBuilder

  /** Every call of the reconcile succeeds. */
  predicate Smooth(o: Outcome) {
    && o.Possible()
    && o.getOk && o.updateOk && o.statusUpdateOk && o.lookupOk && o.createError.None? && o.secondLookupOk
    && forall a <- o.answers :: a.create && a.update
  }

  // ------------------------------------------------------------------ conditions, times aside

  function Untimed(condition: Condition): Condition {
    condition.(lastTransitionTime := 0)
  }

  function UntimedList(conditions: seq<Condition>): seq<Condition> {
    seq(|conditions|, i requires 0 <= i < |conditions| => Untimed(conditions[i]))
  }

  function UntimedStatus(status: ServiceStatus): ServiceStatus {
    status.(conditions := UntimedList(status.conditions), lastUpdate := None)
  }

  /** The first condition of the type says what the report says. */
  predicate Shows(conditions: seq<Condition>, report: Condition) {
    var i := FirstOf(conditions, report.kind);
    i.Some? && Untimed(conditions[i.value]) == Untimed(report)
  }

  lemma {:induction false} ReplacedShows(conditions: seq<Condition>, report: Condition, i: nat)
    requires i <= |conditions| && forall j | 0 <= j < i :: conditions[j].kind != report.kind
    requires i < |conditions| ==> conditions[i].kind == report.kind
    ensures FirstOf(Replaced(conditions, report), report.kind) == Some(i)
    ensures Replaced(conditions, report) == if i < |conditions| then conditions[i := report] else conditions + [report]
  {
    hide FirstOf;
    if i < |conditions| { FirstOfUnique(conditions, report.kind, i); }
    FirstOfUnique(Replaced(conditions, report), report.kind, i);
  }

  lemma {:induction false} ReportIsShown(conditions: seq<Condition>, report: Condition)
    ensures Shows(Replaced(conditions, report), report)
  {
    hide FirstOf;
    var i := FirstOf(conditions, report.kind);
    ReplacedShows(conditions, report, i.GetOr(|conditions|));
  }

  lemma {:induction false} ReportKeepsOthers(conditions: seq<Condition>, report: Condition, other: Condition)
    requires report.kind != other.kind && Shows(conditions, other)
    ensures Shows(Replaced(conditions, report), other)
  {
    hide FirstOf;
    var i := FirstOf(conditions, report.kind);
    ReplacedShows(conditions, report, i.GetOr(|conditions|));
    FirstOfUnique(Replaced(conditions, report), other.kind, FirstOf(conditions, other.kind).value);
  }

  /** Reporting again what is shown changes a time at most. */
  lemma {:induction false} ReportAgain(conditions: seq<Condition>, report: Condition)
    requires Shows(conditions, report)
    ensures UntimedList(Replaced(conditions, report)) == UntimedList(conditions)
  {
    hide FirstOf;
  }

  lemma {:induction false} ShowsIsUntimed(a: seq<Condition>, b: seq<Condition>, report: Condition)
    requires UntimedList(a) == UntimedList(b) && Shows(a, report)
    ensures Shows(b, report)
  {
    hide FirstOf;
    assert |UntimedList(a)| == |UntimedList(b)|;
    assert forall i | 0 <= i < |a| :: UntimedList(a)[i] == Untimed(a[i]) && UntimedList(b)[i] == Untimed(b[i]);
    FirstOfUnique(b, report.kind, FirstOf(a, report.kind).value);
  }

  // ------------------------------------------------------------------ the VIP service, twice

  lemma {:induction false} VIPTwice(
    status: VIPStatus, again: VIPStatus, name: string, spec: ServiceSpec, vips: VIPs, o: Outcome, p: Outcome)
    requires Smooth(o) && Smooth(p) && o.clientSet == p.clientSet
    requires var first := ReconciledVIP(status, name, spec, vips, o).status;
             again == first.(backendCount := again.backendCount, healthyBackendCount := again.healthyBackendCount)
    ensures var first := ReconciledVIP(status, name, spec, vips, o);
            ReconciledVIP(again, name, spec, first.vips, p) == first.(status := again)
  {
    var vipName := VipServiceName(spec, name);
    hide Smooth, ValidateName, ValidateVIPService, VipServiceName, DNSNameOf;
    assert o.lookupOk && p.lookupOk && o.createError.None? && p.createError.None? by { SmoothCalls(o); SmoothCalls(p); }
    if ValidateVIPService(vipName, spec.vipService.ports, spec.vipService.tags).None? {
      CreatedNameIsValid(vipName, spec.vipService.ports, spec.vipService.tags);
    }
  }

  lemma {:induction false} SmoothCalls(o: Outcome)
    requires Smooth(o)
    ensures o.Possible() && o.getOk && o.updateOk && o.statusUpdateOk && o.lookupOk
            && o.createError.None? && o.secondLookupOk
  {
  }

  // ------------------------------------------------------------------ the proxy, twice

  /** Equal but for the order of the members in one configuration secret. */
  ghost predicate SameStore(a: B.Store, b: B.Store, secret: B.Key) {
    forall key :: if key == secret then SameSecret(a, b, key) else T.SameAt(a, b, key)
  }

  ghost predicate SameSecret(a: B.Store, b: B.Store, key: B.Key) {
    T.SameAt(a, b, key) || (key in a && key in b && SameConfig(a[key], b[key]))
  }

  /** Secrets that differ in the text of one configuration at most. */
  predicate SameConfig(a: B.Object, b: B.Object) {
    && a.SecretObject? && b.SecretObject? && b == a.(data := b.data)
    && B.CONFIG_FILE in a.data && B.CONFIG_FILE in b.data && a.data - {B.CONFIG_FILE} == b.data - {B.CONFIG_FILE}
    && ReadConfig(a.data[B.CONFIG_FILE]).Some? && ReadConfig(a.data[B.CONFIG_FILE]) == ReadConfig(b.data[B.CONFIG_FILE])
  }

  function SecretKey(key: ObjectKey): B.Key {
    B.Key(B.Secret, key.namespace, B.ConfigSecretName(key.name + "-proxy"))
  }

  lemma {:induction false} SmoothCreation(store: B.Store, spec: B.ProxySpec, o: Outcome)
    requires Smooth(o) && spec.connectionType == "bidirectional"
    ensures B.Advance(store, spec, o.order, o.answers, 0, B.OBJECT_COUNT) ==
              (T.Prefix(store, spec, o.order, B.OBJECT_COUNT), true)
  {
    hide IsOrder, B.ConfigOf, B.Advance, B.WriteKey, T.Prefix;
    assert forall i: nat | i < B.OBJECT_COUNT :: o.answers[i] in o.answers;
    T.CreationIsPrefix(store, spec, o.order, o.answers, B.OBJECT_COUNT);
  }

  /** Writing the six objects again, with the map iterated in another order, changes at most the text of the secret. */
  lemma {:induction false} CreationTwice(store: B.Store, spec: B.ProxySpec, order: seq<string>, again: seq<string>)
    requires IsOrder(B.ConfigOf(spec.connectionType), order) && IsOrder(B.ConfigOf(spec.connectionType), again)
    ensures var first := T.Prefix(store, spec, order, B.OBJECT_COUNT);
            SameStore(first, T.Prefix(first, spec, again, B.OBJECT_COUNT), B.WriteKey(spec.namespace, spec.name, 3))
  {
    hide IsOrder, B.ConfigOf, T.Prefix, ReadConfig, Print, B.WriteKey;
    var first := T.Prefix(store, spec, order, B.OBJECT_COUNT);
    var second := T.Prefix(first, spec, again, B.OBJECT_COUNT);
    T.PrefixHolds(store, spec, order, B.OBJECT_COUNT);
    T.PrefixHolds(first, spec, again, B.OBJECT_COUNT);
    T.SecretReadsBack(spec, order);
    T.SecretReadsBack(spec, again);
    var secret := B.WriteKey(spec.namespace, spec.name, 3);
    assert SameSecret(first, second, secret);
    forall key | key != secret ensures T.SameAt(first, second, key) {
      if T.Among(spec.namespace, spec.name, B.OBJECT_COUNT, key) {
        var i: nat :| i < B.OBJECT_COUNT && key == B.WriteKey(spec.namespace, spec.name, i);
        assert i != 3 && B.WriteObject(spec, order, i) == B.WriteObject(spec, again, i);
      }
    }
  }

  lemma {:induction false} ProxyTwice(
    key: ObjectKey, uid: string, spec: ServiceSpec, store: B.Store, o: Outcome, p: Outcome)
    requires Smooth(o) && Smooth(p) && spec.proxy.Some?
    ensures var first := ReconciledProxy(key, uid, spec, store, o);
            var second := ReconciledProxy(key, uid, spec, first.store, p);
            second.error == first.error && SameStore(first.store, second.store, SecretKey(key))
  {
    if spec.tailnet != "" {
      var proxy := ProxySpecOf(key, uid, spec);
      assert proxy.connectionType == "bidirectional" && B.WriteKey(proxy.namespace, proxy.name, 3) == SecretKey(key);
      hide ProxySpecOf, B.Advance, B.WriteKey, T.Prefix, SameStore, SecretKey;
      SmoothCreation(store, proxy, o);
      SmoothCreation(T.Prefix(store, proxy, o.order, B.OBJECT_COUNT), proxy, p);
      hide Smooth, IsOrder, B.ConfigOf;
      SmoothCalls(o);
      SmoothCalls(p);
      CreationTwice(store, proxy, o.order, p.order);
    }
  }

  // ------------------------------------------------------------------ the whole reconcile, twice

  /** The reports of one reconcile, in order, set one after the other. */
  function ReplacedAll(conditions: seq<Condition>, reports: seq<Condition>): seq<Condition> {
    if reports == [] then conditions
    else Replaced(ReplacedAll(conditions, reports[..|reports| - 1]), reports[|reports| - 1])
  }

  ghost predicate KindsDiffer(reports: seq<Condition>) {
    forall i, j | 0 <= i < j < |reports| :: reports[i].kind != reports[j].kind
  }

  lemma {:induction false} AllAreShown(conditions: seq<Condition>, reports: seq<Condition>)
    requires KindsDiffer(reports)
    ensures forall i | 0 <= i < |reports| :: Shows(ReplacedAll(conditions, reports), reports[i])
  {
    hide Shows, Replaced;
    if reports != [] {
      var front, last := reports[..|reports| - 1], reports[|reports| - 1];
      AllAreShown(conditions, front);
      ReportIsShown(ReplacedAll(conditions, front), last);
      forall i | 0 <= i < |reports| - 1 ensures Shows(ReplacedAll(conditions, reports), reports[i]) {
        assert reports[i] == front[i];
        ReportKeepsOthers(ReplacedAll(conditions, front), last, reports[i]);
      }
    }
  }

  lemma {:induction false} AllAgain(conditions: seq<Condition>, reports: seq<Condition>)
    requires forall i | 0 <= i < |reports| :: Shows(conditions, reports[i])
    ensures UntimedList(ReplacedAll(conditions, reports)) == UntimedList(conditions)
  {
    hide Shows, Replaced, UntimedList;
    if reports != [] {
      var front, last := reports[..|reports| - 1], reports[|reports| - 1];
      assert forall i | 0 <= i < |front| :: front[i] == reports[i];
      AllAgain(conditions, front);
      ShowsIsUntimed(conditions, ReplacedAll(conditions, front), last);
      ReportAgain(ReplacedAll(conditions, front), last);
    }
  }

  /** Reporting the same things twice shows the same conditions as reporting them once. */
  lemma {:induction false} ReportsTwice(conditions: seq<Condition>, reports: seq<Condition>, again: seq<Condition>)
    requires KindsDiffer(reports) && |again| == |reports|
    requires forall i | 0 <= i < |reports| :: Untimed(again[i]) == Untimed(reports[i])
    ensures UntimedList(ReplacedAll(ReplacedAll(conditions, reports), again)) ==
              UntimedList(ReplacedAll(conditions, reports))
  {
    AllAreShown(conditions, reports);
    hide ReplacedAll, UntimedList, Untimed;
    forall i | 0 <= i < |again| ensures Shows(ReplacedAll(conditions, reports), again[i]) {
      ShownAlike(ReplacedAll(conditions, reports), reports[i], again[i]);
    }
    AllAgain(ReplacedAll(conditions, reports), again);
  }

  lemma {:induction false} ShownAlike(conditions: seq<Condition>, report: Condition, again: Condition)
    requires Untimed(report) == Untimed(again) && Shows(conditions, report)
    ensures Shows(conditions, again)
  {
    assert Untimed(report).kind == report.kind && Untimed(again).kind == again.kind;
  }

  /** What a reconcile reports, given how its VIP part and its proxy part end. */
  function Reports(vipError: Option<string>, proxyError: Option<Option<string>>, o: Outcome): seq<Condition> {
    if vipError.Some? then [VIPReport(vipError, o.vipAt)]
    else if proxyError.None? then [VIPReport(None, o.vipAt), ReadyReport(o.readyAt)]
    else if proxyError.value.Some? then [VIPReport(None, o.vipAt), ProxyReport(proxyError.value, o.proxyAt)]
    else [VIPReport(None, o.vipAt), ProxyReport(None, o.proxyAt), ReadyReport(o.readyAt)]
  }

  lemma {:induction false} ReportsAlike(
    vipError: Option<string>, proxyError: Option<Option<string>>, o: Outcome, p: Outcome)
    ensures var reports, again := Reports(vipError, proxyError, o), Reports(vipError, proxyError, p);
            && KindsDiffer(reports) && |again| == |reports|
            && forall i | 0 <= i < |reports| :: Untimed(again[i]) == Untimed(reports[i])
  {
    assert |"VIPServiceReady"| == 15 && |"ProxyReady"| == 10 && |"Ready"| == 5;
  }

  /** The error of the proxy part, if there is a proxy part. */
  function ProxyError(key: ObjectKey, resource: Resource, store: B.Store, o: Outcome): Option<Option<string>>
    requires o.Possible()
  {
    if resource.spec.proxy.None? then None
    else Some(ReconciledProxy(key, resource.uid, resource.spec, store, o).error)
  }

  /** The status without its conditions and time of update. */
  function Rest(status: ServiceStatus): ServiceStatus {
    status.(conditions := [], lastUpdate := None)
  }

  /** A reconcile as its reports and the rest of the status. */
  lemma {:induction false} WorkParts(key: ObjectKey, resource: Resource, vips: VIPs, store: B.Store, o: Outcome)
    requires o.Possible()
    ensures var work := WorkOf(key, resource, vips, store, o);
            var vip := ReconciledVIP(resource.status.vip.GetOr(EMPTY_VIP), key.name, resource.spec, vips, o);
            var status, proxyError := resource.status.(vip := Some(vip.status)), ProxyError(key, resource, store, o);
            && work.vips == vip.vips
            && work.status.conditions == ReplacedAll(resource.status.conditions, Reports(vip.error, proxyError, o))
            && work.store == (if vip.error.Some? || proxyError.None? then store
                              else ReconciledProxy(key, resource.uid, resource.spec, store, o).store)
            && Rest(work.status) == Rest(
                 if vip.error.Some? || (proxyError.Some? && proxyError.value.Some?) then status
                 else WithBackends(
                   if proxyError.None? then status else status.(proxy := Some(ProxyStatusOf(key, resource.spec))),
                   resource.spec.backends))
  {
    hide ReconciledVIP, ReconciledProxy, Replaced, VIPReport, ProxyReport, ReadyReport, BackendStatuses;
    ReplacedSteps(resource.status.conditions);
  }

  lemma {:induction false} ReplacedSteps(conditions: seq<Condition>)
    ensures forall a :: ReplacedAll(conditions, [a]) == Replaced(conditions, a)
    ensures forall a, b :: ReplacedAll(conditions, [a, b]) == Replaced(Replaced(conditions, a), b)
    ensures forall a, b, c :: ReplacedAll(conditions, [a, b, c]) == Replaced(Replaced(Replaced(conditions, a), b), c)
  {
    hide Replaced;
    forall a ensures ReplacedAll(conditions, [a]) == Replaced(conditions, a) {
      assert [a][..0] == [];
    }
    forall a, b ensures ReplacedAll(conditions, [a, b]) == Replaced(Replaced(conditions, a), b) {
      assert [a, b][..1] == [a];
    }
    forall a, b, c ensures ReplacedAll(conditions, [a, b, c]) == Replaced(Replaced(Replaced(conditions, a), b), c) {
      assert [a, b, c][..2] == [a, b];
    }
  }

  /** Both parts end the second time as they did the first. */
  lemma {:induction false} PartsTwice(
    key: ObjectKey, resource: Resource, vips: VIPs, store: B.Store, o: Outcome, p: Outcome)
    requires Smooth(o) && Smooth(p) && o.clientSet == p.clientSet
    ensures var vip := ReconciledVIP(resource.status.vip.GetOr(EMPTY_VIP), key.name, resource.spec, vips, o);
            var first := WorkOf(key, resource, vips, store, o);
            var next := resource.(status := first.status);
            && first.status.vip.Some?
            && ReconciledVIP(first.status.vip.value, key.name, resource.spec, first.vips, p) ==
                 vip.(status := first.status.vip.value)
            && (vip.error.None? ==> ProxyError(key, next, first.store, p) == ProxyError(key, resource, store, o))
            && SameStore(first.store, WorkOf(key, next, first.vips, first.store, p).store, SecretKey(key))
  {
    hide WorkOf, Reports, ReplacedAll, ReconciledVIP, ReconciledProxy, BackendStatuses, ProxyStatusOf, Smooth, IsOrder,
         B.ConfigOf, SameStore;
    SmoothCalls(o);
    SmoothCalls(p);
    var first := WorkOf(key, resource, vips, store, o);
    var next := resource.(status := first.status);
    WorkParts(key, resource, vips, store, o);
    VIPTwice(resource.status.vip.GetOr(EMPTY_VIP), first.status.vip.value, key.name, resource.spec, vips, o, p);
    WorkParts(key, next, first.vips, first.store, p);
    SameStoreReflexive(store, SecretKey(key));
    if resource.spec.proxy.Some? { ProxyTwice(key, resource.uid, resource.spec, store, o, p); }
  }

  lemma {:induction false} SameStoreReflexive(store: B.Store, secret: B.Key)
    ensures SameStore(store, store, secret)
  {
  }

  /** The second of two reconciles changes nothing but times and the order within the secret. */
  lemma {:induction false} WorkTwice(
    key: ObjectKey, resource: Resource, vips: VIPs, store: B.Store, o: Outcome, p: Outcome)
    requires Smooth(o) && Smooth(p) && o.clientSet == p.clientSet
    ensures var first := WorkOf(key, resource, vips, store, o);
            var second := WorkOf(key, resource.(status := first.status), first.vips, first.store, p);
            && UntimedStatus(second.status) == UntimedStatus(first.status)
            && second.vips == first.vips && SameStore(first.store, second.store, SecretKey(key))
  {
    hide WorkOf, ReplacedAll, ReconciledVIP, ReconciledProxy, BackendStatuses, ProxyStatusOf, ProxyError, Smooth,
         IsOrder, B.ConfigOf, SameStore, SecretKey, UntimedList, VIPReport, ProxyReport, ReadyReport;
    SmoothCalls(o);
    SmoothCalls(p);
    PartsTwice(key, resource, vips, store, o, p);
    var first := WorkOf(key, resource, vips, store, o);
    var next := resource.(status := first.status);
    WorkParts(key, resource, vips, store, o);
    WorkParts(key, next, first.vips, first.store, p);
    var vip := ReconciledVIP(resource.status.vip.GetOr(EMPTY_VIP), key.name, resource.spec, vips, o);
    var proxyError := ProxyError(key, resource, store, o);
    ReportsAlike(vip.error, proxyError, o, p);
    ReportsTwice(resource.status.conditions, Reports(vip.error, proxyError, o), Reports(vip.error, proxyError, p));
    hide KindsDiffer;
    var second := WorkOf(key, next, first.vips, first.store, p);
    assert second.status.conditions == ReplacedAll(first.status.conditions, Reports(vip.error, proxyError, p));
    hide Reports;
    assert Rest(second.status) == Rest(first.status);
  }

  // ------------------------------------------------------------------ any number of reconciles

  /** The clusters differ in times of the object's status, and in the order within its proxy's secret, at most. */
  ghost predicate Same(a: Cluster, b: Cluster, key: ObjectKey) {
    && key in a.objects && key in b.objects
    && a.objects - {key} == b.objects - {key}
    && UntimedStatus(a.objects[key].status) == UntimedStatus(b.objects[key].status)
    && a.objects[key].(status := EMPTY_STATUS) == b.objects[key].(status := EMPTY_STATUS)
    && a.vips == b.vips && SameStore(a.store, b.store, SecretKey(key))
  }

  lemma {:induction false} SameTransitive(a: Cluster, b: Cluster, c: Cluster, key: ObjectKey)
    requires Same(a, b, key) && Same(b, c, key)
    ensures Same(a, c, key)
  {
    SameStoreTransitive(a.store, b.store, c.store, SecretKey(key));
    hide SameStore, UntimedStatus, SecretKey;
  }

  lemma {:induction false} SameStoreTransitive(a: B.Store, b: B.Store, c: B.Store, secret: B.Key)
    requires SameStore(a, b, secret) && SameStore(b, c, secret)
    ensures SameStore(a, c, secret)
  {
    hide ReadConfig;
    forall key ensures if key == secret then SameSecret(a, c, key) else T.SameAt(a, c, key) {
      assert if key == secret then SameSecret(a, b, key) && SameSecret(b, c, key)
        else T.SameAt(a, b, key) && T.SameAt(b, c, key);
    }
  }

  lemma {:induction false} SameReflexive(c: Cluster, key: ObjectKey)
    requires key in c.objects
    ensures Same(c, c, key)
  {
    SameStoreReflexive(c.store, SecretKey(key));
    hide SameStore, UntimedStatus, SecretKey;
  }

  /** The object is not being deleted and carries the finalizer. */
  predicate Held(c: Cluster, key: ObjectKey) {
    key in c.objects && !c.objects[key].deleting && FINALIZER in c.objects[key].finalizers
  }

  /** The cluster once a reconcile of the object has done its work and written its status. */
  function WithWork(c: Cluster, key: ObjectKey, work: Work): Cluster
    requires key in c.objects
  {
    Cluster(c.objects[key := c.objects[key].(status := work.status)], work.vips, work.store)
  }

  lemma {:induction false} SmoothStep(c: Cluster, key: ObjectKey, o: Outcome)
    requires Smooth(o) && Held(c, key)
    ensures var work := WorkOf(key, c.objects[key], c.vips, c.store, o);
            Step(c, key, o) == WithWork(c, key, work)
    ensures Held(Step(c, key, o), key)
  {
    hide WorkOf;
  }

  lemma {:induction false} SameWork(c: Cluster, key: ObjectKey, first: Work, second: Work)
    requires key in c.objects && UntimedStatus(second.status) == UntimedStatus(first.status)
    requires second.vips == first.vips && SameStore(first.store, second.store, SecretKey(key))
    ensures Same(WithWork(c, key, first), WithWork(WithWork(c, key, first), key, second), key)
  {
    hide UntimedStatus, SameStore, SecretKey;
  }

  lemma {:induction false} StepTwice(c: Cluster, key: ObjectKey, o: Outcome, p: Outcome)
    requires Smooth(o) && Smooth(p) && o.clientSet == p.clientSet && Held(c, key)
    ensures Same(Step(c, key, o), Step(Step(c, key, o), key, p), key)
  {
    hide Step, WorkOf, Same, SameStore, UntimedStatus, Smooth, IsOrder, B.ConfigOf, SecretKey;
    SmoothCalls(o);
    SmoothCalls(p);
    SmoothStep(c, key, o);
    SmoothStep(Step(c, key, o), key, p);
    WorkTwice(key, c.objects[key], c.vips, c.store, o, p);
    var first := WorkOf(key, c.objects[key], c.vips, c.store, o);
    SameWork(c, key, first, WorkOf(key, c.objects[key].(status := first.status), first.vips, first.store, p));
  }

  /** The first `n` reconciles of an object. */
  function Reconciled(c: Cluster, key: ObjectKey, os: seq<Outcome>, n: nat): Cluster
    requires n <= |os| && forall o <- os :: o.Possible()
  {
    if n == 0 then c else Step(Reconciled(c, key, os, n - 1), key, os[n - 1])
  }

  ghost predicate AllSmooth(os: seq<Outcome>) {
    (forall o <- os :: Smooth(o)) && forall i, j | 0 <= i < j < |os| :: os[i].clientSet == os[j].clientSet
  }

  lemma {:induction false} SmoothArePossible(os: seq<Outcome>)
    requires AllSmooth(os)
    ensures forall o <- os :: o.Possible()
  {
    hide IsOrder, B.ConfigOf;
  }

  /** After the reconcile at `m` found the finalizer in place, no later one changes anything that matters. */
  lemma {:induction false} SettledFrom(c: Cluster, key: ObjectKey, os: seq<Outcome>, m: nat, n: nat)
    requires m < n <= |os| && AllSmooth(os)
    requires Held(Reconciled(c, key, os, m), key)
    ensures Held(Reconciled(c, key, os, n - 1), key)
    ensures Same(Reconciled(c, key, os, m + 1), Reconciled(c, key, os, n), key)
  {
    hide Step, WorkOf, Smooth, Held, Same, IsOrder, B.ConfigOf;
    SmoothArePossible(os);
    if n == m + 1 {
      SmoothStep(Reconciled(c, key, os, m), key, os[m]);
      HeldExists(Reconciled(c, key, os, n), key);
      SameReflexive(Reconciled(c, key, os, n), key);
    } else {
      SettledFrom(c, key, os, m, n - 1);
      SmoothStep(Reconciled(c, key, os, n - 2), key, os[n - 2]);
      StepTwice(Reconciled(c, key, os, n - 2), key, os[n - 2], os[n - 1]);
      SameTransitive(Reconciled(c, key, os, m + 1), Reconciled(c, key, os, n - 1), Reconciled(c, key, os, n), key);
    }
  }

  lemma {:induction false} HeldExists(c: Cluster, key: ObjectKey)
    requires Held(c, key)
    ensures key in c.objects
  {
  }

  /** The first reconcile of an object without the finalizer puts it on. */
  lemma {:induction false} FirstStep(c: Cluster, key: ObjectKey, o: Outcome)
    requires Smooth(o) && key in c.objects && !c.objects[key].deleting && !Held(c, key)
    ensures Held(Step(c, key, o), key)
  {
    hide WorkOf;
  }

  /**
   Convergence: from any state of an object that is not being deleted, reconciles that meet
   no failure reach, after two of them (or one, if the finalizer is on already), a state that
   every further one leaves as it is, apart from times and the order within the proxy's secret.
   */
  lemma {:induction false} Converges(c: Cluster, key: ObjectKey, os: seq<Outcome>, n: nat)
    requires AllSmooth(os) && key in c.objects && !c.objects[key].deleting
    requires var settled := if Held(c, key) then 1 else 2; settled <= n <= |os|
    ensures var settled := if Held(c, key) then 1 else 2;
            Same(Reconciled(c, key, os, settled), Reconciled(c, key, os, n), key)
  {
    hide Same, Smooth, Step, WorkOf, IsOrder, B.ConfigOf;
    SmoothArePossible(os);
    assert Reconciled(c, key, os, 0) == c;
    if Held(c, key) {
      SettledFrom(c, key, os, 0, n);
    } else {
      FirstStep(c, key, os[0]);
      assert Reconciled(c, key, os, 1) == Step(c, key, os[0]);
      SettledFrom(c, key, os, 1, n);
    }
  }

  // ------------------------------------------------------------------ what a settled state says

  /** With a client, the VIP service is there under its valid name. */
  predicate VIPIsUp(key: ObjectKey, spec: ServiceSpec, vips: VIPs, clientSet: bool) {
    var name := VipServiceName(spec, key.name);
    !clientSet || (ValidateName(name).None? && name in vips)
  }

  lemma {:induction false} VIPErrorMeansDown(
    status: VIPStatus, key: ObjectKey, spec: ServiceSpec, vips: VIPs, o: Outcome)
    requires Smooth(o)
    ensures var result := ReconciledVIP(status, key.name, spec, vips, o);
            result.error.None? <==> VIPIsUp(key, spec, result.vips, o.clientSet)
  {
    SmoothCalls(o);
    var name := VipServiceName(spec, key.name);
    hide Smooth, ValidateName, ValidateVIPService, VipServiceName;
    if ValidateVIPService(name, spec.vipService.ports, spec.vipService.tags).None? {
      CreatedNameIsValid(name, spec.vipService.ports, spec.vipService.tags);
    }
  }

  /** After a reconcile without failures, VIPServiceReady is shown exactly if the VIP service is up or no client set. */
  lemma {:induction false} SettledVIP(c: Cluster, key: ObjectKey, o: Outcome)
    requires Smooth(o) && Held(c, key)
    ensures var d := Step(c, key, o);
            Shows(d.objects[key].status.conditions, VIPReport(None, 0)) <==>
              VIPIsUp(key, d.objects[key].spec, d.vips, o.clientSet)
  {
    SmoothCalls(o);
    SmoothStep(c, key, o);
    var resource := c.objects[key];
    var vip := ReconciledVIP(resource.status.vip.GetOr(EMPTY_VIP), key.name, resource.spec, c.vips, o);
    var proxyError := ProxyError(key, resource, c.store, o);
    VIPErrorMeansDown(resource.status.vip.GetOr(EMPTY_VIP), key, resource.spec, c.vips, o);
    WorkParts(key, resource, c.vips, c.store, o);
    ReportsAlike(vip.error, proxyError, o, o);
    AllAreShown(resource.status.conditions, Reports(vip.error, proxyError, o));
    hide Step, WorkOf, ReplacedAll, ReconciledVIP, ReconciledProxy, ProxyError, Smooth, IsOrder,
         B.ConfigOf, VIPIsUp, KindsDiffer;
    var shown := VIPReport(vip.error, o.vipAt);
    assert Reports(vip.error, proxyError, o)[0] == shown;
    hide Reports, FirstOf, ProxyReport, ReadyReport;
    assert shown.kind == VIPReport(None, 0).kind;
    assert vip.error.Some? ==> Untimed(shown).status != Untimed(VIPReport(None, 0)).status;
  }

  /** With the VIP service up and a tailnet for the proxy, neither part of a reconcile fails. */
  lemma {:induction false} NothingFails(c: Cluster, key: ObjectKey, o: Outcome)
    requires Smooth(o) && Held(c, key)
    requires VIPIsUp(key, c.objects[key].spec, Step(c, key, o).vips, o.clientSet)
    requires c.objects[key].spec.proxy.Some? ==> c.objects[key].spec.tailnet != ""
    ensures var resource := c.objects[key];
            var proxyError := ProxyError(key, resource, c.store, o);
            && ReconciledVIP(resource.status.vip.GetOr(EMPTY_VIP), key.name, resource.spec, c.vips, o).error.None?
            && (if resource.spec.proxy.None? then proxyError == None
                else
                  && proxyError == Some(None)
                  && ReconciledProxy(key, resource.uid, resource.spec, c.store, o).store ==
                       T.Prefix(c.store, ProxySpecOf(key, resource.uid, resource.spec), o.order, B.OBJECT_COUNT))
  {
    hide Step, WorkOf, ReplacedAll, ReconciledVIP, Smooth, IsOrder, B.ConfigOf, VIPIsUp, B.Advance, Reports, MappingsOf,
         ProxyLabels, WithBackends, T.Prefix;
    SmoothCalls(o);
    SmoothStep(c, key, o);
    var resource := c.objects[key];
    WorkParts(key, resource, c.vips, c.store, o);
    VIPErrorMeansDown(resource.status.vip.GetOr(EMPTY_VIP), key, resource.spec, c.vips, o);
    if resource.spec.proxy.Some? { SmoothCreation(c.store, ProxySpecOf(key, resource.uid, resource.spec), o); }
  }

  /**
   If besides nothing is wrong with the proxy's specification, Ready is shown, every backend
   is listed, and the six objects of the proxy are exactly what was asked for.
   */
  lemma {:induction false} SettledReady(c: Cluster, key: ObjectKey, o: Outcome)
    requires Smooth(o) && Held(c, key)
    requires VIPIsUp(key, c.objects[key].spec, Step(c, key, o).vips, o.clientSet)
    requires c.objects[key].spec.proxy.Some? ==> c.objects[key].spec.tailnet != ""
    ensures var d, spec := Step(c, key, o), c.objects[key].spec;
            && Shows(d.objects[key].status.conditions, ReadyReport(0))
            && d.objects[key].status.backends == BackendStatuses(spec.backends)
            && d.objects[key].status.totalBackends == d.objects[key].status.healthyBackends == |spec.backends|
            && (spec.proxy.Some? ==>
                  d.store == T.Prefix(c.store, ProxySpecOf(key, c.objects[key].uid, spec), o.order, B.OBJECT_COUNT))
  {
    hide Step, WorkOf, ReplacedAll, ReconciledVIP, ReconciledProxy, ProxyError, Smooth, IsOrder, B.ConfigOf, VIPIsUp,
         ProxySpecOf, Shows, BackendStatuses, ProxyStatusOf, VIPReport, ProxyReport, ReadyReport, T.Prefix;
    SmoothCalls(o);
    SmoothStep(c, key, o);
    NothingFails(c, key, o);
    var resource := c.objects[key];
    WorkParts(key, resource, c.vips, c.store, o);
    var proxyError := ProxyError(key, resource, c.store, o);
    ReportsAlike(None, proxyError, o, o);
    var reports := Reports(None, proxyError, o);
    AllAreShown(resource.status.conditions, reports);
    assert reports[|reports| - 1] == ReadyReport(o.readyAt);
    ReadyAlike(o.readyAt);
    ShownAlike(ReplacedAll(resource.status.conditions, reports), ReadyReport(o.readyAt), ReadyReport(0));
  }

  lemma {:induction false} ReadyAlike(now: nat)
    ensures Untimed(ReadyReport(now)) == Untimed(ReadyReport(0))
  {
  }

  /**
   Ready does not imply VIPServiceReady: a reconcile leaves Ready true beside a false
   VIPServiceReady exactly if Ready was true and the VIP service neither is found nor can be
   created.
   */
  lemma {:induction false} StaleReadyExactly(key: ObjectKey, resource: Resource, vips: VIPs, store: B.Store, o: Outcome)
    requires o.Possible()
    ensures var conditions := WorkOf(key, resource, vips, store, o).status.conditions;
            var name := VipServiceName(resource.spec, key.name);
            IsConditionTrue(conditions, "Ready") && IsConditionFalse(conditions, "VIPServiceReady") <==>
              && o.clientSet && !Found(vips, name, o.lookupOk) && CreateError(name, resource.spec.vipService, o).Some?
              && IsConditionTrue(resource.status.conditions, "Ready")
  {
    hide WorkOf, ReconciledVIP, ReconciledProxy, ProxyError, Shows, IsOrder, B.ConfigOf, Found, CreateError,
         ReplacedAll, Replaced;
    var before := resource.status.conditions;
    var vip := ReconciledVIP(resource.status.vip.GetOr(EMPTY_VIP), key.name, resource.spec, vips, o);
    var proxyError := ProxyError(key, resource, store, o);
    var reports := Reports(vip.error, proxyError, o);
    WorkParts(key, resource, vips, store, o);
    VIPFails(resource.status.vip.GetOr(EMPTY_VIP), key.name, resource.spec, vips, o);
    ReportsAlike(vip.error, proxyError, o, o);
    AllAreShown(before, reports);
    assert reports[0] == VIPReport(vip.error, o.vipAt);
    assert vip.error.Some? ==> reports == [VIPReport(vip.error, o.vipAt)];
    hide Reports, KindsDiffer;
    ShownIsFound(ReplacedAll(before, reports), VIPReport(vip.error, o.vipAt));
    if vip.error.Some? {
      ReplacedOne(before, VIPReport(vip.error, o.vipAt));
      LookupElsewhere(before, VIPReport(vip.error, o.vipAt), "Ready");
    }
  }

  lemma {:induction false} ReplacedOne(conditions: seq<Condition>, report: Condition)
    ensures ReplacedAll(conditions, [report]) == Replaced(conditions, report)
  {
    hide Replaced;
    assert [report][..0] == [];
    assert ReplacedAll(conditions, [report][..0]) == conditions;
  }

  /** A report changes nothing of what is found for another type. */
  lemma {:induction false} LookupElsewhere(conditions: seq<Condition>, report: Condition, kind: string)
    requires kind != report.kind
    ensures GetCondition(Replaced(conditions, report), kind) == GetCondition(conditions, kind)
  {
    hide FirstOf;
    var i, j := FirstOf(conditions, report.kind), FirstOf(conditions, kind);
    ReplacedShows(conditions, report, i.GetOr(|conditions|));
    var after := Replaced(conditions, report);
    assert forall k | 0 <= k < |conditions| :: after[k].kind == conditions[k].kind;
    if j.Some? { FirstOfUnique(after, kind, j.value); }
  }

  lemma {:induction false} ShownIsFound(conditions: seq<Condition>, report: Condition)
    requires Shows(conditions, report)
    ensures var found := GetCondition(conditions, report.kind); found.Some? && found.value.status == report.status
  {
    hide FirstOf;
    assert Untimed(report).status == report.status;
  }

  // ------------------------------------------------------------------ why the secret is set aside

  /** The members that are read tell the order in which they were printed. */
  lemma {:induction false} MembersTellOrder(config: Config, a: seq<string>, b: seq<string>)
    requires (forall k <- a :: k in config) && forall k <- b :: k in config
    requires MembersOf(config, a) == MembersOf(config, b)
    ensures a == b
  {
    if a != [] {
      assert b != [];
      MembersTellOrder(config, a[1..], b[1..]);
      assert a == [a[0]] + a[1..] && b == [b[0]] + b[1..];
    } else {
      assert b == [];
    }
  }

  /** Two iterations write the same text to the secret exactly if they go through the members in the same order. */
  lemma {:induction false} SecretTextIsOrder(spec: B.ProxySpec, a: seq<string>, b: seq<string>)
    requires IsOrder(B.ConfigOf(spec.connectionType), a) && IsOrder(B.ConfigOf(spec.connectionType), b)
    ensures B.WriteObject(spec, a, 3) == B.WriteObject(spec, b, 3) <==> a == b
  {
    OrderNotEmpty(spec.connectionType, a);
    OrderNotEmpty(spec.connectionType, b);
    T.ConfigIsClean(spec.connectionType);
    SecretText(spec, a);
    SecretText(spec, b);
    hide Print, IsOrder, B.ConfigOf, CleanConfig, B.WriteObject;
    if B.WriteObject(spec, a, 3) == B.WriteObject(spec, b, 3) {
      var config := B.ConfigOf(spec.connectionType);
      ReadPrintBack(config, a);
      ReadPrintBack(config, b);
      MembersTellOrder(config, a, b);
    }
  }

  lemma {:induction false} SecretText(spec: B.ProxySpec, order: seq<string>)
    requires IsOrder(B.ConfigOf(spec.connectionType), order)
    ensures B.WriteObject(spec, order, 3).SecretObject?
    ensures B.CONFIG_FILE in B.WriteObject(spec, order, 3).data
    ensures B.WriteObject(spec, order, 3).data[B.CONFIG_FILE] == Print(B.ConfigOf(spec.connectionType), order)
  {
    hide Print, IsOrder, B.ConfigOf, B.ConfigLabels;
  }

  lemma {:induction false} OrderNotEmpty(connectionType: string, order: seq<string>)
    requires IsOrder(B.ConfigOf(connectionType), order)
    ensures order != [] && forall k <- order :: k in B.ConfigOf(connectionType)
  {
    assert "Version" in B.ConfigOf(connectionType);
  }
}
