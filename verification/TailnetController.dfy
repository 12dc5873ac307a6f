/** The reconciler of tailnets, and which of their statuses ever reach the API server. */
module TailnetController {
  import opened Options
  import opened Api
  import opened Conditions
  import opened ErrorLog

  const FINALIZER := "gateway.tailscale.com/tailnet-finalizer"

  datatype TailnetInfo = TailnetInfo(name: string, organization: string, magicDNSSuffix: Option<string>)

  datatype OperationalMetrics = OperationalMetrics(
    lastReconcileTime: nat, successfulReconciles: nat, averageReconcileTime: nat)

  // The parts of the status that the controller writes.
  datatype TailnetStatus = TailnetStatus(
    conditions: seq<Condition>, tailnetInfo: Option<TailnetInfo>, lastSyncTime: Option<nat>,
    recentErrors: seq<DetailedError>, metrics: Option<OperationalMetrics>, lastSuccessfulCall: Option<nat>)

  const EMPTY_STATUS := TailnetStatus([], None, None, [], None, None)

  // The object that the API server stores.
  datatype Tailnet = Tailnet(finalizers: set<string>, deleting: bool, status: TailnetStatus)

  datatype Metadata = Metadata(name: string, magicDNSSuffix: string, organization: string)

  datatype Discovery = Discovered(metadata: Metadata) | DiscoveryFailed(message: string)

  // How the calls of one reconcile end, and the times that its readings of the clock give.
  datatype Outcome = Outcome(
    getOk: bool, updateOk: bool, statusUpdateOk: bool,
    clientError: Option<string>, validationError: Option<string>, discovery: Discovery,
    authenticatedAt: nat, validatedAt: nat, readyAt: nat, syncedAt: nat, startedAt: nat, duration: nat, recordedAt: nat)

  function InfoOf(metadata: Metadata): TailnetInfo {
    TailnetInfo(metadata.name, metadata.organization,
                if metadata.magicDNSSuffix != metadata.name then Some(metadata.magicDNSSuffix) else None)
  }

  // ------------------------------------------------------------------ the conditions of one reconcile

  function AuthenticationFailed(o: Outcome, message: string): Call {
    Call(Name(Authenticated), False, "AuthenticationFailed", message, o.authenticatedAt)
  }

  function AuthenticatedCall(o: Outcome): Call {
    Call(Name(Authenticated), True, "Ready", "OAuth credentials validated successfully", o.authenticatedAt)
  }

  function ValidatedCall(o: Outcome): Call {
    match o.discovery
    case Discovered(_) =>
      Call(Name(Validated), True, "Ready", "Tailnet metadata discovered successfully", o.validatedAt)
    case DiscoveryFailed(message) =>
      Call(Name(Validated), False, "APIError", "Failed to discover tailnet metadata: " + message, o.validatedAt)
  }

  function ReadyCall(o: Outcome): Call {
    Call(Name(Ready), True, "Ready", "Tailnet connection is ready", o.readyAt)
  }

  /** The error that ends the reconcile before its status write, if any. */
  function AuthenticationError(o: Outcome): Option<string> {
    if o.clientError.Some? then o.clientError else o.validationError
  }

  /** The status that a reconcile with valid credentials writes. */
  function Written(status: TailnetStatus, o: Outcome): TailnetStatus {
    var authenticated := WithCondition(status.conditions, AuthenticatedCall(o));
    status.(
      conditions := WithCondition(WithCondition(authenticated, ValidatedCall(o)), ReadyCall(o)),
      tailnetInfo := if o.discovery.Discovered? then Some(InfoOf(o.discovery.metadata)) else status.tailnetInfo,
      lastSyncTime := Some(o.syncedAt))
  }

  /** An object that is being deleted goes away with its last finalizer. */
  function Persisted(tailnet: Tailnet): Option<Tailnet> {
    if tailnet.deleting && tailnet.finalizers == {} then None else Some(tailnet)
  }

  function Step(stored: Option<Tailnet>, o: Outcome): Option<Tailnet> {
    match stored
    case None => None
    case Some(tailnet) =>
      if !o.getOk then stored
      else if FINALIZER !in tailnet.finalizers then
        if o.updateOk then Persisted(tailnet.(finalizers := tailnet.finalizers + {FINALIZER})) else stored
      else if tailnet.deleting then
        if o.updateOk then Persisted(tailnet.(finalizers := tailnet.finalizers - {FINALIZER})) else stored
      else if AuthenticationError(o).Some? || !o.statusUpdateOk then stored
      else Some(tailnet.(status := Written(tailnet.status, o)))
  }

  // ------------------------------------------------------------------ the reconciler

  /** The reconciler's copy of the object. */
  class TailscaleTailnet {
    const name: string
    const namespace: string
    const conditions: ConditionList
    const recentErrors: ErrorList
    var finalizers: set<string>
    var deleting: bool
    var tailnetInfo: Option<TailnetInfo>
    var lastSyncTime: Option<nat>
    var metrics: Option<OperationalMetrics>
    var lastSuccessfulCall: Option<nat>

    constructor (tailnet: Tailnet, name: string, namespace: string)
      ensures fresh(conditions) && fresh(recentErrors)
      ensures Status() == tailnet.status && finalizers == tailnet.finalizers && deleting == tailnet.deleting
    {
      this.name, this.namespace := name, namespace;
      conditions := new ConditionList();
      recentErrors := new ErrorList();
      finalizers, deleting := tailnet.finalizers, tailnet.deleting;
      tailnetInfo, lastSyncTime := tailnet.status.tailnetInfo, tailnet.status.lastSyncTime;
      metrics, lastSuccessfulCall := tailnet.status.metrics, tailnet.status.lastSuccessfulCall;
      new;
      conditions.conditions := tailnet.status.conditions;
      recentErrors.errors := tailnet.status.recentErrors;
    }

    function Status(): TailnetStatus
      reads this, conditions, recentErrors
    {
      TailnetStatus(conditions.conditions, tailnetInfo, lastSyncTime, recentErrors.errors, metrics, lastSuccessfulCall)
    }

    /** Changes the copy only; nothing reaches the API server. */
    method UpdateStatus(call: Call)
      modifies conditions
      ensures Status() == old(Status()).(conditions := WithCondition(old(conditions.conditions), call))
    {
      conditions.SetCondition(call.kind, call.status, call.reason, call.message, call.now);
    }

    method DiscoverAndUpdateTailnetInfo(o: Outcome) returns (failure: Option<string>)
      modifies this
      ensures finalizers == old(finalizers) && deleting == old(deleting)
      ensures match o.discovery
              case Discovered(metadata) =>
                failure == None && Status() == old(Status()).(tailnetInfo := Some(InfoOf(metadata)))
              case DiscoveryFailed(message) => failure == Some(message) && Status() == old(Status())
    {
      match o.discovery {
        case DiscoveryFailed(message) =>
          return Some(message);
        case Discovered(metadata) =>
          var info := TailnetInfo(metadata.name, metadata.organization, None);
          if metadata.magicDNSSuffix != metadata.name {
            info := info.(magicDNSSuffix := Some(metadata.magicDNSSuffix));
          }
          tailnetInfo := Some(info);
          return None;
      }
    }

    /** An error for the copy's log of the last ten. */
    method RecordError(code: string, message: string, component: string, err: string, now: nat)
      modifies recentErrors
      ensures Status() == old(Status()).(
                recentErrors :=
                  Pushed(old(recentErrors.errors), ErrorOf(code, message + ": " + err, component, now), now, 10))
      ensures |recentErrors.errors| > 0
      ensures var last := recentErrors.errors[0];
              && last.code == code && last.message == message + ": " + err && last.component == component
              && last.timestamp == now && last.severity == "High"
              && last.context == if name == "" then map[] else map["tailnet" := name, "namespace" := namespace]
    {
      hide Pushed;
      var detailedError := DetailedError(code, message + ": " + err, component, now, "High", map[]);
      if name != "" {
        detailedError := detailedError.(context := map["tailnet" := name, "namespace" := namespace]);
      }
      recentErrors.AddError(detailedError, now, 10);
    }

    function ErrorOf(code: string, message: string, component: string, now: nat): DetailedError {
      DetailedError(code, message, component, now, "High",
                    if name != "" then map["tailnet" := name, "namespace" := namespace] else map[])
    }

    method RecordMetrics(o: Outcome)
      modifies this
      ensures finalizers == old(finalizers) && deleting == old(deleting)
      ensures conditions.conditions == old(conditions.conditions) && recentErrors.errors == old(recentErrors.errors)
      ensures metrics.Some? && metrics.value.successfulReconciles ==
                1 + if old(metrics).Some? then old(metrics).value.successfulReconciles else 0
      ensures metrics.value.lastReconcileTime == o.startedAt && metrics.value.averageReconcileTime == o.duration
      ensures lastSuccessfulCall == if old(lastSuccessfulCall).Some? then old(lastSuccessfulCall)
                                    else Some(o.recordedAt)
      ensures tailnetInfo == old(tailnetInfo) && lastSyncTime == old(lastSyncTime)
    {
      var before := if metrics.Some? then metrics.value.successfulReconciles else 0;
      metrics := Some(OperationalMetrics(o.startedAt, before + 1, o.duration));
      if lastSuccessfulCall.None? {
        lastSuccessfulCall := Some(o.recordedAt);
      }
    }
  }

  class TailscaleTailnetReconciler {
    // The object on the API server.
    var stored: Option<Tailnet>

    constructor (stored: Option<Tailnet>)
      ensures this.stored == stored
    {
      this.stored := stored;
    }

    /** An update writes everything but the status, which is a resource of its own. */
    method Update(tailnet: TailscaleTailnet, ok: bool)
      requires stored.Some?
      modifies this
      ensures stored ==
                if ok then Persisted(old(stored).value.(finalizers := tailnet.finalizers, deleting := tailnet.deleting))
                else old(stored)
    {
      if ok {
        var updated := stored.value.(finalizers := tailnet.finalizers, deleting := tailnet.deleting);
        stored := if updated.deleting && updated.finalizers == {} then None else Some(updated);
      }
    }

    method Reconcile(name: string, namespace: string, o: Outcome)
      modifies this
      ensures stored == Step(old(stored), o)
    {
      hide WithCondition, InfoOf, Name, Pushed;
      if stored.None? || !o.getOk {
        return;
      }
      var tailnet := new TailscaleTailnet(stored.value, name, namespace);
      if FINALIZER !in tailnet.finalizers {
        tailnet.finalizers := tailnet.finalizers + {FINALIZER};
        Update(tailnet, o.updateOk);
        return;
      }
      if tailnet.deleting {
        tailnet.finalizers := tailnet.finalizers - {FINALIZER};
        Update(tailnet, o.updateOk);
        return;
      }
      var failure := ReconcileTailnet(tailnet, o);
      if failure.Some? {
        tailnet.RecordError("RECONCILIATION_ERROR", "Failed to reconcile TailscaleTailnet", "controller",
                            failure.value, o.recordedAt);
        return;
      }
      tailnet.RecordMetrics(o);
    }

    /** Every early return leaves before the one status write. */
    method ReconcileTailnet(tailnet: TailscaleTailnet, o: Outcome) returns (failure: Option<string>)
      requires stored.Some? && tailnet.Status() == stored.value.status
      modifies this, tailnet, tailnet.conditions
      ensures failure == if AuthenticationError(o).Some? then AuthenticationError(o)
                         else if o.statusUpdateOk then None else Some("status update failed")
      ensures stored == if failure.Some? then old(stored)
                        else Some(old(stored).value.(status := Written(old(stored).value.status, o)))
      ensures tailnet.Status() ==
                if AuthenticationError(o).Some?
                then old(tailnet.Status()).(
                  conditions := WithCondition(old(tailnet.conditions.conditions),
                                              AuthenticationFailed(o, AuthenticationError(o).value)))
                else Written(old(tailnet.Status()), o)
    {
      hide WithCondition, InfoOf, Name;
      if o.clientError.Some? {
        tailnet.UpdateStatus(AuthenticationFailed(o, o.clientError.value));
        return o.clientError;
      }
      if o.validationError.Some? {
        tailnet.UpdateStatus(AuthenticationFailed(o, o.validationError.value));
        return o.validationError;
      }
      tailnet.UpdateStatus(AuthenticatedCall(o));
      var discoveryFailure := tailnet.DiscoverAndUpdateTailnetInfo(o);
      if discoveryFailure.Some? {
        tailnet.UpdateStatus(
          Call(Name(Validated), False, "APIError",
               "Failed to discover tailnet metadata: " + discoveryFailure.value, o.validatedAt));
      } else {
        tailnet.UpdateStatus(
          Call(Name(Validated), True, "Ready", "Tailnet metadata discovered successfully", o.validatedAt));
      }
      tailnet.UpdateStatus(ReadyCall(o));
      tailnet.lastSyncTime := Some(o.syncedAt);
      if !o.statusUpdateOk {
        return Some("status update failed");
      }
      stored := Some(stored.value.(status := tailnet.Status()));
      return None;
    }
  }

  // ------------------------------------------------------------------ what is ever stored

  // What happens to the object: nobody but the controller writes its status.
  datatype Action =
    | Create(finalizers: set<string>)
    | EditFinalizers(finalizers: set<string>)
    | RequestDeletion
    | Reconcile(o: Outcome)

  function Perform(stored: Option<Tailnet>, action: Action): Option<Tailnet> {
    match action
    case Create(finalizers) => if stored.None? then Some(Tailnet(finalizers, false, EMPTY_STATUS)) else stored
    case EditFinalizers(finalizers) => if stored.Some? then Persisted(stored.value.(finalizers := finalizers)) else None
    case RequestDeletion => if stored.Some? then Persisted(stored.value.(deleting := true)) else None
    case Reconcile(o) => Step(stored, o)
  }

  function Run(actions: seq<Action>, n: nat): Option<Tailnet>
    requires n <= |actions|
  {
    if n == 0 then None else Perform(Run(actions, n - 1), actions[n - 1])
  }

  /** A status that was written: three conditions in this order, and nothing but what a good reconcile writes. */
  predicate Good(status: TailnetStatus) {
    && |status.conditions| == 3
    && IsReport(status.conditions[0], Authenticated, "OAuth credentials validated successfully")
    && status.conditions[1].kind == Name(Validated)
    && IsReport(status.conditions[2], Ready, "Tailnet connection is ready")
    && status.lastSyncTime.Some?
  }

  predicate IsReport(condition: Condition, known: KnownType, message: string) {
    && condition.kind == Name(known) && condition.status == True
    && condition.reason == "Ready" && condition.message == message
  }

  predicate NoFailureTrace(status: TailnetStatus) {
    status.recentErrors == [] && status.metrics == None && status.lastSuccessfulCall == None
  }

  predicate GoodOrEmpty(stored: Option<Tailnet>) {
    stored.Some? ==>
      && NoFailureTrace(stored.value.status)
      && (stored.value.status == EMPTY_STATUS || Good(stored.value.status))
  }

  lemma {:induction false} ThreeNames()
    ensures Name(Authenticated) != Name(Validated) && Name(Authenticated) != Name(Ready)
            && Name(Validated) != Name(Ready)
  {
    NameRoundTrip(Authenticated);
    NameRoundTrip(Validated);
    NameRoundTrip(Ready);
  }

  lemma {:induction false} SetFirst(call: Call)
    ensures WithCondition([], call) == [call.AsCondition()]
  {
  }

  lemma {:induction false} SetAt(conditions: seq<Condition>, call: Call, i: nat)
    requires i < |conditions| && conditions[i].kind == call.kind
             && forall j | 0 <= j < i :: conditions[j].kind != call.kind
    ensures WithCondition(conditions, call) == conditions[i := Updated(conditions[i], call)]
  {
    FirstOfUnique(conditions, call.kind, i);
    hide FirstOf;
  }

  lemma {:induction false} SetNew(conditions: seq<Condition>, call: Call)
    requires forall c <- conditions :: c.kind != call.kind
    ensures WithCondition(conditions, call) == conditions + [call.AsCondition()]
  {
    hide FirstOf;
  }

  lemma {:induction false} WrittenFirst(o: Outcome)
    ensures Good(Written(EMPTY_STATUS, o)) && NoFailureTrace(Written(EMPTY_STATUS, o))
  {
    ThreeNames();
    SetFirst(AuthenticatedCall(o));
    var one := [AuthenticatedCall(o).AsCondition()];
    SetNew(one, ValidatedCall(o));
    SetNew(one + [ValidatedCall(o).AsCondition()], ReadyCall(o));
    hide WithCondition, Name, InfoOf;
  }

  /** A further write keeps the times of Authenticated and Ready: neither ever changes its status or reason. */
  lemma {:induction false} WrittenAgain(status: TailnetStatus, o: Outcome)
    requires Good(status) && NoFailureTrace(status)
    ensures var after := Written(status, o);
            && Good(after) && NoFailureTrace(after)
            && after.conditions[0] == status.conditions[0] && after.conditions[2] == status.conditions[2]
            && after.conditions[1] == Updated(status.conditions[1], ValidatedCall(o))
  {
    ThreeNames();
    hide Name, InfoOf;
    SetAt(status.conditions, AuthenticatedCall(o), 0);
    var one := WithCondition(status.conditions, AuthenticatedCall(o));
    SetAt(one, ValidatedCall(o), 1);
    SetAt(WithCondition(one, ValidatedCall(o)), ReadyCall(o), 2);
    hide WithCondition;
  }

  lemma {:induction false} PerformKeepsGood(stored: Option<Tailnet>, action: Action)
    requires GoodOrEmpty(stored)
    ensures GoodOrEmpty(Perform(stored, action))
    ensures stored.Some? && Good(stored.value.status) && Perform(stored, action).Some? ==>
              var before, after := stored.value.status, Perform(stored, action).value.status;
              Good(after) && after.conditions[0] == before.conditions[0] && after.conditions[2] == before.conditions[2]
  {
    hide Written, Good;
    if action.Reconcile? && stored.Some? {
      if stored.value.status == EMPTY_STATUS {
        WrittenFirst(action.o);
      } else {
        WrittenAgain(stored.value.status, action.o);
      }
      assert !Good(EMPTY_STATUS) by { NotGood(); }
    }
  }

  lemma {:induction false} NotGood()
    ensures !Good(EMPTY_STATUS)
  {
  }

  /**
   Over any run, the stored status is either still empty or has Authenticated and Ready,
   once each and true; no failed authentication, recorded error or metric is ever stored.
   */
  lemma {:induction false} StoredIsGood(actions: seq<Action>, n: nat)
    requires n <= |actions|
    ensures GoodOrEmpty(Run(actions, n))
  {
    hide GoodOrEmpty, Perform;
    if n == 0 {
      NothingStored();
    } else {
      StoredIsGood(actions, n - 1);
      PerformKeepsGood(Run(actions, n - 1), actions[n - 1]);
    }
  }

  lemma {:induction false} NothingStored()
    ensures GoodOrEmpty(None)
  {
  }

  lemma {:induction false} StoredConditions(actions: seq<Action>, n: nat)
    requires n <= |actions| && Run(actions, n).Some? && Run(actions, n).value.status != EMPTY_STATUS
    ensures var conditions := Run(actions, n).value.status.conditions;
            && UniqueKinds(conditions)
            && IsConditionTrue(conditions, Name(Authenticated)) && IsConditionTrue(conditions, Name(Ready))
  {
    hide Good, NoFailureTrace, UniqueKinds, IsConditionTrue, Run, Name;
    StoredIsGood(actions, n);
    GoodConditions(Run(actions, n).value.status);
  }

  lemma {:induction false} GoodConditions(status: TailnetStatus)
    requires Good(status)
    ensures UniqueKinds(status.conditions)
    ensures IsConditionTrue(status.conditions, Name(Authenticated)) && IsConditionTrue(status.conditions, Name(Ready))
  {
    ThreeNames();
    FirstOfUnique(status.conditions, Name(Authenticated), 0);
    FirstOfUnique(status.conditions, Name(Ready), 2);
    hide FirstOf, Name;
  }

  /** From the first write on, while the object lasts, the Authenticated and Ready conditions never change at all. */
  lemma {:induction false} GoodConditionsFrozen(actions: seq<Action>, m: nat, n: nat)
    requires m <= n <= |actions| && forall k | m <= k <= n :: Run(actions, k).Some?
    requires Good(Run(actions, m).value.status)
    ensures var first, last := Run(actions, m).value.status, Run(actions, n).value.status;
            Good(last) && last.conditions[0] == first.conditions[0] && last.conditions[2] == first.conditions[2]
  {
    hide GoodOrEmpty, Perform, Good;
    if m < n {
      GoodConditionsFrozen(actions, m, n - 1);
      StoredIsGood(actions, n - 1);
      PerformKeepsGood(Run(actions, n - 1), actions[n - 1]);
    }
  }

  // ------------------------------------------------------------------ what the last write says

  /** Step `k` is a reconcile that writes the status: of a live object with the finalizer, with working credentials. */
  ghost predicate WritesAt(actions: seq<Action>, k: nat)
    requires k < |actions|
  {
    && actions[k].Reconcile? && Run(actions, k).Some?
    && "gateway.tailscale.com/tailnet-finalizer" in Run(actions, k).value.finalizers && !Run(actions, k).value.deleting
    && var o := actions[k].o;
       o.getOk && o.clientError.None? && o.validationError.None? && o.statusUpdateOk
  }

  /** It is the last one of the first `n`, and the object has lasted since. */
  ghost predicate IsLastWrite(actions: seq<Action>, n: nat, k: nat) {
    && k < n <= |actions| && WritesAt(actions, k)
    && (forall j: nat | k < j < n :: !WritesAt(actions, j))
    && (forall j: nat | k < j <= n :: Run(actions, j).Some?)
  }

  /** Whether a status says what this outcome of a reconcile was. */
  ghost predicate Says(status: TailnetStatus, before: TailnetStatus, o: Outcome) {
    && status.lastSyncTime == Some(o.syncedAt)
    && (IsConditionTrue(status.conditions, "Validated") <==> o.discovery.Discovered?)
    && (IsConditionFalse(status.conditions, "Validated") <==> o.discovery.DiscoveryFailed?)
    && match o.discovery
       case DiscoveryFailed(_) => status.tailnetInfo == before.tailnetInfo
       case Discovered(metadata) =>
         && status.tailnetInfo.Some?
         && var info := status.tailnetInfo.value;
            && info.name == metadata.name && info.organization == metadata.organization
            && info.magicDNSSuffix ==
                 if metadata.magicDNSSuffix == metadata.name then None else Some(metadata.magicDNSSuffix)
  }

  lemma {:induction false} WrittenSays(status: TailnetStatus, o: Outcome)
    ensures Says(Written(status, o), status, o)
    ensures var found := GetCondition(Written(status, o).conditions, "Validated");
            && found.Some? && found.value.reason == (if o.discovery.Discovered? then "Ready" else "APIError")
            && found.value.message == match o.discovery
               case Discovered(_) => "Tailnet metadata discovered successfully"
               case DiscoveryFailed(message) => "Failed to discover tailnet metadata: " + message
  {
    var one := WithCondition(status.conditions, AuthenticatedCall(o));
    var two := WithCondition(one, ValidatedCall(o));
    ThreeNames();
    LookupAfterCall(one, ValidatedCall(o), "Validated");
    LookupAfterCall(two, ReadyCall(o), "Validated");
    hide WithCondition, GetCondition;
  }

  /** A step that writes no status leaves it as it is, as long as the object lasts. */
  lemma {:induction false} OnlyWritesChange(actions: seq<Action>, k: nat)
    requires k < |actions| && Run(actions, k).Some? && Run(actions, k + 1).Some?
    ensures Run(actions, k + 1).value.status ==
              if WritesAt(actions, k) then Written(Run(actions, k).value.status, actions[k].o)
              else Run(actions, k).value.status
  {
    hide Written;
  }

  /**
   Over any run, the stored status says of the tailnet what the last reconcile that wrote it
   found: Validated is true exactly if that one discovered the metadata, and then the
   tailnet's info is that metadata; else the info is what was stored before.
   */
  lemma {:induction false} StoredSaysLastWrite(actions: seq<Action>, n: nat, k: nat)
    requires IsLastWrite(actions, n, k)
    ensures Run(actions, n).Some? && Run(actions, k).Some?
    ensures Run(actions, n).value.status == Written(Run(actions, k).value.status, actions[k].o)
    ensures Says(Run(actions, n).value.status, Run(actions, k).value.status, actions[k].o)
    decreases n
  {
    hide Run, WritesAt, Written, Says;
    WritesToSomething(actions, k);
    WrittenSays(Run(actions, k).value.status, actions[k].o);
    if k < n - 1 {
      StoredSaysLastWrite(actions, n - 1, k);
      assert !WritesAt(actions, n - 1);
    }
    OnlyWritesChange(actions, n - 1);
  }

  lemma {:induction false} WritesToSomething(actions: seq<Action>, k: nat)
    requires k < |actions| && WritesAt(actions, k)
    ensures Run(actions, k).Some? && actions[k].Reconcile?
  {
  }

  /** An object that no reconcile has written to since it was made has no status at all. */
  lemma {:induction false} UnwrittenIsEmpty(actions: seq<Action>, b: nat, n: nat)
    requires b <= n <= |actions| && Run(actions, b).None? && Run(actions, n).Some?
    requires forall j: nat | b <= j < n :: !WritesAt(actions, j)
    ensures Run(actions, n).value.status == TailnetStatus([], None, None, [], None, None)
    decreases n
  {
    hide WritesAt, Written;
    if Run(actions, n - 1).Some? {
      assert !WritesAt(actions, n - 1);
      UnwrittenIsEmpty(actions, b, n - 1);
      OnlyWritesChange(actions, n - 1);
    }
  }

  /** In the copy, a failed authentication shows as such, with its error. */
  lemma {:induction false} FailedAuthenticationShows(conditions: seq<Condition>, o: Outcome)
    requires AuthenticationError(o).Some?
    ensures AuthenticationError(o) == if o.clientError.Some? then o.clientError else o.validationError
    ensures var call := AuthenticationFailed(o, AuthenticationError(o).value);
            var found := GetCondition(WithCondition(conditions, call), "Authenticated");
            && found.Some? && found.value.status == False && found.value.reason == "AuthenticationFailed"
            && Some(found.value.message) == AuthenticationError(o)
  {
    LookupAfterCall(conditions, AuthenticationFailed(o, AuthenticationError(o).value), "Authenticated");
    hide WithCondition, GetCondition;
  }

  /** The finalizer: put on first, taken off an object that is being deleted, which goes away with its last one. */
  lemma {:induction false} FinalizerSteps(tailnet: Tailnet, o: Outcome)
    requires o.getOk && o.updateOk
    ensures var own := "gateway.tailscale.com/tailnet-finalizer";
            if own !in tailnet.finalizers then
              Step(Some(tailnet), o) == Some(tailnet.(finalizers := tailnet.finalizers + {own}))
            else if tailnet.deleting then
              Step(Some(tailnet), o) == if tailnet.finalizers == {own} then None
                                        else Some(tailnet.(finalizers := tailnet.finalizers - {own}))
            else
              && Step(Some(tailnet), o).Some? && Step(Some(tailnet), o).value.finalizers == tailnet.finalizers
              && !Step(Some(tailnet), o).value.deleting
  {
    hide Written;
    var own := "gateway.tailscale.com/tailnet-finalizer";
    assert own in tailnet.finalizers && tailnet.finalizers - {own} == {} ==> tailnet.finalizers == {own};
  }
}
