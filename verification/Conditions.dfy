/** Condition lists: a list that stands for a map from a condition type to its last report. */
module Conditions {
  import opened Options
  import opened Api

  // ------------------------------------------------------------------ one list

  /** The first condition of a type. */
  function FirstOf(conditions: seq<Condition>, kind: string): (i: Option<nat>)
    ensures match i
            case None => forall j | 0 <= j < |conditions| :: conditions[j].kind != kind
            case Some(k) =>
              k < |conditions| && conditions[k].kind == kind && forall j | 0 <= j < k :: conditions[j].kind != kind
  {
    if conditions == [] then None
    else if conditions[0].kind == kind then Some(0)
    else
      match FirstOf(conditions[1..], kind)
      case None => assert forall j | 1 <= j < |conditions| :: conditions[j] == conditions[1..][j - 1]; None
      case Some(k) => assert forall j | 1 <= j < k + 1 :: conditions[j] == conditions[1..][j - 1]; Some(k + 1)
  }

  lemma {:induction false} FirstOfUnique(conditions: seq<Condition>, kind: string, k: nat)
    requires k < |conditions| && conditions[k].kind == kind && forall j | 0 <= j < k :: conditions[j].kind != kind
    ensures FirstOf(conditions, kind) == Some(k)
  {
    hide FirstOf;
  }

  function GetCondition(conditions: seq<Condition>, kind: string): (condition: Option<Condition>)
    ensures condition.Some? ==> condition.value.kind == kind
  {
    match FirstOf(conditions, kind)
    case None => None
    case Some(i) => Some(conditions[i])
  }

  predicate IsConditionTrue(conditions: seq<Condition>, kind: string) {
    var condition := GetCondition(conditions, kind);
    condition.Some? && condition.value.status == True
  }

  predicate IsConditionFalse(conditions: seq<Condition>, kind: string) {
    var condition := GetCondition(conditions, kind);
    condition.Some? && condition.value.status == False
  }

  ghost predicate UniqueKinds(conditions: seq<Condition>) {
    forall i, j | 0 <= i < j < |conditions| :: conditions[i].kind != conditions[j].kind
  }

  // One call of SetCondition, and the time on the clock.
  datatype Call = Call(kind: string, status: ConditionStatus, reason: string, message: string, now: nat) {
    function AsCondition(): Condition {
      Condition(kind, status, reason, message, now)
    }
  }

  function Updated(condition: Condition, call: Call): Condition {
    if condition.status != call.status || condition.reason != call.reason then call.AsCondition()
    else condition.(message := call.message)
  }

  function WithCondition(conditions: seq<Condition>, call: Call): seq<Condition> {
    match FirstOf(conditions, call.kind)
    case None => conditions + [call.AsCondition()]
    case Some(i) => conditions[i := Updated(conditions[i], call)]
  }

  class ConditionList {
    var conditions: seq<Condition>

    constructor ()
      ensures conditions == []
    {
      conditions := [];
    }

    method SetCondition(kind: string, status: ConditionStatus, reason: string, message: string, now: nat)
      modifies this
      ensures conditions == WithCondition(old(conditions), Call(kind, status, reason, message, now))
    {
      hide FirstOf;
      var newCondition := Condition(kind, status, reason, message, now);
      for i := 0 to |conditions|
        invariant conditions == old(conditions)
        invariant forall j | 0 <= j < i :: conditions[j].kind != kind
      {
        var condition := conditions[i];
        if condition.kind == kind {
          FirstOfUnique(conditions, kind, i);
          if condition.status != status || condition.reason != reason {
            conditions := conditions[i := newCondition];
          } else {
            conditions := conditions[i := condition.(message := message)];
          }
          return;
        }
      }
      conditions := conditions + [newCondition];
    }
  }

  // ------------------------------------------------------------------ runs

  /** The list after the first `n` calls. */
  function After(start: seq<Condition>, calls: seq<Call>, n: nat): seq<Condition>
    requires n <= |calls|
  {
    if n == 0 then start else WithCondition(After(start, calls, n - 1), calls[n - 1])
  }

  lemma {:induction false} WithConditionKeepsUnique(conditions: seq<Condition>, call: Call)
    requires UniqueKinds(conditions)
    ensures UniqueKinds(WithCondition(conditions, call))
  {
    hide FirstOf;
  }

  /** No run of calls ever lists a type twice. */
  lemma {:induction false} UniqueAlways(start: seq<Condition>, calls: seq<Call>, n: nat)
    requires n <= |calls| && UniqueKinds(start)
    ensures UniqueKinds(After(start, calls, n))
  {
    hide UniqueKinds, WithCondition;
    if n > 0 {
      UniqueAlways(start, calls, n - 1);
      WithConditionKeepsUnique(After(start, calls, n - 1), calls[n - 1]);
    }
  }

  /** A call changes what is found for its own type and for no other. */
  lemma {:induction false} LookupAfterCall(conditions: seq<Condition>, call: Call, kind: string)
    ensures GetCondition(WithCondition(conditions, call), kind) ==
              if kind != call.kind then GetCondition(conditions, kind)
              else match GetCondition(conditions, kind)
                case None => Some(call.AsCondition())
                case Some(condition) => Some(Updated(condition, call))
  {
    hide FirstOf;
    var after, i, j := WithCondition(conditions, call), FirstOf(conditions, call.kind), FirstOf(conditions, kind);
    assert forall m | 0 <= m < |conditions| :: after[m].kind == conditions[m].kind;
    assert i.None? ==> after[|conditions|] == call.AsCondition();
    if j.Some? {
      FirstOfUnique(after, kind, j.value);
    } else if kind == call.kind {
      FirstOfUnique(after, kind, |conditions|);
    }
  }

  /** The status and reason of a type just before call `n`: those of its last call, else those at the start. */
  function ValueBefore(start: seq<Condition>, calls: seq<Call>, n: nat, kind: string): Option<(ConditionStatus, string)>
    requires n <= |calls|
  {
    if n == 0 then
      var condition := GetCondition(start, kind);
      if condition.Some? then Some((condition.value.status, condition.value.reason)) else None
    else if calls[n - 1].kind == kind then Some((calls[n - 1].status, calls[n - 1].reason))
    else ValueBefore(start, calls, n - 1, kind)
  }

  /** Call `n` adds its type, or changes its status or its reason. */
  predicate Transitions(start: seq<Condition>, calls: seq<Call>, n: nat)
    requires n < |calls|
  {
    ValueBefore(start, calls, n, calls[n].kind) != Some((calls[n].status, calls[n].reason))
  }

  /** The last of the first `n` calls for a type. */
  ghost predicate IsLastCall(calls: seq<Call>, n: nat, kind: string, i: nat) {
    && i < n <= |calls| && calls[i].kind == kind
    && forall k: nat | i < k < n :: calls[k].kind != kind
  }

  /** The last of them that was a transition. */
  ghost predicate IsLastTransition(start: seq<Condition>, calls: seq<Call>, n: nat, kind: string, i: nat) {
    && i < n <= |calls| && calls[i].kind == kind && Transitions(start, calls, i)
    && forall k: nat | i < k < n && calls[k].kind == kind :: !Transitions(start, calls, k)
  }

  lemma {:induction false} ValueIsBefore(start: seq<Condition>, calls: seq<Call>, n: nat, kind: string)
    requires n <= |calls|
    ensures var condition := GetCondition(After(start, calls, n), kind);
            ValueBefore(start, calls, n, kind) ==
              if condition.Some? then Some((condition.value.status, condition.value.reason)) else None
  {
    hide GetCondition, WithCondition;
    if n > 0 {
      ValueIsBefore(start, calls, n - 1, kind);
      LookupAfterCall(After(start, calls, n - 1), calls[n - 1], kind);
    }
  }

  /** Over any run, a type is found with the status, reason and message of its last call. */
  lemma {:induction false} LookupIsLastCall(start: seq<Condition>, calls: seq<Call>, n: nat, kind: string, i: nat)
    requires IsLastCall(calls, n, kind, i)
    ensures var found := GetCondition(After(start, calls, n), kind);
            found.Some? && found.value == calls[i].AsCondition().(lastTransitionTime := found.value.lastTransitionTime)
  {
    hide GetCondition, WithCondition;
    LookupAfterCall(After(start, calls, n - 1), calls[n - 1], kind);
    ValueIsBefore(start, calls, n - 1, kind);
    if i < n - 1 { LookupIsLastCall(start, calls, n - 1, kind, i); }
  }

  /** Its transition time is that of its last call that added it or changed its status or reason. */
  lemma {:induction false} TimeIsLastTransition(start: seq<Condition>, calls: seq<Call>, n: nat, kind: string, i: nat)
    requires IsLastTransition(start, calls, n, kind, i)
    ensures var found := GetCondition(After(start, calls, n), kind);
            found.Some? && found.value.lastTransitionTime == calls[i].now
  {
    hide GetCondition, WithCondition, ValueBefore;
    LookupAfterCall(After(start, calls, n - 1), calls[n - 1], kind);
    ValueIsBefore(start, calls, n - 1, kind);
    if i < n - 1 { TimeIsLastTransition(start, calls, n - 1, kind, i); }
  }

  /** Without a transition the time is the one at the start, and without a call the whole condition. */
  lemma {:induction false} LookupWithoutTransition(start: seq<Condition>, calls: seq<Call>, n: nat, kind: string)
    requires n <= |calls| && forall i: nat | i < n && calls[i].kind == kind :: !Transitions(start, calls, i)
    ensures var found, initial := GetCondition(After(start, calls, n), kind), GetCondition(start, kind);
            && found.Some? == initial.Some?
            && (found.Some? ==> found.value.lastTransitionTime == initial.value.lastTransitionTime)
            && ((forall i: nat | i < n :: calls[i].kind != kind) ==> found == initial)
  {
    hide GetCondition, WithCondition, ValueBefore;
    if n > 0 {
      LookupWithoutTransition(start, calls, n - 1, kind);
      LookupAfterCall(After(start, calls, n - 1), calls[n - 1], kind);
      ValueIsBefore(start, calls, n - 1, kind);
      assert calls[n - 1].kind == kind ==> !Transitions(start, calls, n - 1);
    }
  }

  // ------------------------------------------------------------------ the summary

  // The condition types that the summary names.
  datatype KnownType =
    Ready | Progressing | Degraded | APIConnectionReady | Validated | Authenticated | ResourcesReady | DependenciesReady

  function Name(known: KnownType): string {
    match known
    case Ready => "Ready"
    case Progressing => "Progressing"
    case Degraded => "Degraded"
    case APIConnectionReady => "APIConnectionReady"
    case Validated => "Validated"
    case Authenticated => "Authenticated"
    case ResourcesReady => "ResourcesReady"
    case DependenciesReady => "DependenciesReady"
  }

  // The names differ in length.
  function Named(name: string): Option<KnownType> {
    match |name|
    case 5 => Some(Ready)
    case 11 => Some(Progressing)
    case 8 => Some(Degraded)
    case 18 => Some(APIConnectionReady)
    case 9 => Some(Validated)
    case 13 => Some(Authenticated)
    case 14 => Some(ResourcesReady)
    case 17 => Some(DependenciesReady)
    case _ => None
  }

  lemma {:induction false} NameRoundTrip(known: KnownType)
    ensures Named(Name(known)) == Some(known)
  {
  }

  datatype ConditionSummary = ConditionSummary(
    ready: bool, progressing: bool, degraded: bool, apiConnectionReady: bool, validated: bool, authenticated: bool,
    resourcesReady: bool, dependenciesReady: bool, lastTransitionTime: Option<nat>,
    errorConditions: nat, unknownConditions: nat, totalConditions: nat)

  /** Of the first `n` conditions, the last of a type is true. */
  predicate LastIsTrue(conditions: seq<Condition>, n: nat, kind: string)
    requires n <= |conditions|
  {
    && n > 0
    && if conditions[n - 1].kind == kind then conditions[n - 1].status == True
       else LastIsTrue(conditions, n - 1, kind)
  }

  function Count(conditions: seq<Condition>, n: nat, status: ConditionStatus): nat
    requires n <= |conditions|
  {
    if n == 0 then 0 else Count(conditions, n - 1, status) + if conditions[n - 1].status == status then 1 else 0
  }

  function Latest(conditions: seq<Condition>, n: nat): nat
    requires n <= |conditions|
  {
    if n == 0 then 0
    else
      var before, last := Latest(conditions, n - 1), conditions[n - 1].lastTransitionTime;
      if last > before then last else before
  }

  function SummaryOf(conditions: seq<Condition>): ConditionSummary {
    var n := |conditions|;
    ConditionSummary(
      LastIsTrue(conditions, n, Name(Ready)), LastIsTrue(conditions, n, Name(Progressing)),
      LastIsTrue(conditions, n, Name(Degraded)), LastIsTrue(conditions, n, Name(APIConnectionReady)),
      LastIsTrue(conditions, n, Name(Validated)), LastIsTrue(conditions, n, Name(Authenticated)),
      LastIsTrue(conditions, n, Name(ResourcesReady)), LastIsTrue(conditions, n, Name(DependenciesReady)),
      if Latest(conditions, n) == 0 then None else Some(Latest(conditions, n)),
      Count(conditions, n, False), Count(conditions, n, Unknown), n)
  }

  lemma {:induction false} SummaryStarts(conditions: seq<Condition>)
    ensures Count(conditions, 0, False) == Count(conditions, 0, Unknown) == Latest(conditions, 0) == 0
    ensures forall known: KnownType :: !LastIsTrue(conditions, 0, Name(known))
  {
  }

  lemma {:induction false} SummaryExtends(conditions: seq<Condition>, i: nat)
    requires i < |conditions|
    ensures Count(conditions, i + 1, False) ==
              Count(conditions, i, False) + if conditions[i].status == False then 1 else 0
    ensures Count(conditions, i + 1, Unknown) ==
              Count(conditions, i, Unknown) + if conditions[i].status == Unknown then 1 else 0
    ensures Latest(conditions, i + 1) ==
              if conditions[i].lastTransitionTime > Latest(conditions, i) then conditions[i].lastTransitionTime
              else Latest(conditions, i)
    ensures forall known: KnownType :: LastIsTrue(conditions, i + 1, Name(known)) ==
              if conditions[i].kind == Name(known) then conditions[i].status == True
              else LastIsTrue(conditions, i, Name(known))
  {
  }

  /** The switch on the type of a condition. */
  method TypeNamed(kind: string) returns (known: Option<KnownType>)
    ensures forall k: KnownType :: Name(k) == kind <==> known == Some(k)
  {
    forall k: KnownType ensures Named(Name(k)) == Some(k) {
      NameRoundTrip(k);
    }
    hide Name, Named;
    known := None;
    if kind == Name(Ready) {
      known := Some(Ready);
    } else if kind == Name(Progressing) {
      known := Some(Progressing);
    } else if kind == Name(Degraded) {
      known := Some(Degraded);
    } else if kind == Name(APIConnectionReady) {
      known := Some(APIConnectionReady);
    } else if kind == Name(Validated) {
      known := Some(Validated);
    } else if kind == Name(Authenticated) {
      known := Some(Authenticated);
    } else if kind == Name(ResourcesReady) {
      known := Some(ResourcesReady);
    } else if kind == Name(DependenciesReady) {
      known := Some(DependenciesReady);
    }
  }

  /** The single pass over the list; the zero time is 0. */
  method GetConditionSummary(conditions: seq<Condition>) returns (summary: ConditionSummary)
    ensures summary == SummaryOf(conditions)
  {
    SummaryStarts(conditions);
    hide Name, LastIsTrue, Count, Latest;
    var isTrue := map[
      Ready := false, Progressing := false, Degraded := false, APIConnectionReady := false,
      Validated := false, Authenticated := false, ResourcesReady := false, DependenciesReady := false];
    forall known: KnownType ensures known in isTrue && !isTrue[known] {
      if known == Ready || known == Progressing || known == Degraded || known == APIConnectionReady {
      } else {
        assert known in {Validated, Authenticated, ResourcesReady, DependenciesReady};
      }
    }
    var latestTransition, errorConditions, unknownConditions := 0, 0, 0;
    for i := 0 to |conditions|
      invariant latestTransition == Latest(conditions, i)
      invariant errorConditions == Count(conditions, i, False) && unknownConditions == Count(conditions, i, Unknown)
      invariant forall known: KnownType :: known in isTrue && isTrue[known] == LastIsTrue(conditions, i, Name(known))
    {
      var condition := conditions[i];
      SummaryExtends(conditions, i);
      if condition.lastTransitionTime > latestTransition {
        latestTransition := condition.lastTransitionTime;
      }
      if condition.status == False {
        errorConditions := errorConditions + 1;
      } else if condition.status == Unknown {
        unknownConditions := unknownConditions + 1;
      }
      var known := TypeNamed(condition.kind);
      if known.Some? {
        isTrue := isTrue[known.value := condition.status == True];
      }
    }
    summary := ConditionSummary(
      isTrue[Ready], isTrue[Progressing], isTrue[Degraded], isTrue[APIConnectionReady], isTrue[Validated],
      isTrue[Authenticated], isTrue[ResourcesReady], isTrue[DependenciesReady],
      if latestTransition == 0 then None else Some(latestTransition), errorConditions, unknownConditions, |conditions|);
  }

  lemma {:induction false} LastIsFound(conditions: seq<Condition>, n: nat, kind: string)
    requires n <= |conditions| && UniqueKinds(conditions)
    ensures LastIsTrue(conditions, n, kind) <==>
              var i := FirstOf(conditions, kind); i.Some? && i.value < n && conditions[i.value].status == True
  {
    hide FirstOf;
    if n > 0 {
      LastIsFound(conditions, n - 1, kind);
      if conditions[n - 1].kind == kind { FirstOfUnique(conditions, kind, n - 1); }
    }
  }

  /** With no type listed twice, the last condition of a type is the one a lookup finds. */
  lemma {:induction false} SummaryAgreesWithLookup(conditions: seq<Condition>, kind: string)
    requires UniqueKinds(conditions)
    ensures LastIsTrue(conditions, |conditions|, kind) <==> IsConditionTrue(conditions, kind)
  {
    hide FirstOf;
    LastIsFound(conditions, |conditions|, kind);
  }

  lemma {:induction false} LastDecides(conditions: seq<Condition>, n: nat, kind: string, j: nat)
    requires j < n <= |conditions| && conditions[j].kind == kind
    requires forall k | j < k < n :: conditions[k].kind != kind
    ensures LastIsTrue(conditions, n, kind) <==> conditions[j].status == True
  {
    if j < n - 1 { LastDecides(conditions, n - 1, kind, j); }
  }

  /** A type that is listed: the pass keeps its last condition and a lookup finds its first, and so they can differ. */
  lemma {:induction false} SummaryDiffersExactly(conditions: seq<Condition>, kind: string, i: nat, j: nat)
    requires i <= j < |conditions| && conditions[i].kind == conditions[j].kind == kind
    requires forall k | 0 <= k < i || j < k < |conditions| :: conditions[k].kind != kind
    ensures (LastIsTrue(conditions, |conditions|, kind) <==> IsConditionTrue(conditions, kind)) <==>
              (conditions[i].status == True <==> conditions[j].status == True)
  {
    hide FirstOf, LastIsTrue;
    FirstOfUnique(conditions, kind, i);
    LastDecides(conditions, |conditions|, kind, j);
  }

  /** Of a type that is not listed, neither says that it is true. */
  lemma {:induction false} UnlistedIsNotTrue(conditions: seq<Condition>, n: nat, kind: string)
    requires n <= |conditions| && forall c <- conditions :: c.kind != kind
    ensures !LastIsTrue(conditions, n, kind) && !IsConditionTrue(conditions, kind)
  {
    hide FirstOf;
    if n > 0 { UnlistedIsNotTrue(conditions, n - 1, kind); }
  }

  lemma {:induction false} LatestIsMaximum(conditions: seq<Condition>, n: nat)
    requires n <= |conditions|
    ensures forall i | 0 <= i < n :: conditions[i].lastTransitionTime <= Latest(conditions, n)
    ensures Latest(conditions, n) == 0 ||
              exists i | 0 <= i < n :: conditions[i].lastTransitionTime == Latest(conditions, n)
  {
    if n > 0 { LatestIsMaximum(conditions, n - 1); }
  }

  lemma {:induction false} StatusesAddUp(conditions: seq<Condition>, n: nat)
    requires n <= |conditions|
    ensures Count(conditions, n, True) + Count(conditions, n, False) + Count(conditions, n, Unknown) == n
  {
    if n > 0 { StatusesAddUp(conditions, n - 1); }
  }

  /** After any run, the summary says of a type whether the last call for it said true. */
  lemma {:induction false} SummaryIsHistory(calls: seq<Call>, kind: string, i: nat)
    requires IsLastCall(calls, |calls|, kind, i)
    ensures var conditions := After([], calls, |calls|);
            LastIsTrue(conditions, |conditions|, kind) <==> calls[i].status == True
  {
    hide LastIsTrue, After;
    UniqueAlways([], calls, |calls|);
    SummaryAgreesWithLookup(After([], calls, |calls|), kind);
    LookupIsLastCall([], calls, |calls|, kind, i);
    hide UniqueKinds;
  }

  // ------------------------------------------------------------------ the fields of the summary

  /** The last condition of the type is true. */
  ghost predicate EndsTrue(conditions: seq<Condition>, kind: string) {
    exists i | 0 <= i < |conditions| :: EndsTrueAt(conditions, kind, i)
  }

  ghost predicate EndsTrueAt(conditions: seq<Condition>, kind: string, i: nat)
    requires i < |conditions|
  {
    && conditions[i].kind == kind && conditions[i].status == True
    && forall j | i < j < |conditions| :: conditions[j].kind != kind
  }

  lemma {:induction false} LastEndsTrue(conditions: seq<Condition>, kind: string)
    ensures LastIsTrue(conditions, |conditions|, kind) <==> EndsTrue(conditions, kind)
  {
    if LastIsTrue(conditions, |conditions|, kind) {
      var i := LastPosition(conditions, |conditions|, kind);
      assert EndsTrueAt(conditions, kind, i);
    }
    if EndsTrue(conditions, kind) {
      var i: nat :| i < |conditions| && EndsTrueAt(conditions, kind, i);
      LastDecides(conditions, |conditions|, kind, i);
    }
  }

  lemma {:induction false} LastPosition(conditions: seq<Condition>, n: nat, kind: string) returns (i: nat)
    requires n <= |conditions| && LastIsTrue(conditions, n, kind)
    ensures i < n && conditions[i].kind == kind && conditions[i].status == True
    ensures forall j | i < j < n :: conditions[j].kind != kind
  {
    if conditions[n - 1].kind == kind {
      i := n - 1;
    } else {
      i := LastPosition(conditions, n - 1, kind);
    }
  }

  /** Each flag of the summary is about the type it is named after, whatever the list. */
  lemma {:induction false} SummaryFlags(conditions: seq<Condition>)
    ensures var summary := SummaryOf(conditions);
            && (summary.ready <==> EndsTrue(conditions, "Ready"))
            && (summary.progressing <==> EndsTrue(conditions, "Progressing"))
            && (summary.degraded <==> EndsTrue(conditions, "Degraded"))
            && (summary.apiConnectionReady <==> EndsTrue(conditions, "APIConnectionReady"))
            && (summary.validated <==> EndsTrue(conditions, "Validated"))
            && (summary.authenticated <==> EndsTrue(conditions, "Authenticated"))
            && (summary.resourcesReady <==> EndsTrue(conditions, "ResourcesReady"))
            && (summary.dependenciesReady <==> EndsTrue(conditions, "DependenciesReady"))
  {
    hide LastIsTrue, EndsTrue, Count, Latest;
    forall kind ensures LastIsTrue(conditions, |conditions|, kind) <==> EndsTrue(conditions, kind) {
      LastEndsTrue(conditions, kind);
    }
  }

  /** Where the list has a condition with this status. */
  ghost function Places(conditions: seq<Condition>, n: nat, status: ConditionStatus): set<int>
    requires n <= |conditions|
  {
    set i | 0 <= i < n && conditions[i].status == status
  }

  lemma {:induction false} PlacesExtend(conditions: seq<Condition>, n: nat, status: ConditionStatus)
    requires 0 < n <= |conditions|
    ensures Places(conditions, n, status) ==
              Places(conditions, n - 1, status) + if conditions[n - 1].status == status then {n - 1} else {}
    ensures n - 1 !in Places(conditions, n - 1, status)
  {
  }

  lemma {:induction false} CountIsPlaces(conditions: seq<Condition>, n: nat, status: ConditionStatus)
    requires n <= |conditions|
    ensures Count(conditions, n, status) == |Places(conditions, n, status)|
  {
    if n > 0 {
      CountIsPlaces(conditions, n - 1, status);
      PlacesExtend(conditions, n, status);
    }
  }

  /** The counts are of the false and of the unknown conditions and of all, and the time is the latest there is. */
  lemma {:induction false} SummaryCounts(conditions: seq<Condition>)
    ensures var summary, n := SummaryOf(conditions), |conditions|;
            && summary.errorConditions == |Places(conditions, n, False)|
            && summary.unknownConditions == |Places(conditions, n, Unknown)| && summary.totalConditions == n
            && match summary.lastTransitionTime
               case None => forall c <- conditions :: c.lastTransitionTime == 0
               case Some(time) =>
                 && time > 0 && (forall c <- conditions :: c.lastTransitionTime <= time)
                 && exists c <- conditions :: c.lastTransitionTime == time
  {
    hide LastIsTrue, Count, Latest, Places;
    CountIsPlaces(conditions, |conditions|, False);
    CountIsPlaces(conditions, |conditions|, Unknown);
    LatestIsMaximum(conditions, |conditions|);
  }
}
