/** What partial creations and deletions of a proxy leave behind, over any sequence of them. */
module ProxyTheorems {
  import opened Options
  import opened Json
  import opened ConfigPrinter
  import opened ConfigRoundTrip
  import opened ProxyBuilder

  // ------------------------------------------------------------------ how far a creation gets

  /** The first `n` objects of the proxy written. */
  function Prefix(store: Store, spec: ProxySpec, order: seq<string>, n: nat): Store
    requires n <= OBJECT_COUNT && IsOrder(ConfigOf(spec.connectionType), order)
  {
    if n == 0 then store
    else
      Prefix(store, spec, order, n - 1)[WriteKey(spec.namespace, spec.name, n - 1) := WriteObject(spec, order, n - 1)]
  }

  /** Judged by the store at the start, the writes below `k` are accepted and the next one is not. */
  ghost predicate StopsAt(store: Store, spec: ProxySpec, answers: seq<Answer>, k: nat)
    requires |answers| == OBJECT_COUNT
  {
    && k <= OBJECT_COUNT
    && (forall i: nat | i < k :: Accepts(store, WriteKey(spec.namespace, spec.name, i), answers[i]))
    && (k < OBJECT_COUNT ==> !Accepts(store, WriteKey(spec.namespace, spec.name, k), answers[k]))
  }

  predicate SameAt(a: Store, b: Store, key: Key) {
    (key in a <==> key in b) && (key in a ==> a[key] == b[key])
  }

  /** One of the first `n` keys written. */
  ghost predicate Among(namespace: string, name: string, n: nat, key: Key)
    requires n <= OBJECT_COUNT
  {
    exists i: nat | i < n :: key == WriteKey(namespace, name, i)
  }

  lemma {:induction false} WriteKeysDistinct(namespace: string, name: string, i: nat, j: nat)
    requires i < j < OBJECT_COUNT
    ensures WriteKey(namespace, name, i) != WriteKey(namespace, name, j)
  {
  }

  lemma {:induction false} PrefixHolds(store: Store, spec: ProxySpec, order: seq<string>, n: nat)
    requires n <= OBJECT_COUNT && IsOrder(ConfigOf(spec.connectionType), order)
    ensures var after := Prefix(store, spec, order, n);
            && (forall i: nat | i < n :: WriteKey(spec.namespace, spec.name, i) in after
                                         && after[WriteKey(spec.namespace, spec.name, i)] ==
                                              WriteObject(spec, order, i))
            && (forall key :: Among(spec.namespace, spec.name, n, key) || SameAt(store, after, key))
  {
    hide WriteKey, WriteObject, IsOrder, ConfigOf;
    if n > 0 {
      PrefixHolds(store, spec, order, n - 1);
      forall i: nat | i < n - 1
        ensures WriteKey(spec.namespace, spec.name, i) != WriteKey(spec.namespace, spec.name, n - 1)
      {
        WriteKeysDistinct(spec.namespace, spec.name, i, n - 1);
      }
      forall key | !Among(spec.namespace, spec.name, n, key) ensures SameAt(store, Prefix(store, spec, order, n), key) {
        assert !Among(spec.namespace, spec.name, n - 1, key) && key != WriteKey(spec.namespace, spec.name, n - 1);
      }
    }
  }

  lemma {:induction false} AdvanceFrom(
    store: Store, spec: ProxySpec, order: seq<string>, answers: seq<Answer>, i: nat) returns (k: nat)
    requires i <= OBJECT_COUNT == |answers| && IsOrder(ConfigOf(spec.connectionType), order)
    requires forall j: nat | j < i :: Accepts(store, WriteKey(spec.namespace, spec.name, j), answers[j])
    ensures StopsAt(store, spec, answers, k)
    ensures Advance(Prefix(store, spec, order, i), spec, order, answers, i, OBJECT_COUNT) ==
              (Prefix(store, spec, order, k), k == OBJECT_COUNT)
    decreases OBJECT_COUNT - i
  {
    hide WriteKey, WriteObject, IsOrder, ConfigOf;
    k := i;
    if i < OBJECT_COUNT {
      var key := WriteKey(spec.namespace, spec.name, i);
      PrefixHolds(store, spec, order, i);
      forall j: nat | j < i ensures WriteKey(spec.namespace, spec.name, j) != key {
        WriteKeysDistinct(spec.namespace, spec.name, j, i);
      }
      assert !Among(spec.namespace, spec.name, i, key);
      assert Accepts(Prefix(store, spec, order, i), key, answers[i]) == Accepts(store, key, answers[i]);
      if Accepts(store, key, answers[i]) {
        k := AdvanceFrom(store, spec, order, answers, i + 1);
      }
    }
  }

  /** A creation leaves a prefix of its six writes, and reports success exactly when the prefix is all of them. */
  lemma {:induction false} CreationIsPrefix(
    store: Store, spec: ProxySpec, order: seq<string>, answers: seq<Answer>, k: nat)
    requires |answers| == OBJECT_COUNT && IsOrder(ConfigOf(spec.connectionType), order)
    requires StopsAt(store, spec, answers, k)
    ensures Advance(store, spec, order, answers, 0, OBJECT_COUNT) == (Prefix(store, spec, order, k), k == OBJECT_COUNT)
  {
    hide Advance, Accepts;
    var stop := AdvanceFrom(store, spec, order, answers, 0);
    assert stop == k;
  }

  // ------------------------------------------------------------------ runs

  // A creation, or a deletion that stops after `n` deletes; for one proxy the specification may change in between.
  datatype Action =
    | Creation(spec: ProxySpec, order: seq<string>, answers: seq<Answer>)
    | Deletion(accepted: seq<bool>, n: nat)
  {
    predicate Concerns(namespace: string, name: string) {
      match this
      case Creation(spec, order, answers) =>
        && spec.namespace == namespace && spec.name == name
        && |answers| == OBJECT_COUNT && IsOrder(ConfigOf(spec.connectionType), order)
      case Deletion(accepted, n) => n <= OBJECT_COUNT == |accepted|
    }
  }

  function Perform(store: Store, namespace: string, name: string, action: Action): Store
    requires action.Concerns(namespace, name)
  {
    match action
    case Creation(spec, order, answers) => Advance(store, spec, order, answers, 0, OBJECT_COUNT).0
    case Deletion(accepted, n) => Deleted(store, namespace, name, accepted, n)
  }

  function Run(store: Store, namespace: string, name: string, actions: seq<Action>): Store
    requires forall a <- actions :: a.Concerns(namespace, name)
  {
    if actions == [] then store
    else Perform(Run(store, namespace, name, actions[..|actions| - 1]), namespace, name, actions[|actions| - 1])
  }

  /** The stores agree on every key but the six of one proxy. */
  ghost predicate SameElsewhere(a: Store, b: Store, namespace: string, name: string) {
    forall key | key !in KeysOf(namespace, name) :: SameAt(a, b, key)
  }

  lemma {:induction false} DeletedHolds(store: Store, namespace: string, name: string, accepted: seq<bool>, n: nat)
    requires n <= OBJECT_COUNT == |accepted|
    ensures forall key :: key in Deleted(store, namespace, name, accepted, n) <==>
              key in store && forall i: nat | i < n && accepted[i] :: key != DeleteKey(namespace, name, i)
    ensures forall key <- Deleted(store, namespace, name, accepted, n) ::
              Deleted(store, namespace, name, accepted, n)[key] == store[key]
  {
    hide DeleteKey;
    if n > 0 { DeletedHolds(store, namespace, name, accepted, n - 1); }
  }

  lemma {:induction false} StopExists(store: Store, spec: ProxySpec, answers: seq<Answer>, i: nat) returns (k: nat)
    requires i <= OBJECT_COUNT == |answers|
    requires forall j: nat | j < i :: Accepts(store, WriteKey(spec.namespace, spec.name, j), answers[j])
    ensures StopsAt(store, spec, answers, k)
    decreases OBJECT_COUNT - i
  {
    hide WriteKey, Accepts;
    k := i;
    if i < OBJECT_COUNT && Accepts(store, WriteKey(spec.namespace, spec.name, i), answers[i]) {
      k := StopExists(store, spec, answers, i + 1);
    }
  }

  lemma {:induction false} PerformStaysInside(store: Store, namespace: string, name: string, action: Action)
    requires action.Concerns(namespace, name)
    ensures SameElsewhere(store, Perform(store, namespace, name, action), namespace, name)
  {
    hide WriteKey, IsOrder, ConfigOf, WriteObject, Accepts, Advance;
    match action
    case Creation(spec, order, answers) =>
      var k := StopExists(store, spec, answers, 0);
      CreationIsPrefix(store, spec, order, answers, k);
      PrefixHolds(store, spec, order, k);
      assert forall key | key !in KeysOf(namespace, name) :: !Among(namespace, name, k, key);
    case Deletion(accepted, n) =>
      DeletedHolds(store, namespace, name, accepted, n);
      forall i: nat | i < n ensures DeleteKey(namespace, name, i) in KeysOf(namespace, name) {
        assert DeleteKey(namespace, name, i) == WriteKey(namespace, name, OBJECT_COUNT - 1 - i);
      }
  }

  /** Whatever is done to one proxy, no key but its six changes. */
  lemma {:induction false} RunStaysInside(store: Store, namespace: string, name: string, actions: seq<Action>)
    requires forall a <- actions :: a.Concerns(namespace, name)
    ensures SameElsewhere(store, Run(store, namespace, name, actions), namespace, name)
  {
    hide KeysOf, Perform;
    if actions != [] {
      var front := actions[..|actions| - 1];
      RunStaysInside(store, namespace, name, front);
      PerformStaysInside(Run(store, namespace, name, front), namespace, name, actions[|actions| - 1]);
    }
  }

  lemma {:induction false} SameEverywhere(a: Store, b: Store)
    requires forall key :: SameAt(a, b, key)
    ensures a == b
  {
    assert forall key :: SameAt(a, b, key) ==> (key in a <==> key in b);
    assert forall key <- a :: SameAt(a, b, key) ==> a[key] == b[key];
  }

  lemma {:induction false} CompletePrefixesAgree(a: Store, b: Store, spec: ProxySpec, order: seq<string>)
    requires SameElsewhere(a, b, spec.namespace, spec.name) && IsOrder(ConfigOf(spec.connectionType), order)
    ensures Prefix(a, spec, order, OBJECT_COUNT) == Prefix(b, spec, order, OBJECT_COUNT)
  {
    hide WriteKey, WriteObject, IsOrder, ConfigOf, Prefix;
    PrefixHolds(a, spec, order, OBJECT_COUNT);
    PrefixHolds(b, spec, order, OBJECT_COUNT);
    var after, alone := Prefix(a, spec, order, OBJECT_COUNT), Prefix(b, spec, order, OBJECT_COUNT);
    forall key ensures SameAt(after, alone, key) {
      if key in KeysOf(spec.namespace, spec.name) {
        var i: nat :| i < OBJECT_COUNT && key == WriteKey(spec.namespace, spec.name, i);
      } else {
        assert !Among(spec.namespace, spec.name, OBJECT_COUNT, key);
        assert SameAt(a, after, key) && SameAt(b, alone, key) && SameAt(a, b, key);
      }
    }
    SameEverywhere(after, alone);
  }

  /**
   Retry convergence: after any creations and deletions of a proxy, each of any
   specification and stopped anywhere, one creation that succeeds leaves the store that it
   would have left alone.
   */
  lemma {:induction false} RetryConverges(
    store: Store, actions: seq<Action>, spec: ProxySpec, order: seq<string>, answers: seq<Answer>, alone: seq<Answer>)
    requires |answers| == |alone| == OBJECT_COUNT && IsOrder(ConfigOf(spec.connectionType), order)
    requires forall a <- actions :: a.Concerns(spec.namespace, spec.name)
    requires Advance(Run(store, spec.namespace, spec.name, actions), spec, order, answers, 0, OBJECT_COUNT).1
    requires Advance(store, spec, order, alone, 0, OBJECT_COUNT).1
    ensures Advance(Run(store, spec.namespace, spec.name, actions), spec, order, answers, 0, OBJECT_COUNT) ==
              Advance(store, spec, order, alone, 0, OBJECT_COUNT)
  {
    hide Advance, Run, IsOrder, ConfigOf, SameElsewhere, Prefix, Accepts;
    var reached := Run(store, spec.namespace, spec.name, actions);
    RunStaysInside(store, spec.namespace, spec.name, actions);
    var k := StopExists(reached, spec, answers, 0);
    CreationIsPrefix(reached, spec, order, answers, k);
    var m := StopExists(store, spec, alone, 0);
    CreationIsPrefix(store, spec, order, alone, m);
    CompletePrefixesAgree(store, reached, spec, order);
  }

  /** A creation succeeds whenever the API server takes every create and every update. */
  lemma {:induction false} WillingServerCompletes(store: Store, spec: ProxySpec, order: seq<string>)
    requires IsOrder(ConfigOf(spec.connectionType), order)
    ensures Advance(store, spec, order, seq(OBJECT_COUNT, _ => Answer(true, true)), 0, OBJECT_COUNT) ==
              (Prefix(store, spec, order, OBJECT_COUNT), true)
  {
    CreationIsPrefix(store, spec, order, seq(OBJECT_COUNT, _ => Answer(true, true)), OBJECT_COUNT);
  }

  // ------------------------------------------------------------------ referential integrity

  /** The objects that an object names: a binding its role and account, a stateful set its account and secret. */
  function Needs(key: Key, obj: Object): set<Key> {
    match obj
    case BindingObject(_, _, role, account, accountNamespace) =>
      {Key(Role, key.namespace, role), Key(ServiceAccount, accountNamespace, account)}
    case SetObject(_, _, _, _, _, _, account, _, volumes) =>
      {Key(ServiceAccount, key.namespace, account)} + set v <- volumes :: Key(Secret, key.namespace, v.secretName)
    case _ => {}
  }

  ghost predicate Intact(store: Store) {
    forall key <- store :: Needs(key, store[key]) <= store.Keys
  }

  /** Only the proxy's own objects name its six keys. */
  ghost predicate Private(store: Store, namespace: string, name: string) {
    forall key <- store | key !in KeysOf(namespace, name) :: Needs(key, store[key]) !! KeysOf(namespace, name)
  }

  /** What the object at a key of the proxy names, as the builder writes it. */
  function OwnNeeds(namespace: string, name: string, kind: Kind): set<Key> {
    match kind
    case RoleBinding => {Key(Role, namespace, name), Key(ServiceAccount, namespace, name)}
    case StatefulSet => {Key(ServiceAccount, namespace, name), Key(Secret, namespace, ConfigSecretName(name))}
    case _ => {}
  }

  ghost predicate BuilderMade(store: Store, namespace: string, name: string) {
    forall key <- store | key in KeysOf(namespace, name) ::
      Needs(key, store[key]) == OwnNeeds(namespace, name, key.kind)
  }

  ghost predicate Sound(store: Store, namespace: string, name: string) {
    Intact(store) && Private(store, namespace, name) && BuilderMade(store, namespace, name)
  }

  lemma {:induction false} WriteNeeds(spec: ProxySpec, order: seq<string>, i: nat)
    requires i < OBJECT_COUNT && IsOrder(ConfigOf(spec.connectionType), order)
    ensures var key := WriteKey(spec.namespace, spec.name, i);
            && Needs(key, WriteObject(spec, order, i)) == OwnNeeds(spec.namespace, spec.name, key.kind)
            && forall k <- OwnNeeds(spec.namespace, spec.name, key.kind) ::
                 exists j: nat | j < i :: k == WriteKey(spec.namespace, spec.name, j)
  {
    hide IsOrder, ConfigOf;
    if i == 2 || i == 4 {
      assert WriteKey(spec.namespace, spec.name, 0) == Key(ServiceAccount, spec.namespace, spec.name);
      assert WriteKey(spec.namespace, spec.name, if i == 2 then 1 else 3) ==
        if i == 2 then Key(Role, spec.namespace, spec.name)
        else Key(Secret, spec.namespace, ConfigSecretName(spec.name));
    }
  }

  /** Every prefix of a creation keeps every reference. */
  lemma {:induction false} CreationKeepsSound(store: Store, spec: ProxySpec, order: seq<string>, n: nat)
    requires n <= OBJECT_COUNT && IsOrder(ConfigOf(spec.connectionType), order)
    requires Sound(store, spec.namespace, spec.name)
    ensures Sound(Prefix(store, spec, order, n), spec.namespace, spec.name)
  {
    hide WriteKey, WriteObject, IsOrder, ConfigOf, Needs, OwnNeeds;
    if n > 0 {
      CreationKeepsSound(store, spec, order, n - 1);
      PrefixHolds(store, spec, order, n - 1);
      WriteNeeds(spec, order, n - 1);
      assert WriteKey(spec.namespace, spec.name, n - 1) in KeysOf(spec.namespace, spec.name);
    }
  }

  predicate Removed(accepted: seq<bool>, n: nat, i: nat)
    requires n <= |accepted|
  {
    i < n && accepted[i]
  }

  /** Every stateful set left has its account and secret, every binding left its role and account. */
  predicate DependentsGoFirst(store: Store, namespace: string, name: string, accepted: seq<bool>, n: nat)
    requires n <= OBJECT_COUNT == |accepted|
  {
    && (Key(StatefulSet, namespace, name) in store && (Removed(accepted, n, 2) || Removed(accepted, n, 5)) ==>
          Removed(accepted, n, 1))
    && (Key(RoleBinding, namespace, name) in store && (Removed(accepted, n, 4) || Removed(accepted, n, 5)) ==>
          Removed(accepted, n, 3))
  }

  lemma {:induction false} DeletedKeys(store: Store, namespace: string, name: string, accepted: seq<bool>, n: nat)
    requires n <= OBJECT_COUNT == |accepted|
    ensures var after := Deleted(store, namespace, name, accepted, n);
            forall i: nat | i < OBJECT_COUNT ::
              DeleteKey(namespace, name, i) in after <==>
                DeleteKey(namespace, name, i) in store && !Removed(accepted, n, i)
  {
    DeletedHolds(store, namespace, name, accepted, n);
    hide Deleted;
    forall i: nat | i < OBJECT_COUNT
      ensures DeleteKey(namespace, name, i) in Deleted(store, namespace, name, accepted, n) <==>
                DeleteKey(namespace, name, i) in store && !Removed(accepted, n, i)
    {
      forall j: nat | j < OBJECT_COUNT && DeleteKey(namespace, name, j) == DeleteKey(namespace, name, i)
        ensures j == i
      {
      }
    }
  }

  /**
   A deletion stopped anywhere, with any of its deletes failing, keeps every reference
   exactly if no object was deleted before the one that needs it.
   */
  lemma {:induction false} DeletionKeepsIntactExactly(
    store: Store, namespace: string, name: string, accepted: seq<bool>, n: nat)
    requires n <= OBJECT_COUNT == |accepted| && Sound(store, namespace, name)
    ensures var after := Deleted(store, namespace, name, accepted, n);
            && Private(after, namespace, name) && BuilderMade(after, namespace, name)
            && (Intact(after) <==> DependentsGoFirst(store, namespace, name, accepted, n))
  {
    var after := Deleted(store, namespace, name, accepted, n);
    DeletedHolds(store, namespace, name, accepted, n);
    assert forall i: nat | i < OBJECT_COUNT :: DeleteKey(namespace, name, i) in KeysOf(namespace, name) by {
      NamedKeys(namespace, name);
    }
    hide Deleted, WriteKey, KeysOf, DeleteKey, Intact, Private, BuilderMade, OwnReferencesHold, DependentsGoFirst;
    assert forall key | key in store && key !in KeysOf(namespace, name) :: key in after;
    OwnReferencesDecide(store, after, namespace, name);
    OwnReferencesDecide(store, store, namespace, name);
    OwnReferencesAfter(store, namespace, name, accepted, n);
  }

  lemma {:induction false} OwnReferencesAfter(
    store: Store, namespace: string, name: string, accepted: seq<bool>, n: nat)
    requires n <= OBJECT_COUNT == |accepted| && OwnReferencesHold(store, namespace, name)
    ensures OwnReferencesHold(Deleted(store, namespace, name, accepted, n), namespace, name) <==>
              DependentsGoFirst(store, namespace, name, accepted, n)
  {
    var after := Deleted(store, namespace, name, accepted, n);
    DeletedKeys(store, namespace, name, accepted, n);
    hide Deleted;
    assert forall i: nat | i in {1, 2, 3, 4, 5} ::
        DeleteKey(namespace, name, i) in after <==> DeleteKey(namespace, name, i) in store && !Removed(accepted, n, i);
    NamedKeys(namespace, name);
    hide Removed, ConfigSecretName, KeysOf, DeleteKey;
  }

  /** Of a sound store with some of the proxy's objects removed, only those left can miss what they need. */
  lemma {:induction false} OwnReferencesDecide(store: Store, after: Store, namespace: string, name: string)
    requires Sound(store, namespace, name)
    requires forall key <- after :: key in store && after[key] == store[key]
    requires forall key | key in store && key !in KeysOf(namespace, name) :: key in after
    ensures Private(after, namespace, name) && BuilderMade(after, namespace, name)
    ensures Intact(after) <==> OwnReferencesHold(after, namespace, name)
  {
    NamedKeys(namespace, name);
    hide Needs, WriteKey, KeysOf, DeleteKey, ConfigSecretName;
    forall key <- after | key !in KeysOf(namespace, name) ensures Needs(key, after[key]) <= after.Keys {
      forall k <- Needs(key, after[key]) ensures k in after {
        assert k in store && k !in KeysOf(namespace, name);
      }
    }
  }

  ghost predicate OwnReferencesHold(store: Store, namespace: string, name: string) {
    && (Key(StatefulSet, namespace, name) in store ==> OwnNeeds(namespace, name, StatefulSet) <= store.Keys)
    && (Key(RoleBinding, namespace, name) in store ==> OwnNeeds(namespace, name, RoleBinding) <= store.Keys)
  }

  lemma {:induction false} NamedKeys(namespace: string, name: string)
    ensures DeleteKey(namespace, name, 1) == Key(StatefulSet, namespace, name)
    ensures DeleteKey(namespace, name, 2) == Key(Secret, namespace, ConfigSecretName(name))
    ensures DeleteKey(namespace, name, 3) == Key(RoleBinding, namespace, name)
    ensures DeleteKey(namespace, name, 4) == Key(Role, namespace, name)
    ensures DeleteKey(namespace, name, 5) == Key(ServiceAccount, namespace, name)
    ensures forall i: nat | i < OBJECT_COUNT :: DeleteKey(namespace, name, i) in KeysOf(namespace, name)
    ensures forall key :: key in KeysOf(namespace, name) <==>
              key.namespace == namespace && key.name == if key.kind == Secret then ConfigSecretName(name) else name
  {
    forall key ensures key in KeysOf(namespace, name) <==>
        key.namespace == namespace && key.name == if key.kind == Secret then ConfigSecretName(name) else name
    {
      var i := match key.kind
        case ServiceAccount => 0 case Role => 1 case RoleBinding => 2
        case Secret => 3 case StatefulSet => 4 case Service => 5;
      if key.namespace == namespace && key.name == (if key.kind == Secret then ConfigSecretName(name) else name) {
        assert key == WriteKey(namespace, name, i);
      }
    }
    forall i: nat | i < OBJECT_COUNT ensures DeleteKey(namespace, name, i) in KeysOf(namespace, name) {
      assert DeleteKey(namespace, name, i) == WriteKey(namespace, name, OBJECT_COUNT - 1 - i);
    }
  }

  predicate Accepted(action: Action) {
    action.Deletion? ==> forall ok <- action.accepted :: ok
  }

  /** A deletion none of whose deletes fails removes dependents first. */
  lemma {:induction false} AcceptedDeletionKeepsSound(
    store: Store, namespace: string, name: string, accepted: seq<bool>, n: nat)
    requires n <= OBJECT_COUNT == |accepted| && (forall ok <- accepted :: ok) && Sound(store, namespace, name)
    ensures Sound(Deleted(store, namespace, name, accepted, n), namespace, name)
  {
    hide Deleted, Intact, Private, BuilderMade;
    forall i: nat | i < OBJECT_COUNT ensures accepted[i] {
      assert accepted[i] in accepted;
    }
    DeletionKeepsIntactExactly(store, namespace, name, accepted, n);
  }

  lemma {:induction false} PerformKeepsSound(store: Store, namespace: string, name: string, action: Action)
    requires Sound(store, namespace, name) && action.Concerns(namespace, name) && Accepted(action)
    ensures Sound(Perform(store, namespace, name, action), namespace, name)
  {
    hide Sound, Advance, Deleted, IsOrder, ConfigOf, Accepts, WriteKey;
    match action
    case Creation(spec, order, answers) =>
      var k := StopExists(store, spec, answers, 0);
      CreationIsPrefix(store, spec, order, answers, k);
      CreationKeepsSound(store, spec, order, k);
    case Deletion(accepted, n) =>
      AcceptedDeletionKeepsSound(store, namespace, name, accepted, n);
  }

  /**
   Over any creations and deletions of a proxy, each stopped anywhere, with creates and
   updates failing at will but no delete failing, nothing is ever left that names an object
   that is not there.
   */
  lemma {:induction false} RunKeepsSound(store: Store, namespace: string, name: string, actions: seq<Action>)
    requires Sound(store, namespace, name)
    requires forall a <- actions :: a.Concerns(namespace, name) && Accepted(a)
    ensures Sound(Run(store, namespace, name, actions), namespace, name)
  {
    hide Sound, Perform, Accepted;
    if actions != [] {
      var front, last := actions[..|actions| - 1], actions[|actions| - 1];
      RunKeepsSound(store, namespace, name, front);
      assert last in actions;
      PerformKeepsSound(Run(store, namespace, name, front), namespace, name, last);
    }
  }

  /** Deletion removes the six keys of the proxy and nothing else. */
  lemma {:induction false} DeletionIsExact(store: Store, namespace: string, name: string, accepted: seq<bool>)
    requires |accepted| == OBJECT_COUNT && forall ok <- accepted :: ok
    ensures Deleted(store, namespace, name, accepted, OBJECT_COUNT) == store - KeysOf(namespace, name)
  {
    DeletedHolds(store, namespace, name, accepted, OBJECT_COUNT);
    hide Deleted, WriteKey;
    var after := Deleted(store, namespace, name, accepted, OBJECT_COUNT);
    forall key ensures key in after <==> key in store && key !in KeysOf(namespace, name) {
      if key in KeysOf(namespace, name) {
        var i: nat :| i < OBJECT_COUNT && key == WriteKey(namespace, name, i);
        var j: nat := OBJECT_COUNT - 1 - i;
        assert accepted[j] in accepted && DeleteKey(namespace, name, j) == WriteKey(namespace, name, i);
      }
    }
  }

  // ------------------------------------------------------------------ proxies side by side

  /** The name that the controller gives the proxy of a service. */
  function ProxyName(service: string): string {
    service + "-proxy"
  }

  lemma {:induction false} AppendInjective(a: string, b: string, suffix: string)
    requires a + suffix == b + suffix
    ensures a == b
  {
    assert |a| == |b|;
    assert a == (a + suffix)[..|a|] && b == (b + suffix)[..|b|];
  }

  /** Proxies of different services share no key. */
  lemma {:induction false} ProxiesNeverShare(namespace: string, service: string, otherNamespace: string, other: string)
    requires (namespace, service) != (otherNamespace, other)
    ensures KeysOf(namespace, ProxyName(service)) !! KeysOf(otherNamespace, ProxyName(other))
  {
    NamedKeys(namespace, ProxyName(service));
    NamedKeys(otherNamespace, ProxyName(other));
    hide KeysOf, WriteKey, DeleteKey;
    forall key | key in KeysOf(namespace, ProxyName(service)) ensures key !in KeysOf(otherNamespace, ProxyName(other)) {
      if key in KeysOf(otherNamespace, ProxyName(other)) {
        if key.kind == Secret { AppendInjective(ProxyName(service), ProxyName(other), "-config"); }
        AppendInjective(service, other, "-proxy");
      }
    }
  }

  /** Nothing done to the proxy of one service changes an object of the proxy of another. */
  lemma {:induction false} NeighboursUntouched(
    store: Store, namespace: string, service: string, otherNamespace: string, other: string,
    actions: seq<Action>, key: Key)
    requires (namespace, service) != (otherNamespace, other)
    requires forall a <- actions :: a.Concerns(namespace, ProxyName(service))
    requires key in KeysOf(otherNamespace, ProxyName(other))
    ensures SameAt(store, Run(store, namespace, ProxyName(service), actions), key)
  {
    hide Run, KeysOf, ProxyName;
    ProxiesNeverShare(namespace, service, otherNamespace, other);
    RunStaysInside(store, namespace, ProxyName(service), actions);
  }

  // A creation or deletion of the proxy of one service among many.
  datatype Deed = Deed(namespace: string, service: string, action: Action) {
    predicate Possible() {
      action.Concerns(namespace, ProxyName(service))
    }
  }

  function MixedRun(store: Store, deeds: seq<Deed>, n: nat): Store
    requires n <= |deeds| && forall d <- deeds :: d.Possible()
  {
    if n == 0 then store
    else
      var d := deeds[n - 1];
      assert d in deeds && d.Possible();
      Perform(MixedRun(store, deeds, n - 1), d.namespace, ProxyName(d.service), d.action)
  }

  type Services = set<(string, string)>

  /** Every reference holds, and each proxy's keys are its own. */
  ghost predicate AllSound(store: Store, services: Services) {
    forall s <- services :: Sound(store, s.0, ProxyName(s.1))
  }

  lemma {:induction false} OwnNeedsInside(namespace: string, name: string, kind: Kind)
    ensures OwnNeeds(namespace, name, kind) <= KeysOf(namespace, name)
  {
    NamedKeys(namespace, name);
    hide KeysOf, ConfigSecretName;
  }

  /** What is done to one proxy leaves the keys of another its own. */
  lemma {:induction false} OthersStaySound(
    store: Store, after: Store, namespace: string, name: string, otherNamespace: string, other: string)
    requires SameElsewhere(store, after, namespace, name) && Sound(after, namespace, name)
    requires KeysOf(namespace, name) !! KeysOf(otherNamespace, other) && Sound(store, otherNamespace, other)
    ensures Sound(after, otherNamespace, other)
  {
    hide KeysOf, Needs, OwnNeeds, Intact;
    forall key <- after | key !in KeysOf(otherNamespace, other)
      ensures Needs(key, after[key]) !! KeysOf(otherNamespace, other)
    {
      if key in KeysOf(namespace, name) {
        OwnNeedsInside(namespace, name, key.kind);
      } else {
        assert SameAt(store, after, key);
      }
    }
    forall key <- after | key in KeysOf(otherNamespace, other)
      ensures Needs(key, after[key]) == OwnNeeds(otherNamespace, other, key.kind)
    {
      assert SameAt(store, after, key);
    }
  }

  /**
   However the creations and deletions of any number of proxies alternate, each stopped
   anywhere, no reference ever dangles.
   */
  lemma {:induction false} MixedRunKeepsSound(store: Store, deeds: seq<Deed>, n: nat, services: Services)
    requires n <= |deeds| && forall d <- deeds :: d.Possible() && Accepted(d.action)
    requires AllSound(store, services) && forall d <- deeds :: (d.namespace, d.service) in services
    ensures AllSound(MixedRun(store, deeds, n), services)
  {
    hide Sound, Perform, Accepted, KeysOf, SameElsewhere, ProxyName;
    if n > 0 {
      var d, before := deeds[n - 1], MixedRun(store, deeds, n - 1);
      MixedRunKeepsSound(store, deeds, n - 1, services);
      assert d in deeds && d.Possible();
      var name := ProxyName(d.service);
      PerformKeepsSound(before, d.namespace, name, d.action);
      PerformStaysInside(before, d.namespace, name, d.action);
      var after := Perform(before, d.namespace, name, d.action);
      forall s <- services ensures Sound(after, s.0, ProxyName(s.1)) {
        if s != (d.namespace, d.service) {
          ProxiesNeverShare(d.namespace, d.service, s.0, s.1);
          OthersStaySound(before, after, d.namespace, name, s.0, ProxyName(s.1));
        }
      }
    }
  }

  // ------------------------------------------------------------------ the configuration secret

  /** In whatever order the map was iterated, the secret holds the text of the proxy's configuration. */
  lemma {:induction false} SecretReadsBack(spec: ProxySpec, order: seq<string>)
    requires IsOrder(ConfigOf(spec.connectionType), order)
    ensures ReadConfig(WriteObject(spec, order, 3).data[CONFIG_FILE]) == Some(ConfigOf(spec.connectionType))
  {
    hide ReadConfig, Print, IsOrder, ConfigOf, CleanConfig;
    ConfigIsClean(spec.connectionType);
    CleanConfigRoundTrips(ConfigOf(spec.connectionType), order);
  }

  lemma {:induction false} ConfigIsClean(connectionType: string)
    ensures CleanConfig(ConfigOf(connectionType))
  {
    WordsAreClean();
    hide IsClean;
  }

  lemma {:induction false} WordsAreClean()
    ensures IsClean("Version") && IsClean("Locked") && IsClean("AdvertiseServices") && IsClean("alpha0")
  {
  }
}
