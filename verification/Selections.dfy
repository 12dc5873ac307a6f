/** The indices that a loop with a condition keeps, as the results of such loops are described by. */
module Selections {
  /** Exactly the indices below `n` that `keep` holds of, in order. */
  ghost predicate AreKept(kept: seq<nat>, n: nat, keep: nat -> bool) {
    && (forall i, j | 0 <= i < j < |kept| :: kept[i] < kept[j])
    && (forall i: nat :: i in kept <==> i < n && keep(i))
  }

  lemma {:induction false} NothingKept(keep: nat -> bool)
    ensures AreKept([], 0, keep)
  {
  }

  lemma {:induction false} KeptExtends(kept: seq<nat>, n: nat, keep: nat -> bool)
    requires AreKept(kept, n, keep)
    ensures AreKept(if keep(n) then kept + [n] else kept, n + 1, keep)
  {
    var after := kept + [n];
    assert forall i: nat :: i in after <==> i in kept || i == n;
    forall i | 0 <= i < |kept| ensures kept[i] < n {
      assert kept[i] in kept;
    }
  }

  lemma {:induction false} KeptAlike(kept: seq<nat>, n: nat, keep: nat -> bool, keep': nat -> bool)
    requires AreKept(kept, n, keep) && forall i: nat | i < n :: keep(i) <==> keep'(i)
    ensures AreKept(kept, n, keep')
  {
  }

  lemma {:induction false} KeptBelow(kept: seq<nat>, n: nat, keep: nat -> bool, j: nat)
    requires AreKept(kept, n, keep) && j < |kept|
    ensures kept[j] < n && keep(kept[j])
  {
    assert kept[j] in kept;
  }

  lemma {:induction false} KeptAt(kept: seq<nat>, n: nat, keep: nat -> bool, i: nat)
    requires AreKept(kept, n, keep) && i < n && forall k: nat | k < n :: keep(k)
    ensures i < |kept| && kept[i] == i
  {
    assert i in kept;
    var j :| 0 <= j < |kept| && kept[j] == i;
    if i > 0 { KeptAt(kept, n, keep, i - 1); }
  }

  /** Where everything is kept, the indices are all there are. */
  lemma {:induction false} AllKept(kept: seq<nat>, n: nat, keep: nat -> bool)
    requires AreKept(kept, n, keep) && forall i: nat | i < n :: keep(i)
    ensures |kept| == n && forall i | 0 <= i < n :: kept[i] == i
  {
    if |kept| > n { KeptBelow(kept, n, keep, n); }
    forall i: nat | i < n ensures i < |kept| && kept[i] == i {
      KeptAt(kept, n, keep, i);
    }
    if n > 0 { KeptAt(kept, n, keep, n - 1); }
  }
}
