/** The promises of the client cache, over every interleaving. */
module CacheTheorems {
  import opened Options
  import opened Text
  import opened ClientCache
  import opened CacheInvariant
  import opened CacheRuns

  // ------------------------------------------------------------------ what GetClient hands out

  /** The names and versions Kubernetes hands out contain no colon; the tailnet field may. */
  predicate ColonFree(t: Tailnet) {
    ':' !in t.secretName && ':' !in t.secretNamespace && ':' !in t.resourceVersion
  }

  lemma {:induction false} FingerprintTextInjective(t: Tailnet, u: Tailnet)
    requires ColonFree(t) && ColonFree(u) && FingerprintText(t) == FingerprintText(u)
    ensures t == u
  {
    var rest, rest' := t.secretNamespace + ":" + t.tailnet, u.secretNamespace + ":" + u.tailnet;
    assert FingerprintText(t) == (t.secretName + ":" + rest) + ":" + t.resourceVersion;
    assert FingerprintText(u) == (u.secretName + ":" + rest') + ":" + u.resourceVersion;
    LastSeparatorUnique(t.secretName + ":" + rest, t.resourceVersion,
                        u.secretName + ":" + rest', u.resourceVersion, ':');
    FirstSeparatorUnique(t.secretName, rest, u.secretName, rest', ':');
    FirstSeparatorUnique(t.secretNamespace, t.tailnet, u.secretNamespace, u.tailnet, ':');
  }

  /** Text that ends in a colon and `rest` splits at its first colon, and what follows still ends in `rest`. */
  lemma {:induction false} SplitFirst(x: string, rest: string) returns (p: string, m: string)
    ensures ':' !in p && x + ":" + rest == p + ":" + (m + rest)
    ensures ':' !in x ==> p == x && m == ""
  {
    var k := FirstIndex(x, ':');
    if k.Some? {
      p, m := x[..k.value], x[k.value + 1..] + ":";
      assert x == p + ":" + x[k.value + 1..];
    } else {
      p, m := x, "";
      assert m + rest == rest;
    }
  }

  /** It splits at its last colon too. */
  lemma {:induction false} SplitLast(x: string, rest: string) returns (m: string, q: string)
    ensures ':' !in q && x + ":" + rest == m + ":" + q
  {
    var k := LastIndex(rest, ':');
    if k.Some? {
      m, q := x + ":" + rest[..k.value], rest[k.value + 1..];
      assert rest == rest[..k.value] + ":" + q;
    } else {
      m, q := x, rest;
    }
  }

  /** Every fingerprint text is that of a tailnet with colons in its tailnet field only. */
  lemma {:induction false} ColonFreeReading(t: Tailnet) returns (u: Tailnet)
    ensures ColonFree(u) && FingerprintText(u) == FingerprintText(t)
  {
    var tail := t.tailnet + ":" + t.resourceVersion;
    var p, m := SplitFirst(t.secretName, t.secretNamespace + ":" + tail);
    var q, l := SplitFirst(m + t.secretNamespace, tail);
    var v, w := SplitLast(l + t.tailnet, t.resourceVersion);
    u := Tailnet(p, q, v, w);
    assert FingerprintText(t) == t.secretName + ":" + (t.secretNamespace + ":" + tail);
    assert m + (t.secretNamespace + ":" + tail) == m + t.secretNamespace + ":" + tail;
    assert l + tail == l + t.tailnet + ":" + t.resourceVersion;
    assert FingerprintText(u) == p + ":" + (q + ":" + (v + ":" + w));
  }

  /**
   The converse: a tailnet shares its text with another one that has colons in its tailnet
   field only, exactly if it has one in its secret name, secret namespace or version.
   */
  lemma {:induction false} FingerprintTextCollidesExactly(t: Tailnet)
    ensures (exists u | ColonFree(u) && FingerprintText(u) == FingerprintText(t) :: u != t) <==>
              ':' in t.secretName || ':' in t.secretNamespace || ':' in t.resourceVersion
  {
    hide FingerprintText;
    if ColonFree(t) {
      forall u | ColonFree(u) && FingerprintText(u) == FingerprintText(t) ensures u == t {
        FingerprintTextInjective(u, t);
      }
    } else {
      var u := ColonFreeReading(t);
      assert u != t;
    }
  }

  /** Whatever the other fields hold, equal texts have equal resource versions. */
  lemma {:induction false} SameTextSameVersion(t: Tailnet, u: Tailnet)
    requires ':' !in t.resourceVersion && ':' !in u.resourceVersion && FingerprintText(t) == FingerprintText(u)
    ensures t.resourceVersion == u.resourceVersion
  {
    var x := t.secretName + ":" + t.secretNamespace + ":" + t.tailnet;
    var y := u.secretName + ":" + u.secretNamespace + ":" + u.tailnet;
    LastSeparatorUnique(x, t.resourceVersion, y, u.resourceVersion, ':');
  }

  lemma {:induction false} CacheKeyInjective(a: Ref, b: Ref)
    requires '/' !in a.namespace && '/' !in b.namespace && CacheKey(a) == CacheKey(b)
    ensures a == b
  {
    FirstSeparatorUnique(a.namespace, a.name, b.namespace, b.name, '/');
  }

  ghost predicate Injective(digest: Digest) {
    forall x, y :: digest(x) == digest(y) ==> x == y
  }

  /** The client a GetClient call that has returned handed to its caller. */
  ghost predicate HandsOut(s: State, p: nat, ref: Ref, check: Check, e: Entry) {
    && p in s.pcs && s.pcs[p].Returned? && s.pcs[p].ref == ref && s.pcs[p].outcome.Handed?
    && s.pcs[p].outcome.check == check
    && s.pcs[p].outcome.id < |s.heap| && s.heap[s.pcs[p].outcome.id] == e
  }

  /**
   In every interleaving, a client that is handed out was recorded as created at most an
   hour before the check that released it, at a time the clock really showed, and its
   credentials were in the secret its tailnet named.
   */
  lemma {:induction false} HandedOutIsYoung(n: Naming, r: Trace, i: nat, p: nat, ref: Ref, check: Check, e: Entry)
    requires IsRun(n, r) && i < |r.states| && HandsOut(r.states[i], p, ref, check, e)
    ensures check.at <= e.createdAt + MAX_AGE && ClockShowed(r, i, check.at) && ClockShowed(r, i, e.createdAt)
    ensures TailnetWas(r, i, e.client.owner, e.client.builtFrom) && CredentialsWere(r, i, e.client)
    ensures n.key(e.client.owner) == n.key(ref)
    ensures check.read.Some? ==>
              TailnetWas(r, i, ref, check.read.value)
              && n.fingerprint(check.read.value) == n.fingerprint(e.client.builtFrom)
  {
    InvAlways(n, r, i);
    assert PcInv(n, r.states[i], r.states[i].pcs[p]);
    PcSeenAlways(n, r, i, p);
    EntrySeenAlways(n, r, i, r.states[i].pcs[p].outcome.id);
  }

  /** Every tailnet the API server stores in the run has colon-free names and versions. */
  ghost predicate TailnetsColonFree(r: Trace) {
    forall i, ref | 0 <= i < |r.states| && ref in r.states[i].tailnets :: ColonFree(r.states[i].tailnets[ref])
  }

  /** Every GetClient call of the run names a namespace without a slash. */
  ghost predicate RequestsSlashFree(r: Trace) {
    forall a | a in r.acts && a.Begin? && a.op.GetClient? :: '/' !in a.op.ref.namespace
  }

  predicate IsGetClient(pc: PC) {
    || IsServing(pc) || IsBuilding(pc)
    || pc.WantRead? || pc.Refresh? || pc.WantWrite? || pc.Leave? || pc.Returned?
  }

  ghost predicate OwnersSlashFree(s: State) {
    && (forall p <- s.pcs :: IsGetClient(s.pcs[p]) ==> '/' !in s.pcs[p].ref.namespace)
    && (forall id | 0 <= id < |s.heap| :: '/' !in s.heap[id].client.owner.namespace)
  }

  /** A call keeps asking for the tailnet it was started for. */
  lemma {:induction false} NextPcKeepsRef(n: Naming, s: State, pc: PC, ok: bool, pick: string)
    requires InHeap(s, pc)
    ensures var pc' := NextPc(n, s, pc, ok, pick); IsGetClient(pc') ==> IsGetClient(pc) && pc'.ref == pc.ref
  {
  }

  lemma {:induction false} OwnersSlashFreeAlways(n: Naming, r: Trace, i: nat)
    requires IsRun(n, r) && i < |r.states| && RequestsSlashFree(r)
    ensures OwnersSlashFree(r.states[i])
  {
    hide Next, PcInv, Enabled, Inv, PcAfter;
    if i == 0 {
      assert forall p <- r.states[0].pcs :: !IsGetClient(r.states[0].pcs[p]) by { IdleIsNotGetClient(); }
    } else {
      var s, a, s' := r.states[i - 1], r.acts[i - 1], r.states[i];
      OwnersSlashFreeAlways(n, r, i - 1);
      StepAt(n, r, i - 1);
      PcsAfter(n, s, a, s');
      forall p <- s'.pcs ensures IsGetClient(s'.pcs[p]) ==> '/' !in s'.pcs[p].ref.namespace {
        if IsGetClient(s'.pcs[p]) { RefAfter(n, s, a, p); }
      }
      forall id | 0 <= id < |s'.heap| ensures '/' !in s'.heap[id].client.owner.namespace {
        if id < |s.heap| {
          assert s'.heap[id].client == s.heap[id].client;
        } else {
          EntryAfter(n, s, a, s', id);
          InstallOwner(n, s, a.p);
        }
      }
    }
  }

  lemma {:induction false} IdleIsNotGetClient()
    ensures !IsGetClient(Idle)
  {
  }

  lemma {:induction false} InstallOwner(n: Naming, s: State, p: nat)
    requires Inv(n, s) && p in s.pcs && s.pcs[p].Install?
    ensures s.pcs[p].client.owner == s.pcs[p].ref && IsGetClient(s.pcs[p])
  {
    assert PcInv(n, s, s.pcs[p]);
  }

  lemma {:induction false} RefAfter(n: Naming, s: State, a: Action, p: nat)
    requires Enabled(s, a) && p in s.pcs && IsGetClient(PcAfter(n, s, a, p))
    ensures var pc' := PcAfter(n, s, a, p);
            || (IsGetClient(s.pcs[p]) && pc'.ref == s.pcs[p].ref)
            || (a.Begin? && a.op.GetClient? && pc'.ref == a.op.ref)
  {
    if a.Run? && a.p == p { NextPcKeepsRef(n, s, s.pcs[p], a.ok, a.pick); }
  }

  /**
   If the digest does not collide, the client handed out belongs to the tailnet that was
   asked for, and if the check could read that tailnet, the client was built from one with
   the same secret name, secret namespace, tailnet and resource version.
   */
  lemma {:induction false} HandedOutIsCurrent(
    digest: Digest, r: Trace, i: nat, p: nat, ref: Ref, check: Check, e: Entry)
    requires Injective(digest) && TailnetsColonFree(r) && RequestsSlashFree(r)
    requires IsRun(SourceNaming(digest), r) && i < |r.states| && HandsOut(r.states[i], p, ref, check, e)
    ensures e.client.owner == ref
    ensures check.read.Some? ==> e.client.builtFrom == check.read.value && TailnetWas(r, i, ref, e.client.builtFrom)
  {
    hide IsRun;
    HandedOutIsYoung(SourceNaming(digest), r, i, p, ref, check, e);
    OwnersSlashFreeAlways(SourceNaming(digest), r, i);
    CacheKeyInjective(e.client.owner, ref);
    if check.read.Some? {
      FingerprintTextInjective(check.read.value, e.client.builtFrom);
    }
  }

  /** The API server never gives one resource version to two states of a tailnet. */
  ghost predicate VersionsTellTailnets(r: Trace) {
    forall i, j, ref | && 0 <= i < |r.states| && 0 <= j < |r.states|
                       && ref in r.states[i].tailnets && ref in r.states[j].tailnets ::
      var t, u := r.states[i].tailnets[ref], r.states[j].tailnets[ref];
      ':' !in t.resourceVersion && (t.resourceVersion == u.resourceVersion ==> t == u)
  }

  /** With such versions the same holds whatever colons the names have: an edit that is read is never missed. */
  lemma {:induction false} HandedOutIsCurrentByVersion(
    digest: Digest, r: Trace, i: nat, p: nat, ref: Ref, check: Check, e: Entry)
    requires Injective(digest) && VersionsTellTailnets(r) && RequestsSlashFree(r)
    requires IsRun(SourceNaming(digest), r) && i < |r.states| && HandsOut(r.states[i], p, ref, check, e)
    ensures e.client.owner == ref
    ensures check.read.Some? ==> e.client.builtFrom == check.read.value && TailnetWas(r, i, ref, e.client.builtFrom)
  {
    hide IsRun, FingerprintText;
    HandedOutIsYoung(SourceNaming(digest), r, i, p, ref, check, e);
    OwnersSlashFreeAlways(SourceNaming(digest), r, i);
    CacheKeyInjective(e.client.owner, ref);
    if check.read.Some? {
      SameTextSameVersion(check.read.value, e.client.builtFrom);
    }
  }

  /**
   The fingerprint leaves the credentials out: whatever the secrets become, a cached client
   is kept or refreshed as it would have been, so a rotated secret alone is not noticed.
   */
  lemma {:induction false} RotationUnnoticed(n: Naming, s: State, pc: PC, ok: bool, secrets: map<Ref, Secret>)
    requires InHeap(s, pc) && IsServing(pc)
    ensures ServeNext(n, s.(secrets := secrets), pc, ok) == ServeNext(n, s, pc, ok)
  {
  }

  // ------------------------------------------------------------------ invalidation

  /** No key of the map leads to the entry any more. */
  ghost predicate Dropped(s: State, id: nat) {
    id < |s.heap| && forall k <- s.clients :: s.clients[k] != id
  }

  ghost predicate Mentions(pc: PC, id: nat) {
    || ((pc.CheckAge? || pc.CheckHash? || pc.Touch?) && pc.id == id)
    || ((pc.Leave? || pc.Returned?) && pc.outcome.Handed? && pc.outcome.id == id)
  }

  lemma {:induction false} NextPcMentions(n: Naming, s: State, pc: PC, ok: bool, pick: string, id: nat)
    requires InHeap(s, pc) && Dropped(s, id) && !Mentions(pc, id)
    ensures !Mentions(NextPc(n, s, pc, ok, pick), id)
  {
  }

  lemma {:induction false} WriteKeepsDropped(n: Naming, s: State, pc: PC, pick: string, id: nat)
    requires InHeap(s, pc) && Picks(pc, pick) && Dropped(s, id)
    ensures Dropped(Write(n, s, pc, pick), id)
  {
  }

  lemma {:induction false} NextKeepsDropped(n: Naming, s: State, a: Action, s': State, id: nat)
    requires Next(n, s, a, s') && Dropped(s, id)
    ensures Dropped(s', id)
  {
    hide NextPc, MoveLock, Write;
    if a.Run? { WriteKeepsDropped(n, s, s.pcs[a.p], a.pick, id); }
  }

  /**
   Once an entry has left the map, by removal, cleanup or replacement, no call that had
   not already found it is ever given it, in this call or in a later one.
   */
  lemma {:induction false} DroppedNeverServed(n: Naming, r: Trace, b: nat, i: nat, p: nat, id: nat)
    requires IsRun(n, r) && b <= i < |r.states| && p in r.states[b].pcs
    requires Dropped(r.states[b], id) && !Mentions(r.states[b].pcs[p], id)
    ensures Dropped(r.states[i], id) && p in r.states[i].pcs && !Mentions(r.states[i].pcs[p], id)
    decreases i
  {
    if b < i {
      hide Next, PcInv, Inv, NextPc, Dropped, Mentions;
      var s, a, s' := r.states[i - 1], r.acts[i - 1], r.states[i];
      DroppedNeverServed(n, r, b, i - 1, p, id);
      StepAt(n, r, i - 1);
      PcsAfter(n, s, a, s');
      NextKeepsDropped(n, s, a, s', id);
      if a.Run? && a.p == p { NextPcMentions(n, s, s.pcs[p], a.ok, a.pick, id); }
      if a.Begin? && a.p == p { StartMentions(a.op, id); }
    }
  }

  lemma {:induction false} StartMentions(op: Op, id: nat)
    ensures !Mentions(Start(op), id)
  {
  }

  // ------------------------------------------------------------------ no redundant builds

  /** Step `q` caches a new client under `k`; its entry is the next free one. */
  ghost predicate InstallsAt(n: Naming, r: Trace, q: nat, k: string)
    requires |r.states| == |r.acts| + 1 && q < |r.acts|
  {
    var s, a := r.states[q], r.acts[q];
    a.Run? && a.p in s.pcs && s.pcs[a.p].Install? && n.key(s.pcs[a.p].ref) == k
  }

  /** Step `q` takes the entry `id` of `k` out of the map. */
  ghost predicate EvictsAt(r: Trace, q: nat, k: string, id: nat)
    requires |r.states| == |r.acts| + 1 && q < |r.acts|
  {
    && k in r.states[q].clients && r.states[q].clients[k] == id
    && k !in r.states[q + 1].clients
  }

  /** Only an installation under the same key replaces an entry; everything else can at most remove it. */
  lemma {:induction false} MapAfter(n: Naming, s: State, a: Action, s': State, k: string)
    requires Next(n, s, a, s') && k in s.clients && k in s'.clients && s'.clients[k] != s.clients[k]
    ensures a.Run? && a.p in s.pcs && s.pcs[a.p].Install? && n.key(s.pcs[a.p].ref) == k
  {
    hide NextPc, MoveLock;
  }

  lemma {:induction false} EvictedBetween(n: Naming, r: Trace, b: nat, e: nat, k: string, id: nat) returns (c: nat)
    requires IsRun(n, r) && b <= e < |r.states|
    requires k in r.states[b].clients && r.states[b].clients[k] == id
    requires k !in r.states[e].clients || r.states[e].clients[k] != id
    requires forall q | b <= q < e :: !InstallsAt(n, r, q, k)
    ensures b <= c < e && EvictsAt(r, c, k, id)
    decreases e
  {
    hide Next, PcInv, Inv;
    var s, a, s' := r.states[e - 1], r.acts[e - 1], r.states[e];
    StepAt(n, r, e - 1);
    assert !InstallsAt(n, r, e - 1, k);
    if k in s.clients && s.clients[k] == id {
      if k in s'.clients { MapAfter(n, s, a, s', k); }
      c := e - 1;
    } else {
      c := EvictedBetween(n, r, b, e - 1, k, id);
    }
  }

  lemma {:induction false} InstallPutsEntry(n: Naming, s: State, a: Action, s': State)
    requires Next(n, s, a, s') && a.Run? && s.pcs[a.p].Install?
    ensures var k := n.key(s.pcs[a.p].ref); k in s'.clients && s'.clients[k] == |s.heap| < |s'.heap|
    ensures s'.heap[|s.heap|].createdAt == s.pcs[a.p].createdAt
    ensures s'.heap[|s.heap|].secretHash == n.fingerprint(s.pcs[a.p].client.builtFrom)
  {
    hide NextPc, MoveLock;
  }

  /** After `b`, the fingerprint of the tailnet `ref` was seen to differ from that of the entry `id`. */
  ghost predicate FingerprintChanged(n: Naming, r: Trace, b: nat, e: nat, ref: Ref, hash: string)
    requires e < |r.states|
  {
    exists c | b < c <= e :: ref in r.states[c].tailnets && n.fingerprint(r.states[c].tailnets[ref]) != hash
  }

  /** After `b`, the clock was seen more than an hour past `createdAt`. */
  ghost predicate Outlived(r: Trace, b: nat, e: nat, createdAt: nat)
    requires e < |r.states|
  {
    exists c | b < c <= e :: r.states[c].now > createdAt + MAX_AGE
  }

  /** An entry is in the map only after the step that makes it. */
  lemma {:induction false} CurrentIsLater(n: Naming, r: Trace, b: nat, c: nat, ref: Ref, id: nat)
    requires IsRun(n, r) && b < |r.states| && c < |r.states|
    requires Current(n, r.states[c], ref, id) && id >= |r.states[b].heap|
    ensures b < c
  {
    hide Next, PcInv, HeapInv, LockInv;
    InvAlways(n, r, c);
    if c <= b { InterferesAlong(n, r, c, b); }
  }

  /**
   No redundant builds: between two successive installations for one key the first entry
   was taken out of the map, or was seen to be over an hour old, or its tailnet was seen
   to have another fingerprint, however many goroutines race on the key.
   */
  lemma {:induction false} NoRedundantBuilds(n: Naming, r: Trace, b: nat, e: nat, k: string)
    requires IsRun(n, r) && b < e < |r.acts|
    requires InstallsAt(n, r, b, k) && InstallsAt(n, r, e, k)
    requires forall q | b < q < e :: !InstallsAt(n, r, q, k)
    ensures var first, id, ref := r.states[b].pcs[r.acts[b].p], |r.states[b].heap|, r.states[e].pcs[r.acts[e].p].ref;
            || (exists c | b < c < e :: EvictsAt(r, c, k, id))
            || Outlived(r, b, e, first.createdAt)
            || FingerprintChanged(n, r, b, e, ref, n.fingerprint(first.client.builtFrom))
  {
    hide Next, PcInv, HeapInv, LockInv, ClientSeen, Write, NextPc, MoveLock;
    var first, id, s, last := r.states[b].pcs[r.acts[b].p], |r.states[b].heap|,
        r.states[e], r.states[e].pcs[r.acts[e].p];
    StepAt(n, r, b);
    InstallPutsEntry(n, r.states[b], r.acts[b], r.states[b + 1]);
    StepAt(n, r, e);
    if k !in s.clients || s.clients[k] != id {
      var c := EvictedBetween(n, r, b + 1, e, k, id);
    } else {
      InterferesAlong(n, r, b + 1, e);
      assert s.heap[id].createdAt == first.createdAt;
      PcSeenAlways(n, r, e, r.acts[e].p);
      InstallReason(n, r, e, last);
      var why := last.why;
      if why.Aged? {
        var c :| 0 <= c <= e && Current(n, r.states[c], last.ref, why.id) && r.states[c].now == why.at;
        CurrentIsLater(n, r, b, c, last.ref, id);
      } else {
        var c :| 0 <= c <= e && Current(n, r.states[c], last.ref, why.id)
                 && last.ref in r.states[c].tailnets && r.states[c].tailnets[last.ref] == why.read;
        CurrentIsLater(n, r, b, c, last.ref, id);
      }
    }
  }

  lemma {:induction false} InstallReason(n: Naming, r: Trace, i: nat, pc: PC)
    requires i < |r.states| && pc.Install? && PcInv(n, r.states[i], pc) && PcSeen(n, r, i, pc)
    ensures ReasonSeen(n, r, i, pc.ref, pc.why) && Justified(n, r.states[i], pc.ref, pc.why)
  {
  }

  // ------------------------------------------------------------------ idle eviction

  /** A lookup stamps an entry only while the map holds it, and stamps it with the current time. */
  lemma {:induction false} StampedOnlyInMap(n: Naming, s: State, a: Action, s': State, id: nat)
    requires Inv(n, s) && Next(n, s, a, s') && id < |s.heap| && s'.heap[id].lastUsed != s.heap[id].lastUsed
    ensures a.Run? && s.pcs[a.p].Touch? && s.pcs[a.p].id == id
    ensures var k := s.heap[id].tailnetKey;
            k in s.clients && s.clients[k] == id && s'.clients == s.clients && s'.heap[id].lastUsed == s.now
  {
    hide NextPc, MoveLock;
    assert PcInv(n, s, s.pcs[a.p]);
  }

  /** Step `q` is a lookup that is about to hand out the entry `id` and stamps it. */
  ghost predicate TouchesAt(r: Trace, q: nat, id: nat)
    requires |r.states| == |r.acts| + 1 && q < |r.acts|
  {
    var s, a := r.states[q], r.acts[q];
    a.Run? && a.p in s.pcs && s.pcs[a.p].Touch? && s.pcs[a.p].id == id
  }

  lemma {:induction false} TouchStamps(n: Naming, s: State, a: Action, s': State)
    requires Next(n, s, a, s') && a.Run? && s.pcs[a.p].Touch?
    ensures s.pcs[a.p].id < |s.heap| && s'.heap[s.pcs[a.p].id].lastUsed == s.now
  {
    hide NextPc, MoveLock;
  }

  lemma {:induction false} SweepEvictsOnlyOld(n: Naming, s: State, a: Action, s': State, k: string)
    requires Inv(n, s) && Next(n, s, a, s') && a.Run? && s.pcs[a.p].Sweep?
    requires k in s.clients && k !in s'.clients
    ensures s.clients[k] < |s.heap| && s.heap[s.clients[k]].lastUsed + IDLE_LIMIT < s.now
  {
    hide NextPc, MoveLock;
    assert PcInv(n, s, s.pcs[a.p]);
  }

  /** A cleanup pass evicts only entries neither created nor stamped by a lookup in the last thirty minutes. */
  lemma {:induction false} EvictedWasIdle(n: Naming, r: Trace, e: nat, k: string, id: nat)
    requires IsRun(n, r) && e < |r.acts| && EvictsAt(r, e, k, id)
    requires r.acts[e].Run? && r.acts[e].p in r.states[e].pcs && r.states[e].pcs[r.acts[e].p].Sweep?
    ensures id < |r.states[e].heap| && r.states[e].heap[id].createdAt + IDLE_LIMIT < r.states[e].now
    ensures forall q | 0 <= q < e && TouchesAt(r, q, id) :: r.states[q].now + IDLE_LIMIT < r.states[e].now
  {
    hide Next, PcInv, LockInv;
    StepAt(n, r, e);
    SweepEvictsOnlyOld(n, r.states[e], r.acts[e], r.states[e + 1], k);
    forall q | 0 <= q < e && TouchesAt(r, q, id) ensures r.states[q].now + IDLE_LIMIT < r.states[e].now {
      StepAt(n, r, q);
      TouchStamps(n, r.states[q], r.acts[q], r.states[q + 1]);
      InterferesAlong(n, r, q + 1, e);
    }
  }

  /**
   The sweep of goroutine `p` at `i` began at `c`, has gone on since, and holds the map and
   the cutoff of that moment; and all entries are as they were then.
   */
  ghost predicate SweepBegan(r: Trace, c: nat, i: nat, p: nat)
    requires c < |r.states| && i < |r.states|
  {
    && c < i && p in r.states[c].pcs && r.states[c].pcs[p].SweepStart?
    && (forall j | c < j <= i :: p in r.states[j].pcs && r.states[j].pcs[p].Sweep?)
    && r.states[i].pcs[p].before == r.states[c].clients
    && r.states[i].pcs[p].cutoff == r.states[c].now - IDLE_LIMIT
    && r.states[i].heap == r.states[c].heap
  }

  lemma {:induction false} SweeperAlone(n: Naming, s: State, a: Action, s': State, p: nat)
    requires Inv(n, s) && Next(n, s, a, s') && p in s.pcs && s.pcs[p].Sweep?
    ensures s'.heap == s.heap
    ensures (a.Run? && a.p == p) || s'.clients == s.clients
  {
    hide NextPc, MoveLock;
    if a.Run? { assert HoldsWrite(s.pcs[p]); }
  }

  /** Where a goroutine that sweeps came from. */
  lemma {:induction false} SweepNext(n: Naming, s: State, a: Action, s': State, p: nat)
    requires Inv(n, s) && Next(n, s, a, s') && p in s.pcs && p in s'.pcs && s'.pcs[p].Sweep?
    ensures s'.heap == s.heap
    ensures if s.pcs[p].Sweep? then s'.pcs[p].before == s.pcs[p].before && s'.pcs[p].cutoff == s.pcs[p].cutoff
            else s.pcs[p].SweepStart? && s'.pcs[p].before == s.clients && s'.pcs[p].cutoff == s.now - IDLE_LIMIT
  {
    hide PcInv, LockInv, MapInv, HeapInv, MoveLock, NextPc;
    if s.pcs[p].Sweep? { SweeperAlone(n, s, a, s', p); }
    PcsAfter(n, s, a, s');
    hide Inv;
    if a.Run? && a.p == p {
      SweepComesFrom(n, s, s.pcs[p], a.ok, a.pick);
    } else if a.Begin? && a.p == p {
      hide Next;
      StartIsNoSweep(a.op);
    }
  }

  lemma {:induction false} StartIsNoSweep(op: Op)
    ensures !Start(op).Sweep?
  {
  }

  lemma {:induction false} SweepComesFrom(n: Naming, s: State, pc: PC, ok: bool, pick: string)
    requires InHeap(s, pc) && NextPc(n, s, pc, ok, pick).Sweep?
    ensures var pc' := NextPc(n, s, pc, ok, pick);
            || (pc.SweepStart? && pc' == Sweep(s.now - IDLE_LIMIT, s.clients, s.clients.Keys))
            || (pc.Sweep? && pc'.before == pc.before && pc'.cutoff == pc.cutoff)
  {
  }

  lemma {:induction false} SweepHistory(n: Naming, r: Trace, i: nat, p: nat) returns (c: nat)
    requires IsRun(n, r) && i < |r.states| && p in r.states[i].pcs && r.states[i].pcs[p].Sweep?
    ensures c < i && SweepBegan(r, c, i, p)
  {
    hide Next, PcInv, Inv;
    assert i > 0;
    var s, a, s' := r.states[i - 1], r.acts[i - 1], r.states[i];
    StepAt(n, r, i - 1);
    PcsAfter(n, s, a, s');
    SweepNext(n, s, a, s', p);
    if s.pcs[p].Sweep? {
      c := SweepHistory(n, r, i - 1, p);
    } else {
      c := i - 1;
    }
  }

  /**
   Idle eviction is exact: when a pass has visited every key, the map is the one the pass
   began with less exactly the entries last used more than thirty minutes before it began,
   and no entry has changed since.
   */
  lemma {:induction false} SweepIsExact(n: Naming, r: Trace, i: nat, p: nat) returns (c: nat)
    requires IsRun(n, r) && i < |r.states| && p in r.states[i].pcs
    requires r.states[i].pcs[p].Sweep? && r.states[i].pcs[p].todo == {}
    ensures c < i && SweepBegan(r, c, i, p)
    ensures forall k <- r.states[c].clients :: r.states[c].clients[k] < |r.states[c].heap|
    ensures var start := r.states[c];
            r.states[i].clients ==
              map k | k in start.clients && start.heap[start.clients[k]].lastUsed + IDLE_LIMIT >= start.now ::
                start.clients[k]
  {
    hide Next;
    c := SweepHistory(n, r, i, p);
    InvAlways(n, r, i);
    assert PcInv(n, r.states[i], r.states[i].pcs[p]);
  }
}
