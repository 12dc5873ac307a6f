/**
 What every step of the client cache keeps: lock ownership, the shape of the map and
 the heap of entries, and what each goroutine may rely on at its program counter.
 */
module CacheInvariant {
  import opened Options
  import opened ClientCache

  /** Writers exclude everyone; the lock is held exactly by the goroutines whose counter says so. */
  ghost predicate LockInv(s: State) {
    && (s.writer.Some? ==> s.readers == {} && s.writer.value in s.pcs)
    && s.readers <= s.pcs.Keys
    && forall p <- s.pcs :: (HoldsRead(s.pcs[p]) <==> p in s.readers) && (HoldsWrite(s.pcs[p]) <==> s.writer == Some(p))
  }

  ghost predicate MapInv(s: State) {
    forall k <- s.clients :: s.clients[k] < |s.heap| && s.heap[s.clients[k]].tailnetKey == k
  }

  ghost predicate EntryInv(n: Naming, now: nat, e: Entry) {
    && e.createdAt <= e.lastUsed <= now
    && e.secretHash == n.fingerprint(e.client.builtFrom)
    && e.tailnetKey == n.key(e.client.owner)
  }

  ghost predicate HeapInv(n: Naming, s: State) {
    forall i | 0 <= i < |s.heap| :: EntryInv(n, s.now, s.heap[i])
  }

  /** The entry `id` is the one the map holds for `ref`. */
  ghost predicate Current(n: Naming, s: State, ref: Ref, id: nat) {
    n.key(ref) in s.clients && s.clients[n.key(ref)] == id
  }

  /** The check found the entry young enough and, if it could read the tailnet, unchanged. */
  ghost predicate Passed(n: Naming, s: State, id: nat, check: Check) {
    && id < |s.heap|
    && check.at <= s.now
    && check.at <= s.heap[id].createdAt + MAX_AGE
    && (check.read.Some? ==> n.fingerprint(check.read.value) == s.heap[id].secretHash)
  }

  ghost predicate GoodOutcome(n: Naming, s: State, ref: Ref, outcome: Outcome) {
    outcome.Handed? ==> Passed(n, s, outcome.id, outcome.check) && s.heap[outcome.id].tailnetKey == n.key(ref)
  }

  /** The reason a goroutine has for building a client still holds of the map. */
  ghost predicate Justified(n: Naming, s: State, ref: Ref, why: Reason) {
    match why
    case Absent => n.key(ref) !in s.clients
    case Aged(id, at) => Current(n, s, ref, id) && id < |s.heap| && s.heap[id].createdAt + MAX_AGE < at <= s.now
    case Changed(id, read) =>
      Current(n, s, ref, id) && id < |s.heap| && n.fingerprint(read) != s.heap[id].secretHash
  }

  /** Which entries a sweep that still has `todo` to visit has left in the map. */
  function Survivors(heap: seq<Entry>, before: map<string, nat>, cutoff: int, todo: set<string>): map<string, nat>
    requires forall k <- before :: before[k] < |heap|
  {
    map k | k in before && (k in todo || heap[before[k]].lastUsed >= cutoff) :: before[k]
  }

  ghost predicate PcInv(n: Naming, s: State, pc: PC) {
    match pc
    case CheckAge(ref, _, id) => Current(n, s, ref, id)
    case CheckHash(ref, _, id, at) => Current(n, s, ref, id) && Passed(n, s, id, Check(at, None))
    case Touch(ref, _, id, check) => Current(n, s, ref, id) && Passed(n, s, id, check)
    case Fetch(ref, why) => Justified(n, s, ref, why)
    case Build(ref, why, _) => Justified(n, s, ref, why)
    case Stamp(ref, why, client) => Justified(n, s, ref, why) && client.owner == ref
    case Install(ref, why, client, createdAt) =>
      Justified(n, s, ref, why) && client.owner == ref && createdAt <= s.now
    case Leave(ref, _, outcome) => GoodOutcome(n, s, ref, outcome)
    case Returned(ref, outcome) => GoodOutcome(n, s, ref, outcome)
    case Sweep(cutoff, before, todo) =>
      && cutoff + IDLE_LIMIT <= s.now
      && todo <= before.Keys
      && (forall k <- before :: before[k] < |s.heap| && s.heap[before[k]].tailnetKey == k)
      && s.clients == Survivors(s.heap, before, cutoff, todo)
    case _ => true
  }

  ghost predicate Inv(n: Naming, s: State) {
    && LockInv(s)
    && MapInv(s)
    && HeapInv(n, s)
    && forall p <- s.pcs :: PcInv(n, s, s.pcs[p])
  }

  /** Entries are only added, and an entry only ever changes its lastUsed stamp, forwards. */
  ghost predicate HeapGrows(old_: seq<Entry>, new_: seq<Entry>) {
    && |old_| <= |new_|
    && forall i | 0 <= i < |old_| ::
         old_[i].lastUsed <= new_[i].lastUsed && new_[i] == old_[i].(lastUsed := new_[i].lastUsed)
  }

  /** What a step of one goroutine, of the clock or of the API server may do to the state another goroutine sees. */
  ghost predicate Interferes(s: State, s': State) {
    HeapGrows(s.heap, s'.heap) && s.now <= s'.now
  }

  /** A goroutine's knowledge survives the others: without a lock it knows only what never changes. */
  lemma {:induction false} PcInvSurvives(n: Naming, s: State, s': State, pc: PC)
    requires PcInv(n, s, pc) && Interferes(s, s')
    requires HoldsRead(pc) || HoldsWrite(pc) ==> s'.clients == s.clients
    requires pc.Sweep? ==> s'.heap == s.heap
    ensures PcInv(n, s', pc)
  {
  }

  /** The lock a goroutine takes or releases is the one its next counter says it holds. */
  lemma {:induction false} LockFollowsPc(n: Naming, s: State, pc: PC, ok: bool, pick: string)
    requires InHeap(s, pc) && !pc.Idle? && !pc.Returned?
    ensures var pc' := NextPc(n, s, pc, ok, pick);
            if WantsRead(pc) then HoldsRead(pc') && !HoldsWrite(pc')
            else if WantsWrite(pc) then !HoldsRead(pc') && HoldsWrite(pc')
            else if Releases(pc) then !HoldsRead(pc') && !HoldsWrite(pc')
            else HoldsRead(pc') == HoldsRead(pc) && HoldsWrite(pc') == HoldsWrite(pc)
  {
  }

  lemma {:induction false} RunKeepsLockInv(n: Naming, s: State, p: nat, ok: bool, pick: string)
    requires LockInv(s) && Enabled(s, Run(p, ok, pick))
    ensures LockInv(Apply(n, s, Run(p, ok, pick)))
  {
    LockFollowsPc(n, s, s.pcs[p], ok, pick);
  }

  /** What a step may do to the map and the heap: only a lock holder writes, and the map needs the write lock. */
  lemma {:induction false} WriteNeedsLock(n: Naming, s: State, pc: PC, pick: string)
    requires InHeap(s, pc) && Picks(pc, pick) && HeapInv(n, s)
    ensures var s' := Write(n, s, pc, pick);
            && Interferes(s, s')
            && (HoldsWrite(pc) || s'.clients == s.clients)
            && (HoldsRead(pc) || HoldsWrite(pc) || s'.heap == s.heap)
  {
  }

  lemma {:induction false} WriteKeeps(n: Naming, s: State, pc: PC, pick: string)
    requires InHeap(s, pc) && Picks(pc, pick) && MapInv(s) && HeapInv(n, s) && PcInv(n, s, pc)
    ensures var s' := Write(n, s, pc, pick); MapInv(s') && HeapInv(n, s')
  {
  }

  lemma {:induction false} ServeKeeps(n: Naming, s: State, pc: PC, ok: bool)
    requires InHeap(s, pc) && MapInv(s) && PcInv(n, s, pc) && IsServing(pc)
    ensures PcInv(n, s, ServeNext(n, s, pc, ok))
  {
  }

  lemma {:induction false} BuildKeeps(n: Naming, s: State, pc: PC, ok: bool)
    requires MapInv(s) && HeapInv(n, s) && PcInv(n, s, pc) && IsBuilding(pc)
    ensures PcInv(n, Write(n, s, pc, ""), BuildNext(s, pc, ok))
  {
  }

  lemma {:induction false} SweepKeeps(n: Naming, s: State, pc: PC, pick: string)
    requires InHeap(s, pc) && Picks(pc, pick) && PcInv(n, s, pc) && pc.Sweep? && pc.todo != {}
    ensures PcInv(n, Write(n, s, pc, pick), EvictNext(s, pc, pick))
  {
    assert Write(n, s, pc, pick).clients == Survivors(s.heap, pc.before, pc.cutoff, pc.todo - {pick});
  }

  lemma {:induction false} EvictKeeps(n: Naming, s: State, pc: PC, pick: string)
    requires InHeap(s, pc) && Picks(pc, pick) && MapInv(s) && PcInv(n, s, pc) && IsEvicting(pc)
    ensures PcInv(n, Write(n, s, pc, pick), EvictNext(s, pc, pick))
  {
    if pc.SweepStart? {
      hide Picks;
      assert s.clients == Survivors(s.heap, s.clients, s.now - IDLE_LIMIT, s.clients.Keys);
    } else if pc.Sweep? && pc.todo != {} {
      hide MapInv, PcInv, Write, EvictNext, InHeap, Picks;
      SweepKeeps(n, s, pc, pick);
    }
  }

  lemma {:induction false} RunKeepsPcInv(n: Naming, s: State, pc: PC, ok: bool, pick: string)
    requires CanRun(s, pc, pick) && MapInv(s) && HeapInv(n, s) && PcInv(n, s, pc)
    ensures PcInv(n, Write(n, s, pc, pick), NextPc(n, s, pc, ok, pick))
  {
    var s', pc' := Write(n, s, pc, pick), NextPc(n, s, pc, ok, pick);
    if IsServing(pc) {
      ServeKeeps(n, s, pc, ok);
      WriteNeedsLock(n, s, pc, pick);
      PcInvSurvives(n, s, s', pc');
    } else if IsBuilding(pc) {
      BuildKeeps(n, s, pc, ok);
    } else if IsEvicting(pc) {
      EvictKeeps(n, s, pc, pick);
    }
  }

  /** While `p` moves, what another goroutine, `q`, relies on survives: if `q` holds a lock, `p` does not write. */
  lemma {:induction false} OthersSurvive(n: Naming, s: State, p: nat, pick: string, q: nat)
    requires LockInv(s) && HeapInv(n, s) && p in s.pcs && CanRun(s, s.pcs[p], pick)
    requires q in s.pcs && q != p && PcInv(n, s, s.pcs[q])
    ensures PcInv(n, Write(n, s, s.pcs[p], pick), s.pcs[q])
  {
    WriteNeedsLock(n, s, s.pcs[p], pick);
    PcInvSurvives(n, s, Write(n, s, s.pcs[p], pick), s.pcs[q]);
  }

  /** Locks and counters are no part of what a goroutine relies on. */
  lemma {:induction false} PcInvIgnoresLocks(n: Naming, s: State, s': State, pc: PC)
    requires PcInv(n, s, pc) && s'.clients == s.clients && s'.heap == s.heap && s'.now >= s.now
    ensures PcInv(n, s', pc)
  {
    PcInvSurvives(n, s, s', pc);
  }

  lemma {:induction false} AssembleInv(n: Naming, s: State, s': State)
    requires MapInv(s) && HeapInv(n, s) && LockInv(s')
    requires s'.clients == s.clients && s'.heap == s.heap && s'.now >= s.now
    requires forall q <- s'.pcs :: PcInv(n, s, s'.pcs[q])
    ensures Inv(n, s')
  {
    forall q <- s'.pcs ensures PcInv(n, s', s'.pcs[q]) {
      PcInvIgnoresLocks(n, s, s', s'.pcs[q]);
    }
  }

  lemma {:induction false} RunKeepsPcs(n: Naming, s: State, p: nat, ok: bool, pick: string, q: nat)
    requires Inv(n, s) && p in s.pcs && CanRun(s, s.pcs[p], pick) && q in s.pcs
    ensures PcInv(n, Write(n, s, s.pcs[p], pick), if q == p then NextPc(n, s, s.pcs[p], ok, pick) else s.pcs[q])
  {
    assert PcInv(n, s, s.pcs[p]) && PcInv(n, s, s.pcs[q]);
    if q == p { RunKeepsPcInv(n, s, s.pcs[p], ok, pick); } else { OthersSurvive(n, s, p, pick, q); }
  }

  lemma {:induction false} RunKeepsInv(n: Naming, s: State, p: nat, ok: bool, pick: string)
    requires Inv(n, s) && Enabled(s, Run(p, ok, pick))
    ensures var s' := Apply(n, s, Run(p, ok, pick)); Inv(n, s') && Interferes(s, s')
  {
    hide LockInv, MapInv, HeapInv, PcInv, Write, NextPc;
    var pc := s.pcs[p];
    var s1, s' := Write(n, s, pc, pick), Apply(n, s, Run(p, ok, pick));
    RunKeepsLockInv(n, s, p, ok, pick);
    assert PcInv(n, s, pc);
    WriteNeedsLock(n, s, pc, pick);
    WriteKeeps(n, s, pc, pick);
    assert s'.pcs == s.pcs[p := NextPc(n, s, pc, ok, pick)];
    forall q <- s'.pcs ensures PcInv(n, s1, s'.pcs[q]) {
      RunKeepsPcs(n, s, p, ok, pick, q);
    }
    AssembleInv(n, s1, s');
  }

  /** A goroutine that starts relies on nothing and holds no lock. */
  lemma {:induction false} StartKeepsInv(n: Naming, s: State, p: nat, op: Op)
    requires Inv(n, s) && Enabled(s, Begin(p, op))
    ensures Inv(n, Goto(s, p, Start(op)))
  {
    hide MapInv, HeapInv, Start, HoldsRead, HoldsWrite;
    StartIsFree(n, s, op);
    hide PcInv;
    var s' := Goto(s, p, Start(op));
    forall q <- s'.pcs ensures PcInv(n, s, s'.pcs[q]) {
      assert s'.pcs[q] == if q == p then Start(op) else s.pcs[q];
    }
    assert !HoldsRead(s.pcs[p]) && !HoldsWrite(s.pcs[p]) by { IdleIsFree(s.pcs[p]); }
    AssembleInv(n, s, s');
  }

  lemma {:induction false} StartIsFree(n: Naming, s: State, op: Op)
    ensures PcInv(n, s, Start(op)) && !HoldsRead(Start(op)) && !HoldsWrite(Start(op))
  {
  }

  lemma {:induction false} IdleIsFree(pc: PC)
    requires pc.Idle? || pc.Returned?
    ensures !HoldsRead(pc) && !HoldsWrite(pc)
  {
  }

  lemma {:induction false} OthersKeepInv(n: Naming, s: State, a: Action)
    requires Inv(n, s) && Enabled(s, a) && !a.Run?
    ensures Inv(n, Apply(n, s, a)) && Interferes(s, Apply(n, s, a))
  {
    hide MapInv, HeapInv, LockInv, PcInv;
    if a.Begin? {
      StartKeepsInv(n, s, a.p, a.op);
    } else {
      var s' := Apply(n, s, a);
      assert LockInv(s') by { SameLocks(s, s'); }
      AssembleInv(n, s, s');
    }
  }

  lemma {:induction false} SameLocks(s: State, s': State)
    requires LockInv(s) && s'.readers == s.readers && s'.writer == s.writer && s'.pcs == s.pcs
    ensures LockInv(s')
  {
  }

  lemma {:induction false} NextKeepsInv(n: Naming, s: State, a: Action, s': State)
    requires Inv(n, s) && Next(n, s, a, s')
    ensures Inv(n, s') && Interferes(s, s')
  {
    if a.Run? { RunKeepsInv(n, s, a.p, a.ok, a.pick); } else { OthersKeepInv(n, s, a); }
  }
}
