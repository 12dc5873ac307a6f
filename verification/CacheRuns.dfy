/** Whole runs of the client cache: what an outcome says about the past of the run it occurs in. */
module CacheRuns {
  import opened Options
  import opened ClientCache
  import opened CacheInvariant

  datatype Trace = Trace(states: seq<State>, acts: seq<Action>)

  ghost predicate IsRun(n: Naming, r: Trace) {
    && |r.states| == |r.acts| + 1
    && Init(r.states[0])
    && forall i {:trigger r.acts[i]} | 0 <= i < |r.acts| :: Next(n, r.states[i], r.acts[i], r.states[i + 1])
  }

  lemma {:induction false} InitHasInv(n: Naming, s: State)
    requires Init(s)
    ensures Inv(n, s)
  {
  }

  lemma {:induction false} InvAlways(n: Naming, r: Trace, i: nat)
    requires IsRun(n, r) && i < |r.states|
    ensures Inv(n, r.states[i])
  {
    hide Inv, Init, Next;
    if i == 0 {
      InitHasInv(n, r.states[0]);
    } else {
      InvAlways(n, r, i - 1);
      NextKeepsInv(n, r.states[i - 1], r.acts[i - 1], r.states[i]);
    }
  }

  /** One step of a run, with the invariant on both sides. */
  lemma {:induction false} StepAt(n: Naming, r: Trace, i: nat)
    requires IsRun(n, r) && i < |r.acts|
    ensures Inv(n, r.states[i]) && Inv(n, r.states[i + 1])
    ensures Next(n, r.states[i], r.acts[i], r.states[i + 1]) && Interferes(r.states[i], r.states[i + 1])
  {
    hide Inv, Init, Next;
    InvAlways(n, r, i);
    NextKeepsInv(n, r.states[i], r.acts[i], r.states[i + 1]);
  }

  lemma {:induction false} InterferesTransitive(s0: State, s1: State, s2: State)
    requires Interferes(s0, s1) && Interferes(s1, s2)
    ensures Interferes(s0, s2)
  {
    forall i | 0 <= i < |s0.heap|
      ensures s0.heap[i].lastUsed <= s2.heap[i].lastUsed && s2.heap[i] == s0.heap[i].(lastUsed := s2.heap[i].lastUsed)
    {
      assert s1.heap[i] == s0.heap[i].(lastUsed := s1.heap[i].lastUsed);
      assert s2.heap[i] == s1.heap[i].(lastUsed := s2.heap[i].lastUsed);
    }
  }

  lemma {:induction false} InterferesAlong(n: Naming, r: Trace, i: nat, j: nat)
    requires IsRun(n, r) && i <= j < |r.states|
    ensures Interferes(r.states[i], r.states[j])
    decreases j
  {
    hide Inv, Init, Next;
    if i < j {
      InterferesAlong(n, r, i, j - 1);
      StepAt(n, r, j - 1);
      InterferesTransitive(r.states[i], r.states[j - 1], r.states[j]);
    }
  }

  // ------------------------------------------------------------------ what was seen, and when

  /** At some moment up to `i` the clock showed `at`. */
  ghost predicate ClockShowed(r: Trace, i: nat, at: nat)
    requires i < |r.states|
  {
    exists c | 0 <= c <= i :: r.states[c].now == at
  }

  /** At some moment up to `i` the API server stored `t` under `ref`. */
  ghost predicate TailnetWas(r: Trace, i: nat, ref: Ref, t: Tailnet)
    requires i < |r.states|
  {
    exists c | 0 <= c <= i :: ref in r.states[c].tailnets && r.states[c].tailnets[ref] == t
  }

  /** At some moment up to `i` the secret named by the client's tailnet held the client's credentials. */
  ghost predicate CredentialsWere(r: Trace, i: nat, client: Client)
    requires i < |r.states|
  {
    var where := SecretRef(client.owner, client.builtFrom);
    exists c | 0 <= c <= i ::
      && where in r.states[c].secrets
      && CreateClientFromTailnet(client.owner, client.builtFrom, Some(r.states[c].secrets[where])) == Some(client)
  }

  ghost predicate CheckSeen(r: Trace, i: nat, ref: Ref, check: Check)
    requires i < |r.states|
  {
    ClockShowed(r, i, check.at) && (check.read.Some? ==> TailnetWas(r, i, ref, check.read.value))
  }

  /** At some moment up to `i` the entry was in the map and its age or fingerprint called for a new client. */
  ghost predicate ReasonSeen(n: Naming, r: Trace, i: nat, ref: Ref, why: Reason)
    requires i < |r.states|
  {
    match why
    case Absent => true
    case Aged(id, at) => exists c | 0 <= c <= i :: Current(n, r.states[c], ref, id) && r.states[c].now == at
    case Changed(id, read) =>
      exists c | 0 <= c <= i ::
        && Current(n, r.states[c], ref, id)
        && ref in r.states[c].tailnets && r.states[c].tailnets[ref] == read
  }

  ghost predicate ClientSeen(r: Trace, i: nat, client: Client)
    requires i < |r.states|
  {
    TailnetWas(r, i, client.owner, client.builtFrom) && CredentialsWere(r, i, client)
  }

  ghost predicate OutcomeSeen(r: Trace, i: nat, ref: Ref, outcome: Outcome)
    requires i < |r.states|
  {
    outcome.Handed? ==> CheckSeen(r, i, ref, outcome.check)
  }

  ghost predicate PcSeen(n: Naming, r: Trace, i: nat, pc: PC)
    requires i < |r.states|
  {
    match pc
    case CheckHash(ref, _, _, at) => ClockShowed(r, i, at)
    case Touch(ref, _, _, check) => CheckSeen(r, i, ref, check)
    case Fetch(ref, why) => ReasonSeen(n, r, i, ref, why)
    case Build(ref, why, tailnet) => ReasonSeen(n, r, i, ref, why) && TailnetWas(r, i, ref, tailnet)
    case Stamp(ref, why, client) => ReasonSeen(n, r, i, ref, why) && ClientSeen(r, i, client)
    case Install(ref, why, client, createdAt) =>
      ReasonSeen(n, r, i, ref, why) && ClientSeen(r, i, client) && ClockShowed(r, i, createdAt)
    case Leave(ref, _, outcome) => OutcomeSeen(r, i, ref, outcome)
    case Returned(ref, outcome) => OutcomeSeen(r, i, ref, outcome)
    case _ => true
  }

  ghost predicate EntrySeen(r: Trace, i: nat, e: Entry)
    requires i < |r.states|
  {
    ClientSeen(r, i, e.client) && ClockShowed(r, i, e.createdAt)
  }

  /** What has been seen stays seen. */
  lemma {:induction false} PcSeenLater(n: Naming, r: Trace, i: nat, pc: PC)
    requires i + 1 < |r.states| && PcSeen(n, r, i, pc)
    ensures PcSeen(n, r, i + 1, pc)
  {
  }

  lemma {:induction false} ServeSees(n: Naming, r: Trace, i: nat, pc: PC, ok: bool)
    requires i < |r.states| && InHeap(r.states[i], pc) && IsServing(pc)
    requires PcInv(n, r.states[i], pc) && PcSeen(n, r, i, pc)
    ensures PcSeen(n, r, i, ServeNext(n, r.states[i], pc, ok))
  {
    assert ClockShowed(r, i, r.states[i].now);
  }

  lemma {:induction false} BuildSees(n: Naming, r: Trace, i: nat, pc: PC, ok: bool)
    requires i < |r.states| && IsBuilding(pc)
    requires PcInv(n, r.states[i], pc) && PcSeen(n, r, i, pc)
    ensures PcSeen(n, r, i, BuildNext(r.states[i], pc, ok))
  {
    assert ClockShowed(r, i, r.states[i].now);
  }

  /** Where the goroutine `q` is after the action `a`. */
  function PcAfter(n: Naming, s: State, a: Action, q: nat): PC
    requires q in s.pcs && Enabled(s, a)
  {
    if a.Run? && a.p == q then NextPc(n, s, s.pcs[q], a.ok, a.pick)
    else if a.Begin? && a.p == q then Start(a.op)
    else s.pcs[q]
  }

  lemma {:induction false} PcsAfter(n: Naming, s: State, a: Action, s': State)
    requires Next(n, s, a, s')
    ensures Enabled(s, a) && s'.pcs.Keys == s.pcs.Keys
    ensures forall q <- s.pcs :: s'.pcs[q] == PcAfter(n, s, a, q)
  {
    hide NextPc, Write, MoveLock;
  }

  /** Entries are made by goroutines that were about to install the client they had built. */
  lemma {:induction false} EntryAfter(n: Naming, s: State, a: Action, s': State, id: nat)
    requires Next(n, s, a, s') && |s.heap| <= id < |s'.heap|
    ensures a.Run? && a.p in s.pcs && s.pcs[a.p].Install? && id == |s.heap|
    ensures var pc := s.pcs[a.p];
            s'.heap[id] == Entry(pc.client, pc.createdAt, s.now, n.fingerprint(pc.client.builtFrom), n.key(pc.ref))
  {
    hide NextPc, MoveLock;
  }

  lemma {:induction false} PcAfterSees(n: Naming, r: Trace, i: nat, a: Action, q: nat)
    requires i + 1 < |r.states| && q in r.states[i].pcs && Enabled(r.states[i], a)
    requires PcInv(n, r.states[i], r.states[i].pcs[q]) && PcSeen(n, r, i, r.states[i].pcs[q])
    ensures PcSeen(n, r, i + 1, PcAfter(n, r.states[i], a, q))
  {
    var pc := r.states[i].pcs[q];
    if a.Run? && a.p == q {
      if IsServing(pc) { ServeSees(n, r, i, pc, a.ok); } else if IsBuilding(pc) { BuildSees(n, r, i, pc, a.ok); }
    }
    PcSeenLater(n, r, i, PcAfter(n, r.states[i], a, q));
  }

  lemma {:induction false} PcSeenAlways(n: Naming, r: Trace, i: nat, q: nat)
    requires IsRun(n, r) && i < |r.states| && q in r.states[i].pcs
    ensures PcSeen(n, r, i, r.states[i].pcs[q])
  {
    hide PcSeen, Next, PcAfter, PcInv, Interferes, Enabled;
    if i == 0 {
      IdleSees(n, r);
    } else {
      StepAt(n, r, i - 1);
      PcsAfter(n, r.states[i - 1], r.acts[i - 1], r.states[i]);
      PcSeenAlways(n, r, i - 1, q);
      PcAfterSees(n, r, i - 1, r.acts[i - 1], q);
    }
  }

  lemma {:induction false} IdleSees(n: Naming, r: Trace)
    requires |r.states| > 0
    ensures PcSeen(n, r, 0, Idle)
  {
  }

  lemma {:induction false} EntrySeenLater(r: Trace, i: nat, e: Entry, e': Entry)
    requires i + 1 < |r.states| && EntrySeen(r, i, e)
    requires e' == e.(lastUsed := e'.lastUsed)
    ensures EntrySeen(r, i + 1, e')
  {
  }

  /** Every cached entry was built from a tailnet and a secret that the API server stored. */
  lemma {:induction false} EntrySeenAlways(n: Naming, r: Trace, i: nat, id: nat)
    requires IsRun(n, r) && i < |r.states| && id < |r.states[i].heap|
    ensures EntrySeen(r, i, r.states[i].heap[id])
  {
    hide Next, EntrySeen, PcInv, Enabled, Inv;
    if i > 0 {
      var s, a, s' := r.states[i - 1], r.acts[i - 1], r.states[i];
      StepAt(n, r, i - 1);
      if id < |s.heap| {
        EntrySeenAlways(n, r, i - 1, id);
        EntrySeenLater(r, i - 1, s.heap[id], s'.heap[id]);
      } else {
        EntryAfter(n, s, a, s', id);
        PcSeenAlways(n, r, i - 1, a.p);
        InstallSees(n, r, i - 1, s.pcs[a.p], s'.heap[id]);
      }
    }
  }

  lemma {:induction false} InstallSees(n: Naming, r: Trace, i: nat, pc: PC, e: Entry)
    requires i + 1 < |r.states| && pc.Install? && PcSeen(n, r, i, pc)
    requires e.client == pc.client && e.createdAt == pc.createdAt
    ensures EntrySeen(r, i + 1, e)
  {
  }
}
