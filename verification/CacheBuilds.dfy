/** Where the credentials of a client come from, when a build succeeds, and why a call fails. */
module CacheBuilds {
  import opened Options
  import opened ClientCache
  import opened CacheInvariant
  import opened CacheRuns
  import opened CacheTheorems

  /** The secret at `where` holds exactly these credentials. */
  predicate Holds(secrets: map<Ref, Secret>, where: Ref, clientId: string, clientSecret: string) {
    where in secrets && secrets[where] == Secret(Some(clientId), Some(clientSecret))
  }

  /** The secret that a tailnet of this namespace names; the namespace is its own unless it names one. */
  predicate NamesSecret(where: Ref, namespace: string, t: Tailnet) {
    && where.name == t.secretName
    && where.namespace == if t.secretNamespace == "" then namespace else t.secretNamespace
  }

  /** The tailnet that the client talks to. */
  predicate TalksTo(client: Client, t: Tailnet) {
    client.tailnetId == if t.tailnet == "" then "-" else t.tailnet
  }

  /** At some moment up to `i` the secret that the client's tailnet names held the client's credentials. */
  ghost predicate CredentialsFrom(r: Trace, i: nat, client: Client, where: Ref)
    requires i < |r.states|
  {
    && NamesSecret(where, client.owner.namespace, client.builtFrom)
    && exists c | 0 <= c <= i :: Holds(r.states[c].secrets, where, client.clientId, client.clientSecret)
  }

  lemma {:induction false} CredentialsAreReal(r: Trace, i: nat, client: Client) returns (where: Ref)
    requires i < |r.states| && CredentialsWere(r, i, client)
    ensures CredentialsFrom(r, i, client, where) && client.clientId != "" && client.clientSecret != ""
    ensures TalksTo(client, client.builtFrom)
  {
    var t := client.builtFrom;
    where := Ref(if t.secretNamespace == "" then client.owner.namespace else t.secretNamespace, t.secretName);
    var c :| && 0 <= c <= i && where in r.states[c].secrets
             && CreateClientFromTailnet(client.owner, t, Some(r.states[c].secrets[where])) == Some(client);
    assert Holds(r.states[c].secrets, where, client.clientId, client.clientSecret);
  }

  /**
   In every interleaving, the credentials of a client that is handed out were, both and not
   empty, those of the one secret that its tailnet names, and it talks to that tailnet.
   */
  lemma {:induction false} HandedOutHasCredentials(
    n: Naming, r: Trace, i: nat, p: nat, ref: Ref, check: Check, e: Entry) returns (where: Ref)
    requires IsRun(n, r) && i < |r.states| && HandsOut(r.states[i], p, ref, check, e)
    ensures CredentialsFrom(r, i, e.client, where) && e.client.clientId != "" && e.client.clientSecret != ""
    ensures TalksTo(e.client, e.client.builtFrom) && TailnetWas(r, i, e.client.owner, e.client.builtFrom)
  {
    hide CredentialsWere;
    HandedOutIsYoung(n, r, i, p, ref, check, e);
    where := CredentialsAreReal(r, i, e.client);
  }

  // ------------------------------------------------------------------ when a build succeeds

  /** Reading the tailnet at the start of a build, and the secret after it, can each go wrong. */
  ghost predicate TailnetMissing(s: State, ref: Ref, ok: bool) {
    !ok || ref !in s.tailnets
  }

  ghost predicate CredentialsMissing(s: State, ref: Ref, t: Tailnet, ok: bool) {
    forall where, id, password | NamesSecret(where, ref.namespace, t) && Holds(s.secrets, where, id, password) ::
      !ok || id == "" || password == ""
  }

  /** A build goes on exactly if its two reads find the tailnet and both credentials. */
  lemma {:induction false} BuildGoesOnExactly(s: State, pc: PC, ok: bool)
    requires pc.Fetch? || pc.Build?
    ensures pc.Fetch? ==>
              BuildNext(s, pc, ok) == if TailnetMissing(s, pc.ref, ok) then Leave(pc.ref, Slow, Failed)
                                      else Build(pc.ref, pc.why, s.tailnets[pc.ref])
    ensures pc.Build? ==>
              if CredentialsMissing(s, pc.ref, pc.tailnet, ok) then BuildNext(s, pc, ok) == Leave(pc.ref, Slow, Failed)
              else BuildNext(s, pc, ok).Stamp? && BuildNext(s, pc, ok).why == pc.why
  {
    if pc.Build? {
      var t := pc.tailnet;
      var where := Ref(if t.secretNamespace == "" then pc.ref.namespace else t.secretNamespace, t.secretName);
      assert NamesSecret(where, pc.ref.namespace, t);
      if where in s.secrets && s.secrets[where].clientId.Some? && s.secrets[where].clientSecret.Some? {
        assert Holds(s.secrets, where, s.secrets[where].clientId.value, s.secrets[where].clientSecret.value);
      }
    }
  }

  /** The client that a build makes. */
  lemma {:induction false} BuiltClient(s: State, pc: PC, ok: bool, where: Ref, id: string, password: string)
    requires pc.Build? && ok && NamesSecret(where, pc.ref.namespace, pc.tailnet)
    requires Holds(s.secrets, where, id, password) && id != "" && password != ""
    ensures var next := BuildNext(s, pc, ok);
            && next.Stamp? && next.ref == pc.ref && next.why == pc.why && TalksTo(next.client, pc.tailnet)
            && next.client == Client(pc.ref, pc.tailnet, next.client.tailnetId, id, password)
  {
  }

  /** The next step of `p` after step `from` is step `to`. */
  ghost predicate NextStepOf(r: Trace, p: nat, from: nat, to: nat) {
    && from < to < |r.acts| && r.acts[to].Run? && r.acts[to].p == p
    && forall k | from < k < to :: !((r.acts[k].Run? || r.acts[k].Begin?) && r.acts[k].p == p)
  }

  lemma {:induction false} WaitsAt(n: Naming, r: Trace, p: nat, from: nat, to: nat)
    requires IsRun(n, r) && from < to < |r.states| && p in r.states[from + 1].pcs
    requires forall k | from < k < to :: !((r.acts[k].Run? || r.acts[k].Begin?) && r.acts[k].p == p)
    ensures p in r.states[to].pcs && r.states[to].pcs[p] == r.states[from + 1].pcs[p]
  {
    hide Next, Inv, NextPc;
    if from + 1 < to {
      WaitsAt(n, r, p, from, to - 1);
      StepAt(n, r, to - 1);
      PcsAfter(n, r.states[to - 1], r.acts[to - 1], r.states[to]);
    }
  }

  /** Step `k` moves `p` on from its program point. */
  lemma {:induction false} MovesOn(n: Naming, r: Trace, p: nat, k: nat, pc: PC)
    requires IsRun(n, r) && k < |r.acts| && r.acts[k].Run? && r.acts[k].p == p
    requires p in r.states[k].pcs && r.states[k].pcs[p] == pc && IsBuilding(pc)
    ensures p in r.states[k + 1].pcs && r.states[k + 1].pcs[p] == BuildNext(r.states[k], pc, r.acts[k].ok)
  {
    hide Next, Inv, BuildNext, ServeNext, EvictNext;
    StepAt(n, r, k);
    PcsAfter(n, r.states[k], r.acts[k], r.states[k + 1]);
  }

  /**
   A build that reads the tailnet at `f` and finds both of its credentials at `b`, whatever
   happens in between, is stamped at `g` and about to install exactly the client of these.
   */
  lemma {:induction false} BuildReachesInstall(
    n: Naming, r: Trace, p: nat, f: nat, b: nat, g: nat, where: Ref, id: string, password: string)
    requires IsRun(n, r) && f < |r.acts| && r.acts[f].Run? && r.acts[f].p == p && r.acts[f].ok
    requires p in r.states[f].pcs && r.states[f].pcs[p].Fetch? && r.states[f].pcs[p].ref in r.states[f].tailnets
    requires NextStepOf(r, p, f, b) && NextStepOf(r, p, b, g) && r.acts[b].ok
    requires var ref := r.states[f].pcs[p].ref; NamesSecret(where, ref.namespace, r.states[f].tailnets[ref])
    requires Holds(r.states[b].secrets, where, id, password) && id != "" && password != ""
    ensures p in r.states[g + 1].pcs && r.states[g + 1].pcs[p].Install?
    ensures var ref, pc := r.states[f].pcs[p].ref, r.states[g + 1].pcs[p];
            && pc.ref == ref && pc.createdAt == r.states[g].now && TalksTo(pc.client, r.states[f].tailnets[ref])
            && pc.client == Client(ref, r.states[f].tailnets[ref], pc.client.tailnetId, id, password)
  {
    hide Next, NamesSecret, Holds, TalksTo;
    var pc := r.states[f].pcs[p];
    MovesOn(n, r, p, f, pc);
    WaitsAt(n, r, p, f, b);
    MovesOn(n, r, p, b, r.states[f + 1].pcs[p]);
    BuiltClient(r.states[b], r.states[f + 1].pcs[p], true, where, id, password);
    WaitsAt(n, r, p, b, g);
    MovesOn(n, r, p, g, r.states[b + 1].pcs[p]);
  }

  // ------------------------------------------------------------------ why a call fails

  /** Step `c` is a read that the goroutine `p` makes for `ref` and that finds nothing usable. */
  ghost predicate ReadFails(r: Trace, c: nat, p: nat, ref: Ref)
    requires |r.states| == |r.acts| + 1 && c < |r.acts|
  {
    var s, a := r.states[c], r.acts[c];
    && a.Run? && a.p == p && p in s.pcs
    && (|| (s.pcs[p].Fetch? && s.pcs[p].ref == ref && TailnetMissing(s, ref, a.ok))
        || (s.pcs[p].Build? && s.pcs[p].ref == ref && CredentialsMissing(s, ref, s.pcs[p].tailnet, a.ok)))
  }

  predicate IsFailed(pc: PC) {
    (pc.Leave? || pc.Returned?) && pc.outcome.Failed?
  }

  /** A call that was not failed yet fails only in a read that finds nothing usable. */
  lemma {:induction false} FailsOnlyInReads(n: Naming, s: State, pc: PC, ok: bool, pick: string)
    requires InHeap(s, pc) && IsFailed(NextPc(n, s, pc, ok, pick))
    ensures var pc' := NextPc(n, s, pc, ok, pick);
            || (pc.Leave? && IsFailed(pc) && pc.ref == pc'.ref)
            || (pc.Fetch? && pc.ref == pc'.ref && TailnetMissing(s, pc.ref, ok))
            || (pc.Build? && pc.ref == pc'.ref && CredentialsMissing(s, pc.ref, pc.tailnet, ok))
  {
    hide TailnetMissing, CredentialsMissing;
    if pc.Fetch? || pc.Build? { BuildGoesOnExactly(s, pc, ok); }
  }

  lemma {:induction false} StartIsNotFailed(op: Op)
    ensures !IsFailed(Start(op))
  {
  }

  /** In every interleaving a call fails only because a read of its own did, or found no credentials. */
  lemma {:induction false} FailureHasCause(n: Naming, r: Trace, i: nat, p: nat) returns (c: nat)
    requires IsRun(n, r) && i < |r.states| && p in r.states[i].pcs && IsFailed(r.states[i].pcs[p])
    ensures c < i && ReadFails(r, c, p, r.states[i].pcs[p].ref)
  {
    hide Next, PcInv, Inv, NextPc, TailnetMissing, CredentialsMissing, Interferes;
    assert i > 0;
    var s, a, s' := r.states[i - 1], r.acts[i - 1], r.states[i];
    StepAt(n, r, i - 1);
    PcsAfter(n, s, a, s');
    if a.Begin? && a.p == p { StartIsNotFailed(a.op); }
    if a.Run? && a.p == p {
      FailsOnlyInReads(n, s, s.pcs[p], a.ok, a.pick);
      if s.pcs[p].Leave? { c := FailureHasCause(n, r, i - 1, p); } else { c := i - 1; }
    } else {
      c := FailureHasCause(n, r, i - 1, p);
    }
  }
}
