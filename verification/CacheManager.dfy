/**
 The manager itself: its map of entry pointers and the writes its methods make under the
 lock, each with the effect that the step system gives the same section.
 */
module CacheManager {
  import opened Options
  import opened ClientCache
  import opened CacheInvariant
  import opened CacheBuilds

  /** The cache as values: what each key leads to, whichever object holds it. */
  type View = map<string, Entry>

  function Stamped(view: View, key: string, now: nat): View {
    if key in view then view[key := view[key].(lastUsed := now)] else view
  }

  function WithoutIdle(view: View, cutoff: int): View {
    map k | k in view && view[k].lastUsed >= cutoff :: view[k]
  }

  /** shouldRefreshClient, for the clock and the tailnet it read. */
  predicate ShouldRefresh(n: Naming, e: Entry, now: nat, read: Option<Tailnet>) {
    || now - e.createdAt > MAX_AGE
    || (read.Some? && n.fingerprint(read.value) != e.secretHash)
  }

  /** What one pass through shouldRefreshClient sees: the clock, the tailnet read, and the clock at the stamp. */
  datatype Look = Look(at: nat, read: Option<Tailnet>, stampAt: nat)

  /** What building a client sees: the tailnet and the secret read, and the clock at either stamp. */
  datatype Make = Make(tailnet: Option<Tailnet>, secret: Option<Secret>, createdAt: nat, usedAt: nat)

  predicate Serves(n: Naming, view: View, key: string, look: Look) {
    key in view && !ShouldRefresh(n, view[key], look.at, look.read)
  }

  function NewEntry(n: Naming, ref: Ref, make: Make): Option<Entry> {
    if make.tailnet.None? then None
    else
      var client := CreateClientFromTailnet(ref, make.tailnet.value, make.secret);
      if client.None? then None
      else Some(Entry(client.value, make.createdAt, make.usedAt, n.fingerprint(make.tailnet.value), n.key(ref)))
  }

  class CacheEntry {
    const client: Client
    const createdAt: nat
    var lastUsed: nat
    const secretHash: string
    const tailnetKey: string

    constructor (e: Entry)
      ensures Value() == e
    {
      client, createdAt, lastUsed := e.client, e.createdAt, e.lastUsed;
      secretHash, tailnetKey := e.secretHash, e.tailnetKey;
    }

    function Value(): Entry
      reads this
    {
      Entry(client, createdAt, lastUsed, secretHash, tailnetKey)
    }
  }

  class MultiTailnetManager {
    const n: Naming
    var clients: map<string, CacheEntry>

    /** An entry sits under its own key, so no two keys share one. */
    ghost predicate Valid()
      reads this
    {
      forall k <- clients :: clients[k].tailnetKey == k
    }

    ghost function Entries(): set<CacheEntry>
      reads this
    {
      set k <- clients :: clients[k]
    }

    ghost function Contents(): View
      reads this, Entries()
    {
      map k <- clients :: clients[k].Value()
    }

    constructor (n: Naming)
      ensures Valid() && Contents() == map[] && this.n == n
    {
      this.n := n;
      clients := map[];
    }

    /** Looks the key up and, if the entry is at most an hour old and unchanged, stamps and serves it. */
    method TryServe(key: string, look: Look) returns (client: Option<Client>)
      requires Valid()
      modifies Entries()
      ensures Valid() && clients == old(clients)
      ensures client.Some? <==> Serves(n, old(Contents()), key, look)
      ensures client.Some? <==>
                && key in old(Contents()) && look.at <= old(Contents())[key].createdAt + 3_600_000_000_000
                && (look.read.Some? ==> n.fingerprint(look.read.value) == old(Contents())[key].secretHash)
      ensures client.Some? ==> client.value == old(Contents())[key].client
      ensures Contents() == if client.Some? then Stamped(old(Contents()), key, look.stampAt) else old(Contents())
    {
      client := None;
      if key in clients {
        var entry := clients[key];
        if !ShouldRefresh(n, entry.Value(), look.at, look.read) {
          entry.lastUsed := look.stampAt;
          client := Some(entry.client);
        }
      }
    }

    method CreateAndCacheClient(ref: Ref, key: string, look: Look, make: Make) returns (client: Option<Client>)
      requires Valid() && key == n.key(ref)
      modifies this, Entries()
      ensures Valid()
      ensures var before, entry := old(Contents()), NewEntry(n, ref, make);
              if Serves(n, before, key, look) then
                Contents() == Stamped(before, key, look.stampAt) && client == Some(before[key].client)
              else if entry.Some? then
                Contents() == before[key := entry.value] && client == Some(entry.value.client)
              else Contents() == before && client == None
    {
      client := TryServe(key, look);
      if client.None? {
        var made := NewEntry(n, ref, make);
        if made.Some? {
          ghost var before := Contents();
          var entry := new CacheEntry(made.value);
          clients := clients[key := entry];
          client := Some(entry.client);
          assert Contents() == before[key := made.value];
        }
      }
    }

    /** However the reads turn out, a client that is returned is the one now cached under its key. */
    method GetClient(ref: Ref, fast: Look, slow: Look, make: Make) returns (client: Option<Client>)
      requires Valid()
      modifies this, Entries()
      ensures Valid()
      ensures client.Some? ==>
                n.key(ref) in Contents() && Contents()[n.key(ref)].client == client.value
      ensures client.None? ==> !Serves(n, old(Contents()), n.key(ref), fast) && NewEntry(n, ref, make).None?
      ensures var before := old(Contents());
              if Serves(n, before, n.key(ref), fast) then Contents() == Stamped(before, n.key(ref), fast.stampAt)
              else if Serves(n, before, n.key(ref), slow) then Contents() == Stamped(before, n.key(ref), slow.stampAt)
              else if NewEntry(n, ref, make).Some? then Contents() == before[n.key(ref) := NewEntry(n, ref, make).value]
              else Contents() == before && client == None
    {
      var key := n.key(ref);
      client := TryServe(key, fast);
      if client.None? {
        client := CreateAndCacheClient(ref, key, slow, make);
      }
    }

    /** Keeps what was used within the last thirty minutes. */
    method PerformCleanup(now: nat)
      requires Valid()
      modifies this
      ensures Valid()
      ensures Contents() == WithoutIdle(old(Contents()), now - IDLE_LIMIT)
      ensures forall k :: k in clients <==>
                k in old(clients) && old(Contents())[k].lastUsed + 1_800_000_000_000 >= now
      ensures forall k <- clients :: clients[k] == old(clients)[k]
    {
      var cutoff := now - IDLE_LIMIT;
      var todo := clients.Keys;
      while todo != {}
        invariant todo <= old(clients).Keys
        invariant clients == map k | k in old(clients) &&
          (k in todo || old(clients)[k].lastUsed >= cutoff) :: old(clients)[k]
        decreases todo
      {
        var key :| key in todo;
        if clients[key].lastUsed < cutoff {
          clients := clients - {key};
        }
        todo := todo - {key};
      }
    }

    method RemoveClient(ref: Ref)
      requires Valid()
      modifies this
      ensures Valid() && Contents() == old(Contents()) - {n.key(ref)}
    {
      clients := clients - {n.key(ref)};
    }

    method Cleanup()
      modifies this
      ensures Valid() && Contents() == map[]
    {
      clients := map[];
    }

    method ListClients() returns (keys: set<string>)
      requires Valid()
      ensures keys == Contents().Keys
    {
      keys := clients.Keys;
    }
  }

  // ------------------------------------------------------------------ the same writes, as steps

  ghost function ViewOf(s: State): View
    requires MapInv(s)
  {
    map k <- s.clients :: s.heap[s.clients[k]]
  }

  lemma {:induction false} TouchStampsView(n: Naming, s: State, pc: PC)
    requires MapInv(s) && pc.Touch? && Current(n, s, pc.ref, pc.id)
    requires InHeap(s, pc) && MapInv(Write(n, s, pc, ""))
    ensures ViewOf(Write(n, s, pc, "")) == Stamped(ViewOf(s), n.key(pc.ref), s.now)
  {
    var k := n.key(pc.ref);
    assert forall j <- s.clients :: j != k ==> s.clients[j] != pc.id;
  }

  lemma {:induction false} InstallExtendsView(n: Naming, s: State, pc: PC)
    requires MapInv(s) && pc.Install? && MapInv(Write(n, s, pc, ""))
    ensures var key := n.key(pc.ref);
            var entry := Entry(pc.client, pc.createdAt, s.now, n.fingerprint(pc.client.builtFrom), key);
            ViewOf(Write(n, s, pc, "")) == ViewOf(s)[key := entry]
  {
  }

  /**
   Each write of the step system changes the view as the method that contains it does, and
   nothing else changes it; a sweep, which takes many steps, is `SweepLeavesWithoutIdle`.
   */
  lemma {:induction false} StepChangesView(n: Naming, s: State, pc: PC, pick: string)
    requires MapInv(s) && PcInv(n, s, pc) && InHeap(s, pc) && Picks(pc, pick) && !pc.Sweep?
    requires MapInv(Write(n, s, pc, pick))
    ensures var view, view' := ViewOf(s), ViewOf(Write(n, s, pc, pick));
            if pc.Touch? then view' == Stamped(view, n.key(pc.ref), s.now)
            else if pc.Install? then
              view' == view[n.key(pc.ref) := Entry(pc.client, pc.createdAt, s.now,
                                                   n.fingerprint(pc.client.builtFrom), n.key(pc.ref))]
            else if pc.Remove? then view' == view - {n.key(pc.ref)}
            else if pc.Clear? then view' == map[]
            else view' == view
  {
    if pc.Touch? {
      TouchStampsView(n, s, pc);
    } else if pc.Install? {
      InstallExtendsView(n, s, pc);
    }
  }

  /** A pass that has visited every key leaves exactly what PerformCleanup leaves of the view it began with. */
  lemma {:induction false} SweepLeavesWithoutIdle(n: Naming, s: State, pc: PC)
    requires MapInv(s) && PcInv(n, s, pc) && pc.Sweep? && pc.todo == {}
    ensures ViewOf(s) == WithoutIdle(map k <- pc.before :: s.heap[pc.before[k]], pc.cutoff)
  {
  }

  /** The manager serves an entry exactly if the steps that look it up and check it, undisturbed, end in its stamp. */
  lemma {:induction false} ServesAsSteps(n: Naming, s: State, ref: Ref, mode: Mode, ok: bool, stampAt: nat)
    requires MapInv(s)
    ensures var found := ServeNext(n, s, Lookup(ref, mode), ok);
            Serves(n, ViewOf(s), n.key(ref), Look(s.now, Read(s.tailnets, ref, ok), stampAt)) <==>
              && found.CheckAge?
              && var young := ServeNext(n, s, found, ok);
                 young.CheckHash? && ServeNext(n, s, young, ok).Touch?
  {
  }

  /** It makes the entry that the building steps make of the same tailnet and the secret which that names. */
  lemma {:induction false} NewEntryAsSteps(
    n: Naming, s: State, ref: Ref, why: Reason, ok: bool, where: Ref, createdAt: nat, usedAt: nat)
    requires ref in s.tailnets && NamesSecret(where, ref.namespace, s.tailnets[ref])
    ensures var t := s.tailnets[ref];
            var entry := NewEntry(n, ref, Make(Some(t), Read(s.secrets, where, ok), createdAt, usedAt));
            if CredentialsMissing(s, ref, t, ok) then entry == None
            else
              && BuildNext(s, Build(ref, why, t), ok).Stamp?
              && entry == Some(Entry(BuildNext(s, Build(ref, why, t), ok).client, createdAt, usedAt,
                                     n.fingerprint(t), n.key(ref)))
  {
    BuildGoesOnExactly(s, Build(ref, why, s.tailnets[ref]), ok);
    hide CredentialsMissing;
    assert where == SecretRef(ref, s.tailnets[ref]);
  }
}
