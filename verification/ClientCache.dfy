/**
 The multi-tailnet client cache as a step system: any number of goroutines, one
 readers-writer lock, a clock, and the tailnets and secrets of the API server,
 which change on their own.  A goroutine makes one step between two points at
 which another goroutine, the clock or the API server may run.
 */
module ClientCache {
  import opened Options

  // time.Duration counts nanoseconds.
  const MINUTE: nat := 60_000_000_000
  const MAX_AGE: nat := 60 * MINUTE
  const IDLE_LIMIT: nat := 30 * MINUTE
  const DEFAULT_TAILNET := "-"

  datatype Ref = Ref(namespace: string, name: string)

  datatype Tailnet = Tailnet(secretName: string, secretNamespace: string, tailnet: string, resourceVersion: string)

  datatype Secret = Secret(clientId: Option<string>, clientSecret: Option<string>)

  // A client remembers what it was built from; the program only keeps the credentials.
  datatype Client = Client(owner: Ref, builtFrom: Tailnet, tailnetId: string, clientId: string, clientSecret: string)

  datatype Entry = Entry(client: Client, createdAt: nat, lastUsed: nat, secretHash: string, tailnetKey: string)

  function CacheKey(ref: Ref): string {
    ref.namespace + "/" + ref.name
  }

  function FingerprintText(t: Tailnet): string {
    t.secretName + ":" + t.secretNamespace + ":" + t.tailnet + ":" + t.resourceVersion
  }

  /** The digest that computeSecretHash applies to the fingerprint text. */
  type Digest = string -> string

  /** How the cache names a tailnet and fingerprints it; the steps depend on nothing else about text. */
  datatype Naming = Naming(key: Ref -> string, fingerprint: Tailnet -> string)

  function SourceNaming(digest: Digest): Naming {
    Naming(CacheKey, t => digest(FingerprintText(t)))
  }

  function SecretRef(ref: Ref, t: Tailnet): Ref {
    Ref(if t.secretNamespace != "" then t.secretNamespace else ref.namespace, t.secretName)
  }

  /** Both credential keys must be present and neither may be empty. */
  function CreateClientFromTailnet(ref: Ref, t: Tailnet, secret: Option<Secret>): Option<Client> {
    match secret
    case Some(Secret(Some(id), Some(password))) =>
      if id == "" || password == "" then None
      else Some(Client(ref, t, if t.tailnet == "" then DEFAULT_TAILNET else t.tailnet, id, password))
    case _ => None
  }

  // ------------------------------------------------------------------ program counters

  /** Whether shouldRefreshClient runs under the read lock or, as the double check, under the write lock. */
  datatype Mode = Fast | Slow

  /** What the age and fingerprint check saw; a failed read keeps the client. */
  datatype Check = Check(at: nat, read: Option<Tailnet>)

  datatype Reason = Absent | Aged(id: nat, at: nat) | Changed(id: nat, read: Tailnet)

  datatype Outcome = Failed | Handed(id: nat, check: Check)

  datatype Op = GetClient(ref: Ref) | RemoveClient(ref: Ref) | PerformCleanup | Cleanup

  datatype PC =
    | Idle
    // GetClient; Fast states and Refresh hold the read lock, Slow states up to Install the write lock
    | WantRead(ref: Ref)
    | Lookup(ref: Ref, mode: Mode)
    | CheckAge(ref: Ref, mode: Mode, id: nat)
    | CheckHash(ref: Ref, mode: Mode, id: nat, at: nat)
    | Touch(ref: Ref, mode: Mode, id: nat, check: Check)
    | Refresh(ref: Ref)
    | WantWrite(ref: Ref)
    | Fetch(ref: Ref, why: Reason)
    | Build(ref: Ref, why: Reason, tailnet: Tailnet)
    | Stamp(ref: Ref, why: Reason, client: Client)
    | Install(ref: Ref, why: Reason, client: Client, createdAt: nat)
    | Leave(ref: Ref, mode: Mode, outcome: Outcome)
    | Returned(ref: Ref, outcome: Outcome)
    // RemoveClient
    | WantRemove(ref: Ref)
    | Remove(ref: Ref)
    // performCleanup; Sweep remembers the map at its start
    | WantSweep
    | SweepStart
    | Sweep(cutoff: int, before: map<string, nat>, todo: set<string>)
    // Cleanup
    | WantClear
    | Clear
    | LeaveWrite

  predicate HoldsRead(pc: PC) {
    || pc.Refresh?
    || ((pc.Lookup? || pc.CheckAge? || pc.CheckHash? || pc.Touch? || pc.Leave?) && pc.mode == Fast)
  }

  predicate HoldsWrite(pc: PC) {
    || pc.Fetch? || pc.Build? || pc.Stamp? || pc.Install?
    || pc.Remove? || pc.SweepStart? || pc.Sweep? || pc.Clear? || pc.LeaveWrite?
    || ((pc.Lookup? || pc.CheckAge? || pc.CheckHash? || pc.Touch? || pc.Leave?) && pc.mode == Slow)
  }

  // ------------------------------------------------------------------ states and steps

  /** Entries live in `heap` and are never freed; the map holds indices, as the program holds pointers. */
  datatype State = State(
    clients: map<string, nat>,
    heap: seq<Entry>,
    readers: set<nat>,
    writer: Option<nat>,
    pcs: map<nat, PC>,
    now: nat,
    tailnets: map<Ref, Tailnet>,
    secrets: map<Ref, Secret>)

  /** `ok` says whether the API call of this step, if it makes one, succeeds; `pick` is the key a sweep visits next. */
  datatype Action =
    | Tick(elapsed: nat)
    | EditTailnet(ref: Ref, tailnet: Option<Tailnet>)
    | EditSecret(ref: Ref, secret: Option<Secret>)
    | Begin(p: nat, op: Op)
    | Run(p: nat, ok: bool, pick: string)

  function Store<T>(m: map<Ref, T>, ref: Ref, value: Option<T>): map<Ref, T> {
    if value.Some? then m[ref := value.value] else m - {ref}
  }

  /** A read that fails and a read of a missing object both return an error. */
  function Read<T>(m: map<Ref, T>, ref: Ref, ok: bool): Option<T> {
    if ok && ref in m then Some(m[ref]) else None
  }

  function Goto(s: State, p: nat, pc: PC): State {
    s.(pcs := s.pcs[p := pc])
  }

  function Start(op: Op): PC {
    match op
    case GetClient(ref) => WantRead(ref)
    case RemoveClient(ref) => WantRemove(ref)
    case PerformCleanup => WantSweep
    case Cleanup => WantClear
  }

  /** A goroutine at this point waits for the read lock, or for the write lock. */
  predicate WantsRead(pc: PC) {
    pc.WantRead?
  }

  predicate WantsWrite(pc: PC) {
    pc.WantWrite? || pc.WantRemove? || pc.WantSweep? || pc.WantClear?
  }

  predicate Releases(pc: PC) {
    pc.Refresh? || pc.Leave? || pc.LeaveWrite?
  }

  predicate InHeap(s: State, pc: PC) {
    match pc
    case CheckAge(_, _, id) => id < |s.heap|
    case CheckHash(_, _, id, _) => id < |s.heap|
    case Touch(_, _, id, _) => id < |s.heap|
    case Sweep(_, before, todo) => forall k <- before :: before[k] < |s.heap|
    case _ => true
  }

  /** A sweep visits one key it has not yet visited at a time, in any order. */
  predicate Picks(pc: PC, pick: string) {
    pc.Sweep? && pc.todo != {} ==> pick in pc.todo && pick in pc.before
  }

  predicate CanRun(s: State, pc: PC, pick: string) {
    && !pc.Idle? && !pc.Returned?
    && (WantsRead(pc) ==> s.writer.None?)
    && (WantsWrite(pc) ==> s.writer.None? && s.readers == {})
    && InHeap(s, pc) && Picks(pc, pick)
  }

  predicate Enabled(s: State, a: Action) {
    match a
    case Begin(p, _) => p in s.pcs && (s.pcs[p].Idle? || s.pcs[p].Returned?)
    case Run(p, _, pick) => p in s.pcs && CanRun(s, s.pcs[p], pick)
    case _ => true
  }

  /** Where GetClient goes once it knows, under this mode's lock, that it needs a new client. */
  function NeedsClient(ref: Ref, mode: Mode, why: Reason): PC {
    if mode == Fast then Refresh(ref) else Fetch(ref, why)
  }

  /** Looking up and serving a cached entry, in GetClient and again in createAndCacheClient's double check. */
  function ServeNext(n: Naming, s: State, pc: PC, ok: bool): PC
    requires InHeap(s, pc)
  {
    match pc
    case Lookup(ref, mode) =>
      if n.key(ref) in s.clients then CheckAge(ref, mode, s.clients[n.key(ref)]) else NeedsClient(ref, mode, Absent)
    case CheckAge(ref, mode, id) =>
      if s.now - s.heap[id].createdAt > MAX_AGE then NeedsClient(ref, mode, Aged(id, s.now))
      else CheckHash(ref, mode, id, s.now)
    case CheckHash(ref, mode, id, at) =>
      var read := Read(s.tailnets, ref, ok);
      if read.Some? && n.fingerprint(read.value) != s.heap[id].secretHash
      then NeedsClient(ref, mode, Changed(id, read.value))
      else Touch(ref, mode, id, Check(at, read))
    case Touch(ref, mode, id, check) => Leave(ref, mode, Handed(id, check))
    case _ => pc
  }

  /** Building and caching a new client, under the write lock. */
  function BuildNext(s: State, pc: PC, ok: bool): PC {
    match pc
    case Fetch(ref, why) =>
      var read := Read(s.tailnets, ref, ok);
      if read.Some? then Build(ref, why, read.value) else Leave(ref, Slow, Failed)
    case Build(ref, why, tailnet) =>
      var client := CreateClientFromTailnet(ref, tailnet, Read(s.secrets, SecretRef(ref, tailnet), ok));
      if client.Some? then Stamp(ref, why, client.value) else Leave(ref, Slow, Failed)
    case Stamp(ref, why, client) => Install(ref, why, client, s.now)
    case Install(ref, why, client, createdAt) =>
      Leave(ref, Slow, Handed(|s.heap|, Check(createdAt, Some(client.builtFrom))))
    case _ => pc
  }

  /** RemoveClient, performCleanup and Cleanup. */
  function EvictNext(s: State, pc: PC, pick: string): PC {
    match pc
    case SweepStart => Sweep(s.now - IDLE_LIMIT, s.clients, s.clients.Keys)
    case Sweep(cutoff, before, todo) => if todo == {} then LeaveWrite else Sweep(cutoff, before, todo - {pick})
    case _ => LeaveWrite
  }

  /** Where a goroutine goes as it takes or releases the lock. */
  function LockNext(pc: PC): PC {
    match pc
    case WantRead(ref) => Lookup(ref, Fast)
    case Refresh(ref) => WantWrite(ref)
    case WantWrite(ref) => Lookup(ref, Slow)
    case Leave(ref, mode, outcome) => Returned(ref, outcome)
    case WantRemove(ref) => Remove(ref)
    case WantSweep => SweepStart
    case WantClear => Clear
    case _ => Idle
  }

  predicate IsServing(pc: PC) {
    pc.Lookup? || pc.CheckAge? || pc.CheckHash? || pc.Touch?
  }

  predicate IsBuilding(pc: PC) {
    pc.Fetch? || pc.Build? || pc.Stamp? || pc.Install?
  }

  predicate IsEvicting(pc: PC) {
    pc.Remove? || pc.SweepStart? || pc.Sweep? || pc.Clear?
  }

  function NextPc(n: Naming, s: State, pc: PC, ok: bool, pick: string): PC
    requires InHeap(s, pc)
  {
    if IsServing(pc) then ServeNext(n, s, pc, ok)
    else if IsBuilding(pc) then BuildNext(s, pc, ok)
    else if IsEvicting(pc) then EvictNext(s, pc, pick)
    else LockNext(pc)
  }

  /** What a goroutine at `pc` writes to the map and to the entries. */
  function Write(n: Naming, s: State, pc: PC, pick: string): (s': State)
    requires InHeap(s, pc) && Picks(pc, pick)
    ensures s' == s.(clients := s'.clients, heap := s'.heap)
  {
    match pc
    case Touch(_, _, id, _) => s.(heap := s.heap[id := s.heap[id].(lastUsed := s.now)])
    case Install(ref, _, client, createdAt) =>
      var entry := Entry(client, createdAt, s.now, n.fingerprint(client.builtFrom), n.key(ref));
      s.(heap := s.heap + [entry], clients := s.clients[n.key(ref) := |s.heap|])
    case Remove(ref) => s.(clients := s.clients - {n.key(ref)})
    case Sweep(cutoff, before, todo) =>
      if todo != {} && s.heap[before[pick]].lastUsed < cutoff then s.(clients := s.clients - {pick}) else s
    case Clear => s.(clients := map[])
    case _ => s
  }

  /** What it does to the lock. */
  function MoveLock(s: State, p: nat, pc: PC): (s': State)
    ensures s' == s.(readers := s'.readers, writer := s'.writer)
  {
    if WantsRead(pc) then s.(readers := s.readers + {p})
    else if WantsWrite(pc) then s.(writer := Some(p))
    else if Releases(pc) then
      if HoldsRead(pc) then s.(readers := s.readers - {p}) else s.(writer := None)
    else s
  }

  function Apply(n: Naming, s: State, a: Action): State
    requires Enabled(s, a)
  {
    match a
    case Tick(elapsed) => s.(now := s.now + elapsed)
    case EditTailnet(ref, t) => s.(tailnets := Store(s.tailnets, ref, t))
    case EditSecret(ref, secret) => s.(secrets := Store(s.secrets, ref, secret))
    case Begin(p, op) => Goto(s, p, Start(op))
    case Run(p, ok, pick) =>
      var pc := s.pcs[p];
      Goto(MoveLock(Write(n, s, pc, pick), p, pc), p, NextPc(n, s, pc, ok, pick))
  }

  ghost predicate Init(s: State) {
    && s.clients == map[] && s.heap == [] && s.readers == {} && s.writer == None
    && forall p <- s.pcs :: s.pcs[p] == Idle
  }

  ghost predicate Next(n: Naming, s: State, a: Action, s': State) {
    Enabled(s, a) && s' == Apply(n, s, a)
  }
}
