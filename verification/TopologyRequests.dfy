/**
 * Asking the topology monitor for a refresh: waiters sample a version, raise a request flag and wait for the
 * version to change, while any thread may be half way through UpdateTopologyCache, which stores the hosts,
 * clears the flag and bumps the version with both mutexes held.
 */
module TopologyRequests {

  import opened Options
  import opened Hosts
  import opened TopologyUtil

  // topology_version_ is an unsigned 64-bit counter.
  const VERSIONS: nat := 0x1_0000_0000_0000_0000

  // The progress of the UpdateTopologyCache that holds the two mutexes.
  datatype UpdateStage = Stored | Cleared

  datatype WaiterPc =
    | Sampled                                         // version read, flag not raised yet
    | Waiting                                         // in the loop of WaitForTopologyUpdate
    | Leaving(timedOut: bool)                         // out of the loop, about to read the cache
    | Holding(hosts: seq<HostInfo>, timedOut: bool)   // about to write what it read back, or to return it

  // sampledAt and leftAt record how many updates had completed; no code depends on them.
  datatype Waiter = Waiter(sampled: nat, sampledAt: nat, leftAt: nat, pc: WaiterPc)

  type Id = nat

  datatype State = State(
    request: bool,                    // request_update_topology_
    updates: nat,                     // completed UpdateTopologyCache calls
    cached: seq<HostInfo>,            // the cluster's entry of the shared topology cache
    updating: Option<UpdateStage>,    // who holds request_update_topology_mutex_ and topology_updated_mutex_
    waiters: map<Id, Waiter>)

  function Version(s: State): nat { s.updates % VERSIONS }

  const INITIAL := State(false, 0, [], None, map[])

  datatype Event =
    | Sample(id: Id)
    | Raise(id: Id, wait: bool)                  // wait is false for a timeout of zero
    | CheckVersion(id: Id, expired: bool)
    | ReadCache(id: Id)
    | WriteBack(id: Id)                          // ForceRefresh, only for a non-empty list
    | BeginUpdate(queried: seq<HostInfo>, hosts: seq<HostInfo>)
    | ClearRequest
    | BumpVersion
    | ReadForRefresh(id: Id)                     // PluginService::RefreshHosts reads ...
    | StoreRefreshed(id: Id)                     // ... and stores, even an empty list
    | StoreQueried(queried: seq<HostInfo>, hosts: seq<HostInfo>)  // PluginService::UpdateDialect
    | Expire                                     // the cache entry times out

  predicate At(s: State, id: Id, pc: WaiterPc) { id in s.waiters && s.waiters[id].pc == pc }

  ghost predicate Enabled(s: State, e: Event) {
    match e
    case Sample(id) => id !in s.waiters
    case Raise(id, _) => At(s, id, Sampled) && s.updating.None?
    case CheckVersion(id, _) => At(s, id, Waiting) && s.updating.None?
    case ReadCache(id) => id in s.waiters && s.waiters[id].pc.Leaving?
    case WriteBack(id) => id in s.waiters && s.waiters[id].pc.Holding? && s.waiters[id].pc.hosts != []
    case BeginUpdate(queried, hosts) => s.updating.None? && IsVerified(queried, hosts)
    case ClearRequest => s.updating == Some(Stored)
    case BumpVersion => s.updating == Some(Cleared)
    case ReadForRefresh(id) => id !in s.waiters
    case StoreRefreshed(id) => id in s.waiters && s.waiters[id].pc.Holding?
    case StoreQueried(queried, hosts) => hosts != [] && IsVerified(queried, hosts)
    case Expire => true
  }

  function SetPc(s: State, id: Id, pc: WaiterPc): State
    requires id in s.waiters
  {
    s.(waiters := s.waiters[id := s.waiters[id].(pc := pc)])
  }

  function Leave(s: State, id: Id, timedOut: bool): State
    requires id in s.waiters
  {
    s.(waiters := s.waiters[id := s.waiters[id].(leftAt := s.updates, pc := Leaving(timedOut))])
  }

  ghost function Apply(s: State, e: Event): State
    requires Enabled(s, e)
  {
    match e
    case Sample(id) => s.(waiters := s.waiters[id := Waiter(Version(s), s.updates, 0, Sampled)])
    case Raise(id, wait) => (if wait then SetPc(s, id, Waiting) else Leave(s, id, true)).(request := true)
    case CheckVersion(id, expired) =>
      if expired then Leave(s, id, true)
      else if Version(s) != s.waiters[id].sampled then Leave(s, id, false)
      else s
    case ReadCache(id) => SetPc(s, id, Holding(s.cached, s.waiters[id].pc.timedOut))
    case WriteBack(id) => s.(cached := s.waiters[id].pc.hosts)
    case BeginUpdate(_, hosts) => s.(cached := hosts, updating := Some(Stored))
    case ClearRequest => s.(request := false, updating := Some(Cleared))
    case BumpVersion => s.(updates := s.updates + 1, updating := None)
    case ReadForRefresh(id) => s.(waiters := s.waiters[id := Waiter(Version(s), s.updates, 0, Holding(s.cached, true))])
    case StoreRefreshed(id) => s.(cached := s.waiters[id].pc.hosts)
    case StoreQueried(_, hosts) => s.(cached := hosts)
    case Expire => s.(cached := [])
  }

  // ---------- the invariant ----------

  ghost predicate WaiterOk(s: State, w: Waiter) {
    && w.sampledAt <= s.updates
    && w.sampled == w.sampledAt % VERSIONS
    && (w.pc.Waiting? && w.sampledAt == s.updates ==> s.request || s.updating == Some(Cleared))
    && (w.pc.Leaving? && !w.pc.timedOut ==> w.sampledAt < w.leftAt <= s.updates)
    && (w.pc.Holding? && !w.pc.timedOut ==> w.sampledAt < w.leftAt <= s.updates)
    && (w.pc.Holding? ==> Cacheable(w.pc.hosts))
  }

  ghost predicate Invariant(s: State) {
    Cacheable(s.cached) && forall id :: id in s.waiters ==> WaiterOk(s, s.waiters[id])
  }

  // Every waiter but one stays as it is, and no update completes.
  lemma OneWaiterChanges(s: State, s': State, id: Id)
    requires Invariant(s) && Cacheable(s'.cached) && s'.updates == s.updates && s'.updating == s.updating
    requires s.request ==> s'.request
    requires id in s'.waiters && s'.waiters == s.waiters[id := s'.waiters[id]] && WaiterOk(s', s'.waiters[id])
    ensures Invariant(s')
  {
    forall w | w in s'.waiters ensures WaiterOk(s', s'.waiters[w]) {
      if w != id {
        assert WaiterOk(s, s.waiters[w]);
      }
    }
  }

  lemma WaiterKeepsInvariant(s: State, e: Event)
    requires Invariant(s) && Enabled(s, e)
    requires e.Sample? || e.Raise? || e.CheckVersion? || e.ReadCache? || e.ReadForRefresh?
    ensures Invariant(Apply(s, e))
  {
    var s' := Apply(s, e);
    if e.id in s.waiters {
      assert WaiterOk(s, s.waiters[e.id]);
    }
    OneWaiterChanges(s, s', e.id);
  }

  // No waiter changes; the request flag may go down only in an update that is about to bump the version.
  lemma WaitersStay(s: State, s': State)
    requires Invariant(s) && Cacheable(s'.cached) && s'.waiters == s.waiters
    requires s.updates <= s'.updates <= s.updates + 1
    requires s'.updates == s.updates ==> (s.request || s.updating == Some(Cleared) ==> s'.request || s'.updating == Some(Cleared))
    ensures Invariant(s')
  {
    forall w | w in s'.waiters ensures WaiterOk(s', s'.waiters[w]) {
      assert WaiterOk(s, s.waiters[w]);
    }
  }

  lemma StepKeepsInvariant(s: State, e: Event)
    requires Invariant(s) && Enabled(s, e)
    ensures Invariant(Apply(s, e))
  {
    match e
    case BeginUpdate(queried, hosts) => VerifiedIsCacheable(queried, hosts); WaitersStay(s, Apply(s, e));
    case StoreQueried(queried, hosts) => VerifiedIsCacheable(queried, hosts); WaitersStay(s, Apply(s, e));
    case WriteBack(id) => assert WaiterOk(s, s.waiters[id]); WaitersStay(s, Apply(s, e));
    case StoreRefreshed(id) => assert WaiterOk(s, s.waiters[id]); WaitersStay(s, Apply(s, e));
    case ClearRequest => WaitersStay(s, Apply(s, e));
    case BumpVersion => WaitersStay(s, Apply(s, e));
    case Expire => WaitersStay(s, Apply(s, e));
    case _ => WaiterKeepsInvariant(s, e);
  }

  // ---------- whole runs ----------

  ghost predicate Runs(s: State, es: seq<Event>)
    decreases |es|
  {
    es == [] || (Enabled(s, es[0]) && Runs(Apply(s, es[0]), es[1..]))
  }

  ghost function Exec(s: State, es: seq<Event>): State
    requires Runs(s, es)
    decreases |es|
  {
    if es == [] then s else Exec(Apply(s, es[0]), es[1..])
  }

  lemma {:induction false} RunKeepsInvariant(s: State, es: seq<Event>)
    requires Invariant(s) && Runs(s, es)
    ensures Invariant(Exec(s, es))
    decreases |es|
  {
    if es != [] {
      StepKeepsInvariant(s, es[0]);
      RunKeepsInvariant(Apply(s, es[0]), es[1..]);
    }
  }

  /** No refresh request is lost: whenever a waiter may look and still sees the version it sampled, its request
      is still raised, unless a whole round of the 64-bit version counter has gone by since. */
  lemma NoRequestLost(es: seq<Event>, id: Id)
    requires Runs(INITIAL, es) && At(Exec(INITIAL, es), id, Waiting) && Exec(INITIAL, es).updating.None?
    requires Version(Exec(INITIAL, es)) == Exec(INITIAL, es).waiters[id].sampled
    ensures var s := Exec(INITIAL, es); s.request || s.updates >= s.waiters[id].sampledAt + VERSIONS
  {
    RunKeepsInvariant(INITIAL, es);
    var s := Exec(INITIAL, es);
    var w := s.waiters[id];
    assert WaiterOk(s, w);
    SameVersion(w.sampledAt, s.updates);
  }

  lemma SameVersion(a: nat, b: nat)
    requires a <= b && a % VERSIONS == b % VERSIONS
    ensures a == b || b >= a + VERSIONS
  {
    assert a == (a / VERSIONS) * VERSIONS + a % VERSIONS && b == (b / VERSIONS) * VERSIONS + b % VERSIONS;
    if a / VERSIONS != b / VERSIONS {
      assert b / VERSIONS >= a / VERSIONS + 1;
    }
  }

  /** A waiter that leaves before its timeout does so because an UpdateTopologyCache completed after it had
      sampled the version. */
  lemma ReturnMeansUpdated(es: seq<Event>, id: Id)
    requires Runs(INITIAL, es) && id in Exec(INITIAL, es).waiters
    requires var w := Exec(INITIAL, es).waiters[id]; (w.pc.Leaving? || w.pc.Holding?) && !w.pc.timedOut
    ensures var s := Exec(INITIAL, es); s.waiters[id].sampledAt < s.waiters[id].leftAt <= s.updates
  {
    RunKeepsInvariant(INITIAL, es);
    assert WaiterOk(Exec(INITIAL, es), Exec(INITIAL, es).waiters[id]);
  }

  /** However refreshes, write-backs of stale lists and expiry interleave, the cached topology is empty or has
      exactly one writer, placed last. */
  lemma CachedTopologyHasOneWriter(es: seq<Event>)
    requires Runs(INITIAL, es)
    ensures Cacheable(Exec(INITIAL, es).cached)
  {
    RunKeepsInvariant(INITIAL, es);
  }

  // ---------- when a waiter leaves ----------

  // How many updates completed among the events.
  function Completed(es: seq<Event>): nat {
    if es == [] then 0 else Completed(es[..|es| - 1]) + (if es[|es| - 1].BumpVersion? then 1 else 0)
  }

  lemma {:induction false} CompletedParts(es: seq<Event>, more: seq<Event>)
    ensures Completed(es + more) == Completed(es) + Completed(more)
    decreases |more|
  {
    if more == [] {
      assert es + more == es;
    } else {
      assert (es + more)[..|es + more| - 1] == es + more[..|more| - 1];
      CompletedParts(es, more[..|more| - 1]);
    }
  }

  lemma {:induction false} RunsParts(s: State, es: seq<Event>, more: seq<Event>)
    requires Runs(s, es + more)
    ensures Runs(s, es) && Runs(Exec(s, es), more) && Exec(s, es + more) == Exec(Exec(s, es), more)
    decreases |es|
  {
    if es == [] {
      assert es + more == more;
    } else {
      assert (es + more)[1..] == es[1..] + more;
      RunsParts(Apply(s, es[0]), es[1..], more);
    }
  }

  // A waiter keeps the version it sampled, and updates are counted.
  lemma SampleStays(s: State, e: Event, id: Id)
    requires Enabled(s, e) && id in s.waiters
    ensures var s' := Apply(s, e);
      && id in s'.waiters && s'.waiters[id].sampled == s.waiters[id].sampled
      && s'.updates == s.updates + (if e.BumpVersion? then 1 else 0)
  {
  }

  lemma {:induction false} SampleStaysInRun(s: State, es: seq<Event>, id: Id)
    requires Runs(s, es) && id in s.waiters
    ensures var s' := Exec(s, es);
      id in s'.waiters && s'.waiters[id].sampled == s.waiters[id].sampled && s'.updates == s.updates + Completed(es)
    decreases |es|
  {
    hide Apply, Enabled;
    if es != [] {
      SampleStays(s, es[0], id);
      SampleStaysInRun(Apply(s, es[0]), es[1..], id);
      assert es == [es[0]] + es[1..];
      CompletedParts([es[0]], es[1..]);
      assert [es[0]][..0] == [];
    }
  }

  lemma VersionsDiffer(a: nat, b: nat)
    ensures (a + b) % VERSIONS == a % VERSIONS <==> b % VERSIONS == 0
  {
    var q, r := a / VERSIONS, a % VERSIONS;
    assert a == q * VERSIONS + r;
    var p, t := b / VERSIONS, b % VERSIONS;
    assert b == p * VERSIONS + t;
    var sum := r + t;
    if sum < VERSIONS {
      RemainderIs(a + b, q + p, sum);
    } else {
      RemainderIs(a + b, q + p + 1, sum - VERSIONS);
    }
  }

  lemma RemainderIs(n: nat, q: nat, r: nat)
    requires n == q * VERSIONS + r && r < VERSIONS
    ensures n % VERSIONS == r
  {
  }

  /** What becomes of a waiter that looks: past its timeout it leaves as timed out; before, it leaves exactly when updates have
      completed since it sampled the version, unless their number is a multiple of 2^64, and otherwise it goes on waiting. */
  lemma LeavesWhenUpdated(before: seq<Event>, id: Id, since: seq<Event>, expired: bool)
    requires Runs(INITIAL, before + [Sample(id)] + since)
    requires Enabled(Exec(INITIAL, before + [Sample(id)] + since), CheckVersion(id, expired))
    ensures var s' := Apply(Exec(INITIAL, before + [Sample(id)] + since), CheckVersion(id, expired));
      && (expired ==> At(s', id, Leaving(true)))
      && (!expired && Completed(since) % VERSIONS != 0 ==> At(s', id, Leaving(false)))
      && (!expired && Completed(since) % VERSIONS == 0 ==> At(s', id, Waiting))
  {
    hide Completed;
    RunsParts(INITIAL, before + [Sample(id)], since);
    RunsParts(INITIAL, before, [Sample(id)]);
    var s0 := Exec(INITIAL, before);
    var s1 := Apply(s0, Sample(id));
    assert Exec(s0, [Sample(id)]) == s1;
    SampleStaysInRun(s1, since, id);
    VersionsDiffer(s0.updates, Completed(since));
  }
}
