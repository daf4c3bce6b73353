/**
 * The fields behind WaitForTopologyUpdate and UpdateTopologyCache, and the sections that touch them, each proved to be
 * the event, or the three events in order, of the protocol of requests.
 */
module TopologyRefresh {

  import opened Options
  import opened Hosts
  import opened TopologyUtil
  import opened TopologyRequests

  class RefreshBoard {

    var requestUpdateTopology: bool
    var topologyVersion: nat
    var cachedHosts: seq<HostInfo>
    ghost var updates: nat
    ghost var updating: Option<UpdateStage>
    ghost var waiters: map<Id, Waiter>

    ghost function View(): State
      reads this
    {
      State(requestUpdateTopology, updates, cachedHosts, updating, waiters)
    }

    // The counter is 64 bits wide.
    ghost predicate Valid()
      reads this
    {
      topologyVersion == Version(View()) && Invariant(View())
    }

    constructor ()
      ensures Valid() && View() == TopologyRequests.INITIAL
    {
      requestUpdateTopology, topologyVersion, cachedHosts := false, 0, [];
      updates, updating, waiters := 0, None, map[];
    }

    ghost method Follow(before: State, e: Event)
      requires TopologyRequests.Invariant(before) && Enabled(before, e) && View() == Apply(before, e)
      requires topologyVersion == Version(View())
      ensures Valid()
    {
      StepKeepsInvariant(before, e);
    }

    // The first line of WaitForTopologyUpdate.
    method LoadVersion(ghost id: Id) returns (versionBefore: nat)
      requires Valid() && id !in waiters
      modifies this`waiters
      ensures Valid() && View() == Apply(old(View()), Sample(id)) && versionBefore == waiters[id].sampled
      ensures versionBefore == topologyVersion
    {
      ghost var before := View();
      versionBefore := topologyVersion;
      waiters := waiters[id := Waiter(topologyVersion, updates, 0, Sampled)];
      Follow(before, Sample(id));
    }

    method RaiseRequest(ghost id: Id, timeoutMs: int) returns (waits: bool)
      requires Valid() && At(View(), id, Sampled) && updating.None?
      modifies this`requestUpdateTopology, this`waiters
      ensures Valid() && waits == (timeoutMs > 0) && View() == Apply(old(View()), Raise(id, waits))
      ensures requestUpdateTopology && At(View(), id, if waits then Waiting else Leaving(true))
    {
      ghost var before := View();
      requestUpdateTopology := true;
      waits := timeoutMs > 0;
      waiters := Apply(before, Raise(id, waits)).waiters;
      Follow(before, Raise(id, waits));
    }

    // The loop condition, read with the lock held.
    method StillWaits(ghost id: Id, versionBefore: nat, currTime: int, end: int) returns (waits: bool)
      requires Valid() && At(View(), id, Waiting) && updating.None? && versionBefore == waiters[id].sampled
      modifies this`waiters
      ensures Valid() && View() == Apply(old(View()), CheckVersion(id, currTime >= end))
      ensures waits <==> currTime < end && topologyVersion == versionBefore
      ensures At(View(), id, if waits then Waiting else Leaving(currTime >= end))
    {
      ghost var before := View();
      waits := currTime < end && topologyVersion == versionBefore;
      waiters := Apply(before, CheckVersion(id, currTime >= end)).waiters;
      Follow(before, CheckVersion(id, currTime >= end));
    }

    method GetHosts(ghost id: Id) returns (hosts: seq<HostInfo>)
      requires Valid() && id in waiters && waiters[id].pc.Leaving?
      modifies this`waiters
      ensures Valid() && View() == Apply(old(View()), ReadCache(id)) && hosts == cachedHosts
      ensures waiters[id].pc == Holding(hosts, old(waiters)[id].pc.timedOut)
    {
      ghost var before := View();
      hosts := cachedHosts;
      waiters := Apply(before, ReadCache(id)).waiters;
      Follow(before, ReadCache(id));
    }

    // The write-back of ForceRefresh.
    method SetHosts(ghost id: Id, hosts: seq<HostInfo>)
      requires Valid() && id in waiters && waiters[id].pc.Holding? && waiters[id].pc.hosts == hosts
      modifies this`cachedHosts
      ensures Valid() && View() == if hosts == [] then old(View()) else Apply(old(View()), WriteBack(id))
      ensures cachedHosts == if hosts == [] then old(cachedHosts) else hosts
    {
      ghost var before := View();
      if hosts != [] {
        cachedHosts := hosts;
        Follow(before, WriteBack(id));
      }
    }

    /** Stores the hosts, clears the request and bumps the version, in this order and with both mutexes held. */
    method UpdateTopologyCache(ghost queried: seq<HostInfo>, hosts: seq<HostInfo>)
      requires Valid() && updating.None? && IsVerified(queried, hosts)
      modifies this`cachedHosts, this`requestUpdateTopology, this`topologyVersion, this`updates, this`updating
      ensures Valid() && updating.None? && !requestUpdateTopology && cachedHosts == hosts
      ensures topologyVersion == (old(topologyVersion) + 1) % VERSIONS
      ensures View() == Apply(Apply(Apply(old(View()), BeginUpdate(queried, hosts)), ClearRequest), BumpVersion)
    {
      ghost var before := View();
      cachedHosts, updating := hosts, Some(Stored);
      Follow(before, BeginUpdate(queried, hosts));
      ghost var stored := View();
      requestUpdateTopology, updating := false, Some(Cleared);
      Follow(stored, ClearRequest);
      ghost var cleared := View();
      topologyVersion := (topologyVersion + 1) % VERSIONS;
      updates, updating := updates + 1, None;
      NextVersion(updates - 1);
      Follow(cleared, BumpVersion);
    }
  }

  lemma NextVersion(updates: nat)
    ensures (updates % VERSIONS + 1) % VERSIONS == (updates + 1) % VERSIONS
  {
  }
}
