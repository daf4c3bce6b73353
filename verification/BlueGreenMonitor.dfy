/** The fields of BlueGreenMonitor that its DNS flags depend on, and the methods that update them. */
module BlueGreenMonitors {

  import opened Options
  import opened BlueGreenFlags

  method ResolveAll(hosts: set<string>, dns: string -> Option<Ip>) returns (ips: IpMap)
    ensures ips == map h | h in hosts :: dns(h)
  {
    ips := map[];
    var pending := hosts;
    while pending != {}
      invariant pending <= hosts && ips.Keys == hosts - pending
      invariant forall h :: h in ips ==> ips[h] == dns(h)
      decreases |pending|
    {
      var host :| host in pending;
      pending := pending - {host};
      if host !in ips {
        ips := ips[host := dns(host)];
      }
    }
  }

  class BlueGreenMonitor {

    var position: Position
    var collectIp: bool
    var collectTopology: bool
    var hostNames: set<string>
    var initialTopology: seq<string>
    var currentTopology: seq<string>
    var initialIpHostMap: IpMap
    var currentIpHostMap: IpMap
    var allStartTopologyIpChanged: bool
    var allStartTopologyEndpointsRemoved: bool
    var allTopologyChanged: bool

    function View(): State
      reads this
    {
      State(position, collectIp, collectTopology, hostNames, initialTopology, currentTopology, initialIpHostMap,
            currentIpHostMap, allStartTopologyIpChanged, allStartTopologyEndpointsRemoved, allTopologyChanged)
    }

    constructor ()
      ensures View() == INITIAL && Invariant(View())
    {
      position, collectIp, collectTopology := BlueGreenFlags.Position.Collecting, true, true;
      hostNames, initialTopology, currentTopology := {}, [], [];
      initialIpHostMap, currentIpHostMap := map[], map[];
      allStartTopologyIpChanged, allStartTopologyEndpointsRemoved, allTopologyChanged := false, false, false;
    }

    method SetCollectIp(b: bool)
      modifies this`collectIp
      ensures View() == Apply(old(View()), BlueGreenFlags.SetCollectIp(b))
    {
      collectIp := b;
    }

    method SetCollectTopology(b: bool)
      modifies this`collectTopology
      ensures View() == Apply(old(View()), BlueGreenFlags.SetCollectTopology(b))
    {
      collectTopology := b;
    }

    // Three sections, each under a lock of its own.
    method ResetCollectedData()
      modifies this`initialIpHostMap, this`initialTopology, this`hostNames
      ensures View() == Apply(Apply(Apply(old(View()), ClearInitialIps), ClearInitialTopology), ClearHostNames)
    {
      initialIpHostMap := map[];
      initialTopology := [];
      hostNames := {};
    }

    // The host names that a status row adds.
    method CollectStatus(names: set<string>)
      modifies this`hostNames
      ensures View() == Apply(old(View()), BlueGreenFlags.CollectStatus(names))
    {
      hostNames := hostNames + names;
    }

    // Takes the hosts a refresh returned; none means that there was no connection or no answer.
    method CollectTopology(hosts: seq<string>)
      modifies this`currentTopology, this`initialTopology, this`hostNames
      ensures View() == Apply(old(View()), BlueGreenFlags.CollectTopology(hosts))
    {
      if hosts != [] {
        currentTopology := hosts;
        if collectTopology {
          initialTopology := hosts;
          for i := 0 to |hosts|
            invariant currentTopology == initialTopology == hosts && hostNames == old(hostNames) + Names(hosts[..i])
          {
            hostNames := hostNames + {hosts[i]};
            assert hosts[..i + 1] == hosts[..i] + [hosts[i]];
          }
          assert hosts[..|hosts|] == hosts;
        }
      }
    }

    method CollectHostIp(dns: string -> Option<Ip>)
      modifies this
      ensures View() == Apply(old(View()), BlueGreenFlags.CollectHostIp(dns))
    {
      currentIpHostMap := ResolveAll(hostNames, dns);
      if collectIp {
        initialIpHostMap := map[];
        initialIpHostMap := currentIpHostMap;
      }
      position := AddressesCollected;
    }

    // Every host of the first topology resolves to another address now.
    method AllStartHostsMoved() returns (all: bool)
      ensures all == AllMoved(initialTopology, initialIpHostMap, currentIpHostMap)
    {
      for i := 0 to |initialTopology|
        invariant forall k :: 0 <= k < i ==> MovedTo(initialIpHostMap, currentIpHostMap, initialTopology[k])
      {
        var host := initialTopology[i];
        var moved := host in initialIpHostMap && initialIpHostMap[host].Some?
          && host in currentIpHostMap && currentIpHostMap[host].Some?
          && initialIpHostMap[host].value != currentIpHostMap[host].value;
        if !moved {
          assert host in initialTopology && !MovedTo(initialIpHostMap, currentIpHostMap, host);
          return false;
        }
      }
      all := initialTopology != [];
    }

    // No host of the first topology resolves any more.
    method AllStartHostsGone() returns (all: bool)
      ensures all == AllGone(initialTopology, initialIpHostMap, currentIpHostMap)
    {
      for i := 0 to |initialTopology|
        invariant forall k :: 0 <= k < i ==> Gone(initialIpHostMap, currentIpHostMap, initialTopology[k])
      {
        var host := initialTopology[i];
        var gone := host in initialIpHostMap && initialIpHostMap[host].Some?
          && host in currentIpHostMap && !currentIpHostMap[host].Some?;
        if !gone {
          assert host in initialTopology && !Gone(initialIpHostMap, currentIpHostMap, host);
          return false;
        }
      }
      all := initialTopology != [];
    }

    method NoStartHostKept() returns (none: bool)
      ensures none == NoneKept(initialTopology, currentTopology)
    {
      var initialTopologyNodes := set h | h in initialTopology;
      for i := 0 to |currentTopology|
        invariant forall k :: 0 <= k < i ==> currentTopology[k] !in initialTopologyNodes
      {
        if currentTopology[i] in initialTopologyNodes {
          assert currentTopology[i] in currentTopology;
          return false;
        }
      }
      NodesOf(initialTopology);
      none := currentTopology != [] && initialTopologyNodes != {};
    }

    method UpdateIpAddressFlags()
      modifies this`allStartTopologyIpChanged, this`allStartTopologyEndpointsRemoved, this`allTopologyChanged, this`position
      ensures View() == Apply(old(View()), BlueGreenFlags.UpdateIpAddressFlags)
    {
      hide AllMoved, AllGone, NoneKept;
      if collectTopology {
        allStartTopologyIpChanged := false;
        allStartTopologyEndpointsRemoved := false;
        allTopologyChanged := false;
      }
      if !collectIp {
        allStartTopologyIpChanged := AllStartHostsMoved();
      }
      allStartTopologyEndpointsRemoved := AllStartHostsGone();
      if !collectTopology {
        allTopologyChanged := NoStartHostKept();
      }
      position := Collecting;
    }

    /** One iteration of Run while no other thread interferes: the flags it reports exclude each other. */
    method Iterate(names: set<string>, hosts: seq<string>, dns: string -> Option<Ip>)
      requires position == Collecting && Invariant(View())
      modifies this
      ensures position == Collecting && Invariant(View())
      ensures !(allStartTopologyIpChanged && allStartTopologyEndpointsRemoved)
    {
      ghost var s0 := View();
      CollectStatus(names);
      ghost var s1 := View();
      CollectTopology(hosts);
      ghost var s2 := View();
      CollectHostIp(dns);
      ghost var s3 := View();
      UpdateIpAddressFlags();
      StepKeepsInvariant(s0, BlueGreenFlags.CollectStatus(names));
      StepKeepsInvariant(s1, BlueGreenFlags.CollectTopology(hosts));
      StepKeepsInvariant(s2, BlueGreenFlags.CollectHostIp(dns));
      StepKeepsInvariant(s3, BlueGreenFlags.UpdateIpAddressFlags);
    }
  }

  lemma NodesOf(hosts: seq<string>)
    ensures (set h | h in hosts) == {} <==> hosts == []
  {
    if hosts != [] {
      var nodes := set h | h in hosts;
      assert hosts[0] in nodes;
    }
  }
}
