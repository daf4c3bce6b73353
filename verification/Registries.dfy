/**
 * The static maps of RdsHostListProvider and BlueGreenPlugin with the constructors, destructors and initialisers that
 * count their users, each proved to be the event of the protocol it stands for.
 */
module Registries {

  import opened Options
  import opened RefCounts

  // The map of one of the two classes. The ghost field says who holds what.
  class Registry {

    var entries: map<string, Entry>
    var made: nat
    ghost var held: map<User, Holding>

    ghost function View(): State
      reads this
    {
      State(entries, held, made)
    }

    constructor ()
      ensures View() == EMPTY && Exact(View())
    {
      entries, made, held := map[], 0, map[];
    }

    // Makes the object that the users of an identifier share.
    method Make() returns (shared: Shared)
      modifies this`made
      ensures shared == old(made) && made == old(made) + 1
    {
      shared := made;
      made := made + 1;
    }

    method GetOrCreate(ghost user: User, id: string) returns (shared: Shared)
      requires Exact(View()) && user !in held
      modifies this
      ensures View() == Apply(old(View()), Acquire(user, id)) && Exact(View())
      ensures user in held && held[user] == Holding(id, shared)
    {
      AcquireKeepsExact(View(), user, id);
      hide Exact;
      if id in entries {
        var entry := entries[id];
        entries := entries[id := entry.(count := entry.count + 1)];
        shared := entry.shared;
      } else {
        shared := Make();
        entries := entries[id := Entry(1, shared)];
      }
      held := held[user := Holding(id, shared)];
    }

    // Returns whether the user was the last one.
    method GiveUp(ghost user: User, id: string) returns (last: bool)
      requires Exact(View()) && user in held && held[user].id == id
      modifies this
      ensures View() == Apply(old(View()), Release(user)) && Exact(View())
      ensures last <==> id !in entries
    {
      ReleaseKeepsExact(View(), user);
      assert id in entries;
      hide Exact;
      last := false;
      if id in entries {
        if entries[id].count == 1 {
          entries := entries - {id};
          last := true;
        } else {
          entries := entries[id := entries[id].(count := entries[id].count - 1)];
        }
      }
      held := held - {user};
    }
  }

  // A host list provider holds the monitor of its cluster from its construction to its destruction.
  class RdsHostListProvider {

    const monitorMap: Registry
    const clusterId: string
    const monitor: Shared
    ghost const user: User

    ghost predicate Alive()
      reads monitorMap
    {
      user in monitorMap.held && monitorMap.held[user] == Holding(clusterId, monitor)
    }

    constructor (monitorMap: Registry, clusterId: string, ghost user: User)
      requires Exact(monitorMap.View()) && user !in monitorMap.held
      modifies monitorMap
      ensures this.monitorMap == monitorMap && this.clusterId == clusterId && this.user == user
      ensures monitorMap.View() == Apply(old(monitorMap.View()), Acquire(user, clusterId))
      ensures Exact(monitorMap.View()) && Alive()
    {
      var shared := monitorMap.GetOrCreate(user, clusterId);
      this.monitorMap, this.clusterId, this.user, this.monitor := monitorMap, clusterId, user, shared;
    }

    method Destroy()
      requires Exact(monitorMap.View()) && Alive()
      modifies monitorMap
      ensures monitorMap.View() == Apply(old(monitorMap.View()), Release(user)) && Exact(monitorMap.View())
    {
      var _ := monitorMap.GiveUp(user, clusterId);
    }

    /** Two providers that are alive share a monitor exactly when they belong to the same cluster. */
    lemma SameMonitorIffSameCluster(other: RdsHostListProvider)
      requires monitorMap == other.monitorMap && Exact(monitorMap.View()) && Alive() && other.Alive()
      ensures monitor == other.monitor <==> clusterId == other.clusterId
    {
    }
  }

  // A plugin holds a status provider once it has been initialised, however often that is asked for; the last plugin of
  // a deployment to go also erases its status.
  class BlueGreenPlugin {

    const statusProvidersMap: Registry
    const statusMap: StatusMap
    const blueGreenId: string
    ghost const user: User
    var statusProvider: Option<Shared>

    ghost predicate Valid()
      reads this, statusProvidersMap
    {
      && Exact(statusProvidersMap.View())
      && (statusProvider.Some? <==> user in statusProvidersMap.held)
      && (statusProvider.Some? ==> statusProvidersMap.held[user] == Holding(blueGreenId, statusProvider.value))
    }

    constructor (registry: Registry, statusMap: StatusMap, blueGreenId: string, ghost user: User)
      requires Exact(registry.View()) && user !in registry.held
      ensures statusProvidersMap == registry && this.statusMap == statusMap
      ensures this.blueGreenId == blueGreenId && this.user == user
      ensures Valid() && statusProvider == None
    {
      this.statusProvidersMap, this.statusMap, this.blueGreenId, this.user := registry, statusMap, blueGreenId, user;
      statusProvider := None;
    }

    method InitProvider()
      requires Valid()
      modifies this, statusProvidersMap
      ensures Valid() && statusProvider.Some?
      ensures statusProvidersMap.View() == Apply(old(statusProvidersMap.View()), Acquire(user, blueGreenId))
    {
      if statusProvider.None? {
        var shared := statusProvidersMap.GetOrCreate(user, blueGreenId);
        statusProvider := Some(shared);
      }
    }

    // Called by the destructor, after which the plugin is gone.
    method CleanUpStatusProvider()
      requires Valid()
      modifies statusProvidersMap, statusMap
      ensures statusProvidersMap.View() == Apply(old(statusProvidersMap.View()), Release(user))
      ensures Exact(statusProvidersMap.View())
      ensures statusMap.statuses == old(statusMap.statuses) -
        if old(statusProvider.Some?) && blueGreenId !in statusProvidersMap.entries then {blueGreenId} else {}
    {
      if statusProvider.Some? {
        var last := statusProvidersMap.GiveUp(user, blueGreenId);
        if last {
          statusMap.Erase(blueGreenId);
        }
      }
    }
  }

  // The identifiers that have a status.
  class StatusMap {
    var statuses: set<string>

    constructor ()
      ensures statuses == {}
    {
      statuses := {};
    }

    method Erase(id: string)
      modifies this
      ensures statuses == old(statuses) - {id}
    {
      statuses := statuses - {id};
    }
  }
}
