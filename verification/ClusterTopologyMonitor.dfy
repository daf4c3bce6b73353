/**
 * The fields of ClusterTopologyMonitor and the sections of its code that take, hand over or free a
 * connection, each proved to be the event of the protocol it stands for. A section starts from a state that
 * satisfies the protocol's invariant, which is what makes every free in it a free of a live connection.
 */
module ClusterTopologyMonitors {

  import opened Options
  import opened TopologyConnections

  class ClusterTopologyMonitor {

    var live: set<Dbc>
    var next: Dbc
    var mainHdbc: Option<Dbc>
    var isWriterConnection: bool
    var writerHdbc: Option<Dbc>
    var readerHdbc: Option<Dbc>
    var nodeThreads: map<Host, NodeThread>
    var nodeThreadsStop: bool
    var isRunning: bool
    var pc: MainPc

    ghost function View(): State
      reads this
    {
      State(live, next, mainHdbc, isWriterConnection, writerHdbc, readerHdbc, nodeThreads, nodeThreadsStop,
            isRunning, pc)
    }

    ghost predicate Valid()
      reads this
    {
      Invariant(View())
    }

    constructor ()
      ensures View() == INITIAL && Valid()
    {
      live, next := {}, 0;
      mainHdbc, writerHdbc, readerHdbc := None, None, None;
      nodeThreads := map[];
      isWriterConnection, nodeThreadsStop, isRunning := false, false, false;
      pc := Idle;
    }

    // ---------- the environment ----------

    method AllocDbc() returns (hdbc: Dbc)
      modifies this`live, this`next
      ensures hdbc == old(next) && next == old(next) + 1 && live == old(live) + {hdbc}
    {
      hdbc := next;
      next := next + 1;
      live := live + {hdbc};
    }

    // Freeing a connection that is not live is what must never happen.
    method DisconnectAndFree(hdbc: Dbc)
      requires hdbc in live
      modifies this`live
      ensures live == old(live) - {hdbc}
    {
      live := live - {hdbc};
    }

    method CleanUpDbc(dbc: Option<Dbc>) returns (cleared: Option<Dbc>)
      requires Handle(dbc) <= live
      modifies this`live
      ensures live == Freed(old(live), dbc) && cleared == None
    {
      if dbc.Some? {
        DisconnectAndFree(dbc.value);
      }
      cleared := None;
    }

    // ---------- application threads ----------

    // The section of ForceRefresh(verify_writer) under hdbc_mutex_.
    method ForceRefreshVerify(isMultiAz: bool)
      requires Valid() && pc != Destroyed && AppEnabled(View(), DropMain)
      modifies this
      ensures View() == ApplyApp(old(View()), if isMultiAz then ClearWriterFlag else DropMain)
      ensures Valid()
    {
      AppKeepsInvariant(View(), if isMultiAz then ClearWriterFlag else DropMain);
      if isMultiAz {
        isWriterConnection := false;
      } else {
        HeldIsLive(View(), MainConn);
        mainHdbc := CleanUpDbc(mainHdbc);
        isWriterConnection := false;
      }
    }

    // The destructor once the main thread has been joined: FreeEnv frees what the environment still lists.
    method CleanUpHandles()
      requires Valid() && pc != Destroyed && AppEnabled(View(), Destroy)
      modifies this
      ensures View() == ApplyApp(old(View()), Destroy) && live == {}
    {
      HeldIsLive(View(), MainConn);
      mainHdbc := CleanUpDbc(mainHdbc);
      while live != {}
        modifies this`live
        decreases live
      {
        var hdbc :| hdbc in live;
        DisconnectAndFree(hdbc);
      }
      pc := Destroyed;
    }

    // ---------- main thread ----------

    method DropAfterEmptyTopology()
      requires Valid() && (pc.RegularDrop? || pc.OpenDrop?)
      modifies this
      ensures View() == ApplyMain(old(View()), if old(pc).RegularDrop? then RegularDropped else OpenDropped)
      ensures Valid()
    {
      MainKeepsInvariant(View(), if pc.RegularDrop? then RegularDropped else OpenDropped);
      HeldIsLive(View(), MainConn);
      mainHdbc := CleanUpDbc(mainHdbc);
      isWriterConnection := false;
      pc := if pc.RegularDrop? then LoopHead else SpawnTest([]);
    }

    // The start of the fetch of regular mode: takes hdbc_mutex_ and reads the handle, which may be null.
    method HandleRegularModeLock() returns (hdbc: Option<Dbc>)
      requires Valid() && pc.RegularFetch?
      modifies this`pc
      ensures View() == ApplyMain(old(View()), RegularLocked) && Valid()
      ensures hdbc == mainHdbc && Handle(hdbc) <= live
    {
      MainKeepsInvariant(View(), RegularLocked);
      HeldIsLive(View(), MainConn);
      hdbc := mainHdbc;
      pc := RegularQuery(hdbc);
    }

    // Its end: releases the mutex, with the handle still the main connection.
    method HandleRegularModeUnlock(gotHosts: bool)
      requires Valid() && pc.RegularQuery?
      modifies this`pc
      ensures View() == ApplyMain(old(View()), RegularFetched(gotHosts)) && Valid()
      ensures old(pc).handle == mainHdbc && Handle(old(pc).handle) <= live
    {
      MainKeepsInvariant(View(), RegularFetched(gotHosts));
      HeldIsLive(View(), MainConn);
      pc := if gotHosts then LoopHead else RegularDrop;
    }

    method InitWriterHdbc()
      requires Valid() && pc.InitWriterSlot?
      modifies this
      ensures View() == ApplyMain(old(View()), InitFreeWriter) && Valid()
    {
      MainKeepsInvariant(View(), InitFreeWriter);
      HeldIsLive(View(), WriterConn);
      writerHdbc := CleanUpDbc(writerHdbc);
      pc := InitReaderSlot;
    }

    // No node thread is left to be querying through this connection.
    method InitReaderHdbc()
      requires Valid() && pc.InitReaderSlot?
      modifies this
      ensures View() == ApplyMain(old(View()), InitFreeReader) && Valid()
      ensures old(nodeThreads) == map[]
    {
      MainKeepsInvariant(View(), InitFreeReader);
      HeldIsLive(View(), ReaderConn);
      readerHdbc := CleanUpDbc(readerHdbc);
      pc := InitHosts;
    }

    method OpenAnyConnAlloc()
      requires Valid() && pc.OpenTest?
      modifies this
      ensures View() == ApplyMain(old(View()), OpenTested) && Valid()
    {
      MainKeepsInvariant(View(), OpenTested);
      if mainHdbc.None? {
        var localHdbc := AllocDbc();
        pc := OpenConnect(localHdbc);
      } else {
        pc := OpenFetch;
      }
    }

    method OpenAnyConnConnected(connected: bool)
      requires Valid() && pc.OpenConnect?
      modifies this
      ensures View() == ApplyMain(old(View()), OpenConnected(connected)) && Valid()
    {
      MainKeepsInvariant(View(), OpenConnected(connected));
      HeldIsLive(View(), LocalConn);
      var localHdbc := pc.local;
      if !connected {
        DisconnectAndFree(localHdbc);
        pc := SpawnTest([]);
      } else {
        pc := OpenInstall(localHdbc);
      }
    }

    // Under hdbc_mutex_: another thread cannot have set the connection, but the code checks.
    method OpenAnyConnInstall(isWriter: bool)
      requires Valid() && pc.OpenInstall?
      modifies this
      ensures View() == ApplyMain(old(View()), OpenInstalled(isWriter)) && Valid()
    {
      MainKeepsInvariant(View(), OpenInstalled(isWriter));
      HeldIsLive(View(), LocalConn);
      var localHdbc := pc.local;
      if mainHdbc.None? {
        mainHdbc := Some(localHdbc);
        if isWriter {
          isWriterConnection := true;
        }
      } else {
        DisconnectAndFree(localHdbc);
      }
      pc := OpenFetch;
    }

    // No mutex is held: the precondition on the connection is what OpenQuerySafeUnlessDropped decides.
    method OpenAnyConnDereference() returns (hdbc: Dbc)
      requires Valid() && pc.OpenFetch? && mainHdbc.Some?
      modifies this`pc
      ensures View() == ApplyMain(old(View()), OpenDereferenced) && Valid()
      ensures mainHdbc == Some(hdbc) && hdbc in live
    {
      MainKeepsInvariant(View(), OpenDereferenced);
      HeldIsLive(View(), MainConn);
      hdbc := mainHdbc.value;
      pc := OpenQuery(hdbc);
    }

    method OpenAnyConnFetched(hosts: seq<Host>)
      requires Valid() && pc.OpenQuery?
      modifies this`pc
      ensures View() == ApplyMain(old(View()), OpenFetched(hosts)) && Valid()
    {
      MainKeepsInvariant(View(), OpenFetched(hosts));
      pc := if hosts == [] then OpenDrop else SpawnTest(hosts);
    }

    // One iteration of the loops that start node threads.
    method StartNodeMonitor()
      requires Valid() && (pc.Spawning? || pc.Adding?)
      modifies this`live, this`next, this`nodeThreads, this`pc
      ensures View() == ApplyMain(old(View()), AddNode) && Valid()
    {
      hide Invariant;
      MainKeepsInvariant(View(), AddNode);
      if pc.hosts == [] {
        pc := LoopHead;
      } else {
        var host := pc.hosts[0];
        if host !in nodeThreads {
          var hdbc := AllocDbc();
          nodeThreads := nodeThreads[host := NodeThread(Some(hdbc), false, Top)];
        }
        pc := if pc.Spawning? then Spawning(pc.hosts[1..]) else Adding(pc.hosts[1..]);
      }
    }

    // Under both mutexes; the node threads are joined afterwards, with the mutexes still held.
    method GetPossibleWriterConn(verified: bool, latest: seq<Host>)
      requires Valid() && pc.Polling?
      modifies this
      ensures View() == ApplyMain(old(View()), Polled(verified, latest)) && Valid()
    {
      MainKeepsInvariant(View(), Polled(verified, latest));
      HeldIsLive(View(), MainConn);
      if writerHdbc.Some? && verified {
        mainHdbc := CleanUpDbc(mainHdbc);
        mainHdbc, writerHdbc := writerHdbc, None;
        isWriterConnection := true;
        nodeThreadsStop := true;
        pc := Joining;
      } else {
        pc := Adding(latest);
      }
    }

    // ~NodeMonitoringThread.
    method JoinNodeMonitor(host: Host)
      requires Valid() && MainEnabled(View(), JoinNode(host))
      modifies this
      ensures View() == ApplyMain(old(View()), JoinNode(host)) && Valid() && live == old(live)
    {
      MainKeepsInvariant(View(), JoinNode(host));
      var t := nodeThreads[host];
      assert ThreadProtected(t, readerHdbc);
      if !t.readerUpdates && t.hdbc.Some? {
        assert false;  // a finished thread has given its handle away or closed it
      }
      nodeThreads := nodeThreads - {host};
    }

    // ---------- node threads ----------

    // HandleReconnect up to Connect.
    method HandleReconnect(host: Host)
      requires Valid() && pc != Destroyed && NodeEnabled(View(), host, Probed(false, false))
      modifies this
      ensures View() == ApplyNode(old(View()), host, Probed(false, false)) && Valid()
    {
      NodeKeepsInvariant(View(), host, Probed(false, false));
      HeldIsLive(View(), NodeConn(host));
      var t := nodeThreads[host];
      if t.hdbc.Some? {
        DisconnectAndFree(t.hdbc.value);
      }
      var hdbc := AllocDbc();
      nodeThreads := nodeThreads[host := t.(hdbc := Some(hdbc), pc := Connecting)];
    }

    method FinishReconnect(host: Host, ok: bool)
      requires Valid() && pc != Destroyed && NodeEnabled(View(), host, Connected(ok))
      modifies this
      ensures View() == ApplyNode(old(View()), host, Connected(ok)) && Valid()
    {
      NodeKeepsInvariant(View(), host, Connected(ok));
      HeldIsLive(View(), NodeConn(host));
      var t := nodeThreads[host];
      if !ok {
        var cleared := CleanUpDbc(t.hdbc);
        t := t.(hdbc := cleared);
      }
      nodeThreads := nodeThreads[host := t.(pc := Top)];
    }

    // Under the writer mutex: the first thread hands its connection over, the others free theirs.
    method HandleWriterConn(host: Host)
      requires Valid() && pc != Destroyed && NodeEnabled(View(), host, HandleWriter)
      modifies this
      ensures View() == ApplyNode(old(View()), host, HandleWriter) && Valid()
    {
      NodeKeepsInvariant(View(), host, HandleWriter);
      HeldIsLive(View(), NodeConn(host));
      var t := nodeThreads[host];
      if writerHdbc.Some? {
        var _ := CleanUpDbc(t.hdbc);
      } else {
        writerHdbc := t.hdbc;
      }
      nodeThreads := nodeThreads[host := t.(hdbc := None, pc := Top)];
      nodeThreadsStop := true;
    }

    // Under the reader mutex.
    method HandleReaderConn(host: Host)
      requires Valid() && pc != Destroyed && NodeEnabled(View(), host, ClaimSlot)
      modifies this
      ensures View() == ApplyNode(old(View()), host, ClaimSlot) && Valid()
    {
      NodeKeepsInvariant(View(), host, ClaimSlot);
      var t := nodeThreads[host];
      if readerHdbc.None? {
        readerHdbc := t.hdbc;
        t := t.(hdbc := None);
      }
      nodeThreads := nodeThreads[host := t.(readerUpdates := true, pc := AtFetch)];
    }

    // The end of NodeMonitoringThread::Run.
    method CloseNode(host: Host)
      requires Valid() && pc != Destroyed && NodeEnabled(View(), host, Close)
      modifies this
      ensures View() == ApplyNode(old(View()), host, Close) && Valid()
    {
      NodeKeepsInvariant(View(), host, Close);
      HeldIsLive(View(), NodeConn(host));
      var t := nodeThreads[host];
      var cleared := CleanUpDbc(t.hdbc);
      nodeThreads := nodeThreads[host := t.(hdbc := cleared, pc := Done)];
    }
  }
}
