/**
 * The connection hand-over protocol of the cluster topology monitor: a main loop that switches between
 * regular and panic mode, one thread per node racing to hand over a writer or a reader connection, and
 * application threads that drop the main connection.
 *
 * A state records every place that can hold a connection, and where the main thread and each node thread
 * stand in their code. An event is one lock-protected section, or one unlocked read or write of a shared
 * field; the interleavings are the sequences of enabled events.
 */
module TopologyConnections {

  import opened Options

  // A connection handle allocated from the monitor's environment.
  type Dbc = nat
  type Host = string

  // Where a node thread stands in NodeMonitoringThread::Run.
  datatype NodePc =
    | Top                  // about to test node_threads_stop_
    | Probing              // about to ask the connection for its node id and role
    | Connecting           // HandleReconnect: handle allocated, Connect outstanding
    | AtWriter             // HandleWriterConn: about to take the writer mutex
    | AtReader             // HandleReaderConn: about to look at the writer slot
    | AtClaim              // HandleReaderConn: about to take the reader mutex
    | AtFetch              // ReaderThreadFetchTopology: about to read the reader slot
    | AtQuery(used: Dbc)   // ReaderThreadFetchTopology: querying through the reader connection
    | Closing              // left the loop, about to release the handle
    | Done                 // ready to be joined

  datatype NodeThread = NodeThread(hdbc: Option<Dbc>, readerUpdates: bool, pc: NodePc)

  // Where the main thread stands in Run and in the functions that Run calls.
  datatype MainPc =
    | Idle                          // StartMonitor not called yet
    | LoopHead                      // tests is_running_, then main_hdbc_
    | ReadWriterFlag                // InPanicMode: main_hdbc_ was set, about to read is_writer_connection_
    | RegularEntry                  // HandleRegularMode: node_monitoring_threads_.clear()
    | RegularFetch                  // HandleRegularMode: about to take hdbc_mutex_
    | RegularQuery(handle: Option<Dbc>)  // querying through the handle read under hdbc_mutex_, which is still held
    | RegularDrop                   // HandleRegularMode: no hosts, about to close the connection
    | PanicEntry                    // HandlePanicMode
    | InitWriterSlot                // InitNodeMonitors: stop flag cleared
    | InitReaderSlot
    | InitHosts
    | OpenTest                      // OpenAnyConnGetHosts: about to test main_hdbc_
    | OpenConnect(local: Dbc)
    | OpenInstall(local: Dbc)       // connected, about to take hdbc_mutex_
    | OpenFetch                     // about to dereference main_hdbc_, no mutex held
    | OpenQuery(used: Dbc)          // querying through the dereferenced handle, no mutex held
    | OpenDrop
    | SpawnTest(hosts: seq<Host>)   // InitNodeMonitors: about to read is_writer_connection_
    | Spawning(hosts: seq<Host>)
    | Polling                       // GetPossibleWriterConn: about to take the writer mutex
    | Adding(hosts: seq<Host>)      // GetPossibleWriterConn: adding threads, writer mutex held
    | Joining                       // GetPossibleWriterConn: joining threads, writer mutex and hdbc_mutex_ held
    | ExitJoin                      // Run: left the loop, joining threads
    | Exited
    | Destroyed

  datatype State = State(
    live: set<Dbc>,                 // connections of the environment that are allocated and not freed
    next: Dbc,                      // the next handle the environment hands out
    main: Option<Dbc>,              // main_hdbc_
    isWriter: bool,                 // is_writer_connection_
    writerSlot: Option<Dbc>,        // node_threads_writer_hdbc_
    readerSlot: Option<Dbc>,        // node_threads_reader_hdbc_
    threads: map<Host, NodeThread>, // node_monitoring_threads_
    stop: bool,                     // node_threads_stop_
    running: bool,                  // is_running_
    pc: MainPc)

  const INITIAL := State({}, 0, None, false, None, None, map[], false, false, Idle)

  // What application threads and the destructor do.
  datatype AppEvent = StartMonitor | DropMain | ClearWriterFlag | SignalRunning | SignalStop | Destroy

  // What the main thread does next; the arguments are the answers of the network and of the database.
  datatype MainEvent =
    | TestRunning | TestWriterFlag | ChooseHandler
    | RegularLocked | RegularFetched(gotHosts: bool) | RegularDropped
    | InitFreeWriter | InitFreeReader | InitCached(cached: seq<Host>)
    | OpenTested | OpenConnected(connected: bool) | OpenInstalled(role: bool)
    | OpenDereferenced | OpenFetched(found: seq<Host>) | OpenDropped | SpawnTested | AddNode | Polled(verified: bool, latest: seq<Host>)
    | JoinNode(node: Host) | JoinsDone

  // What a node thread does next.
  datatype NodeEvent =
    | TestStop | Probed(reachable: bool, writer: bool) | Connected(ok: bool)
    | HandleWriter | HandleReader | ClaimSlot | FetchSlot | Queried | Close

  datatype Event = App(app: AppEvent) | Main(main: MainEvent) | Node(node: Host, act: NodeEvent)

  // ---------- locks held across events ----------

  // Every other section under these mutexes is a single event.
  predicate WriterMutexHeld(s: State) { s.pc.Adding? || s.pc.Joining? }

  predicate HdbcMutexHeld(s: State) { s.pc.Joining? || s.pc.RegularQuery? }

  predicate AppEnabled(s: State, e: AppEvent) {
    match e
    case StartMonitor => s.pc.Idle?
    case DropMain => !HdbcMutexHeld(s)
    case ClearWriterFlag => !HdbcMutexHeld(s)
    case SignalRunning => true
    case SignalStop => true
    case Destroy => s.pc.Idle? || s.pc.Exited?
  }

  predicate MainEnabled(s: State, e: MainEvent) {
    match e
    case TestRunning => s.pc.LoopHead?
    case TestWriterFlag => s.pc.ReadWriterFlag?
    case ChooseHandler => s.pc.PanicEntry?
    case RegularLocked => s.pc.RegularFetch?
    case RegularFetched(_) => s.pc.RegularQuery?
    case RegularDropped => s.pc.RegularDrop?
    case InitFreeWriter => s.pc.InitWriterSlot?
    case InitFreeReader => s.pc.InitReaderSlot?
    case InitCached(_) => s.pc.InitHosts?
    case OpenTested => s.pc.OpenTest?
    case OpenConnected(_) => s.pc.OpenConnect?
    case OpenInstalled(_) => s.pc.OpenInstall?
    case OpenDereferenced => s.pc.OpenFetch? && s.main.Some?  // otherwise a null dereference: no behaviour
    case OpenFetched(_) => s.pc.OpenQuery?  // also when the connection was freed meanwhile, with any answer
    case OpenDropped => s.pc.OpenDrop?
    case SpawnTested => s.pc.SpawnTest?
    case AddNode => s.pc.Spawning? || s.pc.Adding?
    case Polled(_, _) => s.pc.Polling?
    case JoinNode(n) => JoiningAt(s.pc) && n in s.threads && s.threads[n].pc.Done?
    case JoinsDone => JoiningAt(s.pc) && s.threads == map[]
  }

  predicate JoiningAt(pc: MainPc) { pc.RegularEntry? || pc.Joining? || pc.ExitJoin? }

  predicate NodeEnabled(s: State, n: Host, e: NodeEvent) {
    n in s.threads &&
    match e
    case TestStop => s.threads[n].pc.Top?
    case Probed(_, _) => s.threads[n].pc.Probing?
    case Connected(_) => s.threads[n].pc.Connecting?
    case HandleWriter => s.threads[n].pc.AtWriter? && !WriterMutexHeld(s)
    case HandleReader => s.threads[n].pc.AtReader?
    case ClaimSlot => s.threads[n].pc.AtClaim?
    case FetchSlot => s.threads[n].pc.AtFetch? && s.readerSlot.Some?  // otherwise a null dereference
    case Queried => s.threads[n].pc.AtQuery?
    case Close => s.threads[n].pc.Closing?
  }

  predicate Enabled(s: State, e: Event) {
    s.pc != Destroyed &&
    match e
    case App(a) => AppEnabled(s, a)
    case Main(m) => MainEnabled(s, m)
    case Node(n, a) => NodeEnabled(s, n, a)
  }

  // ---------- what each event does ----------

  // CleanUpDbc and DisconnectAndFree: a null handle is left alone.
  function Freed(live: set<Dbc>, handle: Option<Dbc>): set<Dbc> {
    if handle.Some? then live - {handle.value} else live
  }

  function SetNode(s: State, node: Host, t: NodeThread): State { s.(threads := s.threads[node := t]) }

  // Both branches of ForceRefresh(verify_writer), and every place that finds no topology.
  function DropConnection(s: State): State {
    s.(live := Freed(s.live, s.main), main := None, isWriter := false)
  }

  // A new thread allocates its own handle before it starts; a host that has a thread keeps it.
  function SpawnOn(s: State, node: Host): State {
    if node in s.threads then s
    else s.(live := s.live + {s.next}, next := s.next + 1,
            threads := s.threads[node := NodeThread(Some(s.next), false, Top)])
  }

  // HandleReconnect up to the outstanding Connect.
  function Reconnect(s: State, node: Host): State
    requires node in s.threads
  {
    var t := s.threads[node];
    SetNode(s, node, t.(hdbc := Some(s.next), pc := Connecting))
      .(live := Freed(s.live, t.hdbc) + {s.next}, next := s.next + 1)
  }

  // The locked section of HandleWriterConn.
  function HandOverWriter(s: State, node: Host): State
    requires node in s.threads
  {
    var t := s.threads[node];
    var s' := if s.writerSlot.Some? then s.(live := Freed(s.live, t.hdbc)) else s.(writerSlot := t.hdbc);
    SetNode(s', node, t.(hdbc := None, pc := Top)).(stop := true)
  }

  // The locked section of HandleReaderConn: the flag is set even when another thread was first.
  function ClaimReader(s: State, node: Host): State
    requires node in s.threads
  {
    var t := s.threads[node];
    if s.readerSlot.None? then
      SetNode(s, node, NodeThread(None, true, AtFetch)).(readerSlot := t.hdbc)
    else
      SetNode(s, node, t.(readerUpdates := true, pc := AtFetch))
  }

  // GetPossibleWriterConn when the writer slot holds a connection that still answers.
  function AdoptWriter(s: State): State {
    s.(live := Freed(s.live, s.main), main := s.writerSlot, writerSlot := None, isWriter := true, stop := true,
       pc := Joining)
  }

  // ~NodeMonitoringThread once its thread has finished.
  function Join(s: State, node: Host): State
    requires node in s.threads
  {
    var t := s.threads[node];
    s.(live := if !t.readerUpdates then Freed(s.live, t.hdbc) else s.live, threads := s.threads - {node})
  }

  function ApplyApp(s: State, e: AppEvent): State
    requires AppEnabled(s, e)
  {
    match e
    case StartMonitor => s.(running := true, pc := LoopHead)
    case DropMain => DropConnection(s)
    case ClearWriterFlag => s.(isWriter := false)
    case SignalRunning => s.(running := false)
    case SignalStop => s.(stop := true)
    case Destroy => s.(live := {}, main := None, pc := Destroyed)
  }

  function ApplyMain(s: State, e: MainEvent): State
    requires MainEnabled(s, e)
  {
    match e
    case TestRunning =>
      s.(pc := if !s.running then ExitJoin else if s.main.Some? then ReadWriterFlag else PanicEntry)
    case TestWriterFlag => s.(pc := if s.isWriter then RegularEntry else PanicEntry)
    case ChooseHandler => if s.threads == map[] then s.(stop := false, pc := InitWriterSlot) else s.(pc := Polling)
    case RegularLocked => s.(pc := RegularQuery(s.main))
    case RegularFetched(gotHosts) => s.(pc := if gotHosts then LoopHead else RegularDrop)
    case RegularDropped => DropConnection(s).(pc := LoopHead)
    case InitFreeWriter => s.(live := Freed(s.live, s.writerSlot), writerSlot := None, pc := InitReaderSlot)
    case InitFreeReader => s.(live := Freed(s.live, s.readerSlot), readerSlot := None, pc := InitHosts)
    case InitCached(cached) => s.(pc := if cached != [] then SpawnTest(cached) else OpenTest)
    case OpenTested =>
      if s.main.Some? then s.(pc := OpenFetch)
      else s.(live := s.live + {s.next}, next := s.next + 1, pc := OpenConnect(s.next))
    case OpenConnected(connected) =>
      if connected then s.(pc := OpenInstall(s.pc.local))
      else s.(live := s.live - {s.pc.local}, pc := SpawnTest([]))
    case OpenInstalled(role) =>
      if s.main.Some? then s.(live := s.live - {s.pc.local}, pc := OpenFetch)
      else s.(main := Some(s.pc.local), isWriter := s.isWriter || role, pc := OpenFetch)
    case OpenDereferenced => s.(pc := OpenQuery(s.main.value))
    case OpenFetched(found) => s.(pc := if found == [] then OpenDrop else SpawnTest(found))
    case OpenDropped => DropConnection(s).(pc := SpawnTest([]))
    case SpawnTested => s.(pc := if s.pc.hosts != [] && !s.isWriter then Spawning(s.pc.hosts) else LoopHead)
    case AddNode =>
      if s.pc.hosts == [] then s.(pc := LoopHead)
      else SpawnOn(s, s.pc.hosts[0]).(pc := if s.pc.Spawning? then Spawning(s.pc.hosts[1..]) else Adding(s.pc.hosts[1..]))
    case Polled(verified, latest) =>
      if s.writerSlot.Some? && verified then AdoptWriter(s) else s.(pc := Adding(latest))
    case JoinNode(n) => Join(s, n)
    case JoinsDone =>
      s.(pc := if s.pc.RegularEntry? then RegularFetch else if s.pc.Joining? then LoopHead else Exited)
  }

  function ApplyNode(s: State, n: Host, e: NodeEvent): State
    requires NodeEnabled(s, n, e)
  {
    var t := s.threads[n];
    match e
    case TestStop => SetNode(s, n, t.(pc := if s.stop then Closing else Probing))
    case Probed(reachable, writer) =>
      if t.hdbc.None? || !reachable then Reconnect(s, n)
      else SetNode(s, n, t.(pc := if writer then AtWriter else AtReader))
    case Connected(ok) =>
      if ok then SetNode(s, n, t.(pc := Top))
      else SetNode(s, n, t.(hdbc := None, pc := Top)).(live := Freed(s.live, t.hdbc))
    case HandleWriter => HandOverWriter(s, n)
    case HandleReader =>
      SetNode(s, n, t.(pc := if s.writerSlot.Some? then Top else if t.readerUpdates then AtFetch else AtClaim))
    case ClaimSlot => ClaimReader(s, n)
    case FetchSlot => SetNode(s, n, t.(pc := AtQuery(s.readerSlot.value)))
    case Queried => SetNode(s, n, t.(pc := Top))
    case Close => SetNode(s, n, t.(hdbc := None, pc := Done)).(live := Freed(s.live, t.hdbc))
  }

  function Apply(s: State, e: Event): State
    requires Enabled(s, e)
  {
    match e
    case App(a) => ApplyApp(s, a)
    case Main(m) => ApplyMain(s, m)
    case Node(n, a) => ApplyNode(s, n, a)
  }

  // ---------- who owns which connection ----------

  datatype Holder = MainConn | WriterConn | ReaderConn | LocalConn | NodeConn(node: Host)

  function Held(s: State, h: Holder): Option<Dbc> {
    match h
    case MainConn => s.main
    case WriterConn => s.writerSlot
    case ReaderConn => s.readerSlot
    case LocalConn => if s.pc.OpenConnect? || s.pc.OpenInstall? then Some(s.pc.local) else None
    case NodeConn(n) => if n in s.threads then s.threads[n].hdbc else None
  }

  ghost predicate Holds(s: State, h: Holder, d: Dbc) { Held(s, h) == Some(d) }

  // The live connections are the disjoint union of what the holders hold: nothing held is dead, nothing is
  // held twice, and nothing live is lost.
  ghost predicate Conserved(s: State) {
    && (forall h, d :: Holds(s, h, d) ==> d in s.live)
    && (forall h, h', d :: Holds(s, h, d) && Holds(s, h', d) ==> h == h')
    && (forall d :: d in s.live ==> exists h :: Holds(s, h, d))
  }

  // Slots that are only filled while node threads exist, and the claim that protects the reader slot.
  ghost predicate ReaderProtected(s: State) {
    forall n :: n in s.threads ==> ThreadProtected(s.threads[n], s.readerSlot)
  }

  predicate ThreadProtected(t: NodeThread, readerSlot: Option<Dbc>) {
    && (t.readerUpdates ==> readerSlot.Some?)
    && (t.pc.AtFetch? ==> t.readerUpdates)
    && (t.pc.AtQuery? ==> readerSlot == Some(t.pc.used) && t.readerUpdates)
    && (t.pc.AtWriter? || t.pc.AtReader? || t.pc.AtClaim? || t.pc.Connecting? ==> t.hdbc.Some?)
    && (t.pc.Done? ==> t.hdbc.None?)
  }

  // is_writer_connection_ means there is a connection, and only the hand-over itself runs with it set
  // while node threads are still there.
  ghost predicate ModesSafe(s: State) {
    && (s.isWriter ==> s.main.Some?)
    && (s.isWriter && !s.pc.Joining? ==> s.threads == map[])
    && (s.pc.PanicEntry? || s.pc.Spawning? || s.pc.Adding? || s.pc.Polling? ==> !s.isWriter)
    && (NoThreadsAt(s.pc) ==> s.threads == map[])
  }

  predicate NoThreadsAt(pc: MainPc) {
    !(pc.LoopHead? || pc.ReadWriterFlag? || pc.PanicEntry? || pc.Spawning? || pc.Polling? || pc.Adding?
      || pc.Joining? || pc.ExitJoin?)
  }

  // No handle has been handed out yet that the environment is still to hand out.
  ghost predicate Fresh(s: State) { forall d :: d in s.live ==> d < s.next }

  // The handle that regular mode queries through stays the main connection while the mutex is held.
  predicate RegularProtected(s: State) { s.pc.RegularQuery? ==> s.pc.handle == s.main }

  ghost predicate Invariant(s: State) {
    s.pc != Destroyed ==> Conserved(s) && Fresh(s) && ReaderProtected(s) && ModesSafe(s) && RegularProtected(s)
  }

  function Handle(o: Option<Dbc>): set<Dbc> { if o.Some? then {o.value} else {} }

  lemma HeldIsLive(s: State, h: Holder)
    requires Conserved(s)
    ensures Handle(Held(s, h)) <= s.live
  {
    if Held(s, h).Some? {
      assert Holds(s, h, Held(s, h).value);
    }
  }

  // ---------- the four ways a connection changes hands ----------

  ghost predicate SameHeldExcept(s: State, s': State, hs: set<Holder>) {
    forall h :: h !in hs ==> Held(s', h) == Held(s, h)
  }

  lemma StayConserved(s: State, s': State)
    requires Conserved(s) && SameHeldExcept(s, s', {}) && s'.live == s.live
    ensures Conserved(s')
  {
    forall d | d in s'.live ensures exists h :: Holds(s', h, d) {
      var h :| Holds(s, h, d);
      assert Holds(s', h, d);
    }
    assert forall h, d :: Holds(s', h, d) ==> Holds(s, h, d);
  }

  // A handle is released: also when there was none.
  lemma ReleaseConserves(s: State, s': State, h: Holder)
    requires Conserved(s) && SameHeldExcept(s, s', {h})
    requires Held(s', h).None? && s'.live == Freed(s.live, Held(s, h))
    ensures Conserved(s')
  {
    assert forall g, d :: Holds(s', g, d) ==> Holds(s, g, d) && g != h;
    if Held(s, h).Some? {
      assert Holds(s, h, Held(s, h).value);
    }
    forall d | d in s'.live ensures exists g :: Holds(s', g, d) {
      var g :| Holds(s, g, d);
      assert Holds(s', g, d);
    }
  }

  lemma AcquireConserves(s: State, s': State, h: Holder, d: Dbc)
    requires Conserved(s) && SameHeldExcept(s, s', {h})
    requires Held(s, h).None? && d !in s.live && Held(s', h) == Some(d) && s'.live == s.live + {d}
    ensures Conserved(s')
  {
    assert forall g, x :: Holds(s', g, x) && g != h ==> Holds(s, g, x);
    forall x | x in s'.live ensures exists g :: Holds(s', g, x) {
      if x == d {
        assert Holds(s', h, x);
      } else {
        var g :| Holds(s, g, x);
        assert Holds(s', g, x);
      }
    }
  }

  lemma MoveConserves(s: State, s': State, from: Holder, to: Holder)
    requires Conserved(s) && from != to && SameHeldExcept(s, s', {from, to}) && s'.live == s.live
    requires Held(s, to).None? && Held(s', from).None? && Held(s', to) == Held(s, from)
    ensures Conserved(s')
  {
    forall g, d | Holds(s', g, d) ensures Holds(s, if g == to then from else g, d) {
    }
    forall d | d in s'.live ensures exists g :: Holds(s', g, d) {
      var g :| Holds(s, g, d);
      assert Holds(s', if g == from then to else g, d);
    }
  }

  // ---------- every event keeps the invariant ----------

  lemma DropConserves(s: State)
    requires Conserved(s)
    ensures Conserved(DropConnection(s))
  {
    ReleaseConserves(s, DropConnection(s), MainConn);
  }

  lemma SpawnConserves(s: State, node: Host)
    requires Conserved(s) && Fresh(s)
    ensures Conserved(SpawnOn(s, node))
  {
    if node !in s.threads {
      AcquireConserves(s, SpawnOn(s, node), NodeConn(node), s.next);
    }
  }

  lemma NodeReleaseConserves(s: State, node: Host, t: NodeThread)
    requires Conserved(s) && node in s.threads && t.hdbc.None?
    ensures Conserved(SetNode(s, node, t).(live := Freed(s.live, s.threads[node].hdbc)))
  {
    ReleaseConserves(s, SetNode(s, node, t).(live := Freed(s.live, s.threads[node].hdbc)), NodeConn(node));
  }

  lemma ReconnectConserves(s: State, node: Host)
    requires Conserved(s) && Fresh(s) && node in s.threads
    ensures Conserved(Reconnect(s, node))
  {
    var t := s.threads[node].(hdbc := None);
    var released := SetNode(s, node, t).(live := Freed(s.live, s.threads[node].hdbc));
    NodeReleaseConserves(s, node, t);
    AcquireConserves(released, Reconnect(s, node), NodeConn(node), s.next);
  }

  lemma HandOverConserves(s: State, node: Host)
    requires Conserved(s) && node in s.threads
    ensures Conserved(HandOverWriter(s, node))
  {
    if s.writerSlot.Some? {
      ReleaseConserves(s, HandOverWriter(s, node), NodeConn(node));
    } else {
      MoveConserves(s, HandOverWriter(s, node), NodeConn(node), WriterConn);
    }
  }

  lemma ClaimConserves(s: State, node: Host)
    requires Conserved(s) && node in s.threads
    ensures Conserved(ClaimReader(s, node))
  {
    if s.readerSlot.Some? {
      StayConserved(s, ClaimReader(s, node));
    } else {
      MoveConserves(s, ClaimReader(s, node), NodeConn(node), ReaderConn);
    }
  }

  lemma AdoptConserves(s: State)
    requires Conserved(s) && s.pc.Polling?
    ensures Conserved(AdoptWriter(s))
  {
    var dropped := s.(live := Freed(s.live, s.main), main := None);
    ReleaseConserves(s, dropped, MainConn);
    MoveConserves(dropped, AdoptWriter(s), WriterConn, MainConn);
  }

  /** The destructor of a node thread frees the handle it finds, unless the thread served as the reader: then a handle
      it found would be lost. So it conserves exactly when there is none, or none to keep; none means nothing is freed. */
  lemma JoinConserves(s: State, node: Host)
    requires Conserved(s) && node in s.threads
    ensures Conserved(Join(s, node)) <==> s.threads[node].hdbc.None? || !s.threads[node].readerUpdates
    ensures s.threads[node].hdbc.None? ==> Join(s, node).live == s.live
  {
    var t, s' := s.threads[node], Join(s, node);
    if t.hdbc.None? {
      StayConserved(s, s');
    } else if !t.readerUpdates {
      ReleaseConserves(s, s', NodeConn(node));
    } else {
      assert Holds(s, NodeConn(node), t.hdbc.value);
      assert forall h :: Holds(s', h, t.hdbc.value) ==> Holds(s, h, t.hdbc.value) && h != NodeConn(node);
      assert t.hdbc.value in s'.live;
    }
  }

  lemma NodeConserves(s: State, n: Host, e: NodeEvent)
    requires Conserved(s) && Fresh(s) && NodeEnabled(s, n, e)
    ensures Conserved(ApplyNode(s, n, e))
  {
    var s' := ApplyNode(s, n, e);
    var t := s.threads[n];
    match e
    case HandleWriter => HandOverConserves(s, n);
    case ClaimSlot => ClaimConserves(s, n);
    case Probed(reachable, _) =>
      if t.hdbc.None? || !reachable { ReconnectConserves(s, n); } else { StayConserved(s, s'); }
    case Connected(ok) => if ok { StayConserved(s, s'); } else { NodeReleaseConserves(s, n, s'.threads[n]); }
    case Close => NodeReleaseConserves(s, n, s'.threads[n]);
    case _ => StayConserved(s, s');
  }

  // OpenAnyConnGetHosts.
  lemma OpenTestedConserves(s: State)
    requires Conserved(s) && Fresh(s) && MainEnabled(s, OpenTested)
    ensures Conserved(ApplyMain(s, OpenTested))
  {
    if s.main.None? {
      AcquireConserves(s, ApplyMain(s, OpenTested), LocalConn, s.next);
    } else {
      StayConserved(s, ApplyMain(s, OpenTested));
    }
  }

  lemma OpenConnectedConserves(s: State, connected: bool)
    requires Conserved(s) && MainEnabled(s, OpenConnected(connected))
    ensures Conserved(ApplyMain(s, OpenConnected(connected)))
  {
    if connected {
      StayConserved(s, ApplyMain(s, OpenConnected(connected)));
    } else {
      ReleaseConserves(s, ApplyMain(s, OpenConnected(connected)), LocalConn);
    }
  }

  lemma OpenInstalledConserves(s: State, role: bool)
    requires Conserved(s) && MainEnabled(s, OpenInstalled(role))
    ensures Conserved(ApplyMain(s, OpenInstalled(role)))
  {
    if s.main.None? {
      MoveConserves(s, ApplyMain(s, OpenInstalled(role)), LocalConn, MainConn);
    } else {
      ReleaseConserves(s, ApplyMain(s, OpenInstalled(role)), LocalConn);
    }
  }

  // The events that only move the main thread's program counter.
  lemma MainQuiet(s: State, e: MainEvent)
    requires Conserved(s) && MainEnabled(s, e)
    requires e.TestRunning? || e.TestWriterFlag? || e.ChooseHandler? || e.RegularLocked? || e.RegularFetched?
             || e.InitCached? || e.OpenDereferenced? || e.OpenFetched? || e.SpawnTested? || e.JoinsDone?
    ensures Conserved(ApplyMain(s, e))
  {
    StayConserved(s, ApplyMain(s, e));
  }

  lemma AddNodeConserves(s: State)
    requires Conserved(s) && Fresh(s) && MainEnabled(s, AddNode)
    ensures Conserved(ApplyMain(s, AddNode))
  {
    if s.pc.hosts == [] {
      StayConserved(s, ApplyMain(s, AddNode));
    } else {
      SpawnConserves(s, s.pc.hosts[0]);
      StayConserved(SpawnOn(s, s.pc.hosts[0]), ApplyMain(s, AddNode));
    }
  }

  lemma MainConserves(s: State, e: MainEvent)
    requires Conserved(s) && Fresh(s) && ReaderProtected(s) && MainEnabled(s, e)
    ensures Conserved(ApplyMain(s, e))
  {
    match e
    case RegularDropped => ReleaseConserves(s, ApplyMain(s, e), MainConn);
    case InitFreeWriter => ReleaseConserves(s, ApplyMain(s, e), WriterConn);
    case InitFreeReader => ReleaseConserves(s, ApplyMain(s, e), ReaderConn);
    case OpenTested => OpenTestedConserves(s);
    case OpenConnected(connected) => OpenConnectedConserves(s, connected);
    case OpenInstalled(role) => OpenInstalledConserves(s, role);
    case OpenDropped => ReleaseConserves(s, ApplyMain(s, e), MainConn);
    case AddNode => AddNodeConserves(s);
    case Polled(verified, _) =>
      if s.writerSlot.Some? && verified { AdoptConserves(s); } else { StayConserved(s, ApplyMain(s, e)); }
    case JoinNode(n) => JoinConserves(s, n);
    case _ => MainQuiet(s, e);
  }

  // A node thread changes its own entry only; the reader slot it can only fill.
  lemma NodeIsLocal(s: State, n: Host, e: NodeEvent)
    requires NodeEnabled(s, n, e)
    ensures var s' := ApplyNode(s, n, e);
      && n in s'.threads && s'.threads == s.threads[n := s'.threads[n]]
      && (s'.readerSlot == s.readerSlot || s.readerSlot.None?)
  {
    hide Freed;
  }

  lemma NodeProtectsItself(s: State, n: Host, e: NodeEvent)
    requires NodeEnabled(s, n, e) && ThreadProtected(s.threads[n], s.readerSlot)
    ensures n in ApplyNode(s, n, e).threads
    ensures ThreadProtected(ApplyNode(s, n, e).threads[n], ApplyNode(s, n, e).readerSlot)
  {
    hide Freed;
  }

  lemma NodeProtectsReader(s: State, n: Host, e: NodeEvent)
    requires ReaderProtected(s) && NodeEnabled(s, n, e)
    ensures ReaderProtected(ApplyNode(s, n, e))
  {
    hide ApplyNode;
    NodeIsLocal(s, n, e);
    NodeProtectsItself(s, n, e);
  }

  lemma MainProtectsReader(s: State, e: MainEvent)
    requires ReaderProtected(s) && ModesSafe(s) && MainEnabled(s, e)
    ensures ReaderProtected(ApplyMain(s, e))
  {
  }

  lemma MainKeepsModes(s: State, e: MainEvent)
    requires ModesSafe(s) && MainEnabled(s, e)
    ensures ModesSafe(ApplyMain(s, e))
  {
  }

  lemma NodeKeepsModes(s: State, n: Host, e: NodeEvent)
    requires ModesSafe(s) && NodeEnabled(s, n, e)
    ensures ModesSafe(ApplyNode(s, n, e))
  {
  }

  lemma NodeKeepsFresh(s: State, n: Host, e: NodeEvent)
    requires Fresh(s) && NodeEnabled(s, n, e)
    ensures Fresh(ApplyNode(s, n, e))
  {
  }

  lemma AppKeepsInvariant(s: State, e: AppEvent)
    requires s.pc != Destroyed && Invariant(s) && AppEnabled(s, e)
    ensures Invariant(ApplyApp(s, e))
  {
    if e.DropMain? {
      DropConserves(s);
    } else if !e.Destroy? {
      StayConserved(s, ApplyApp(s, e));
    }
  }

  lemma MainKeepsFresh(s: State, e: MainEvent)
    requires Fresh(s) && MainEnabled(s, e)
    ensures Fresh(ApplyMain(s, e))
  {
  }

  lemma MainKeepsInvariant(s: State, e: MainEvent)
    requires s.pc != Destroyed && Invariant(s) && MainEnabled(s, e)
    ensures Invariant(ApplyMain(s, e))
  {
    MainConserves(s, e);
    MainProtectsReader(s, e);
    MainKeepsModes(s, e);
    MainKeepsFresh(s, e);
  }

  lemma NodeKeepsInvariant(s: State, n: Host, e: NodeEvent)
    requires s.pc != Destroyed && Invariant(s) && NodeEnabled(s, n, e)
    ensures Invariant(ApplyNode(s, n, e))
  {
    NodeConserves(s, n, e);
    NodeKeepsFresh(s, n, e);
    NodeProtectsReader(s, n, e);
    NodeKeepsModes(s, n, e);
  }

  lemma StepKeepsInvariant(s: State, e: Event)
    requires Invariant(s) && Enabled(s, e)
    ensures Invariant(Apply(s, e))
  {
    match e
    case App(a) => AppKeepsInvariant(s, a);
    case Main(m) => MainKeepsInvariant(s, m);
    case Node(n, a) => NodeKeepsInvariant(s, n, a);
  }
}
